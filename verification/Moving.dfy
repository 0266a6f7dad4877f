// Two short runs of the compositor in which a transition is disturbed: a box moved while it
// slides in, and a box created again elsewhere while its phantom fades.
module Moving {
  import opened Pixels
  import opened Raster
  import opened SceneModel
  import opened Probing
  import opened RenderMap
  import opened Damage
  import opened Transitions
  import opened Diff
  import opened DiffCover
  import opened Painting
  import opened SceneLaws
  import opened Layers
  import opened Frames
  import opened Unseen
  import opened Ink
  import opened Compositor
  import opened Stale
  import DiffLimits

  /** A layer of which only the first transition slot is in use, by an enter. */
  predicate Sliding(l: Layer, a: Anim) {
    !l.dead && |l.anims| == ANIM_CAP && a.Enter? && l.anims[0] == a && forall i :: 0 < i < ANIM_CAP ==> l.anims[i].Idle?
  }

  lemma {:induction false} SoloAdvance(fx: Fx, n: nat)
    requires 0 < n <= |fx.anims| && forall i :: 0 < i < n ==> fx.anims[i].Idle?
    ensures Advance(fx, n).damage == AgeDamage(fx.anims[0], fx.damage)
  {
    if n > 1 { SoloAdvance(fx, n - 1); } else { assert Advance(fx, 0) == fx; }
  }

  /** The tick of such a layer. */
  lemma SlidingTick(l: Layer, damage: seq<Rect>, a: Anim)
    requires Sliding(l, a) && a.t + 1 < TICKS && !l.store.replaying && |damage| + 2 <= MAX_DAMAGE
    ensures var (r, d) := Ticked(l, damage);
            && Sliding(r, Enter(a.id, a.t + 1, a.base)) && r == l.(anims := r.anims)
            && forall x, y :: Covers(d, x, y) ==>
                 Covers(damage, x, y) || a.base.Has(x, y) || Shifted(a.base, SlideOffset(a.t + 1)).Has(x, y)
    ensures forall x, y :: Shifted(a.base, SlideOffset(a.t + 1)).Has(x, y) ==> Covers(Ticked(l, damage).1, x, y)
  {
    SoloAdvance(Fx(l.anims, damage), |l.anims|);
    forall x, y ensures Covers(AgeDamage(a, damage), x, y) ==>
                          Covers(damage, x, y) || a.base.Has(x, y) || Shifted(a.base, SlideOffset(a.t + 1)).Has(x, y) {
      DiffLimits.AddCoversOnly(damage, a.base, x, y);
      DiffLimits.AddCoversOnly(Add(damage, a.base), Shifted(a.base, SlideOffset(a.t + 1)), x, y);
    }
  }

  /** Such a layer shows its one node only where the node is drawn just now. */
  lemma SlidingPx(c: Compositor, v: Node, a: Anim, x: int, y: int)
    requires |c.ly| == 1 && Sliding(c.ly[0], a) && c.ly[0].store.nodes == [v] && a.id == v.id && c.effects
    requires !Shifted(a.base, SlideOffset(a.t)).Has(x, y)
    ensures c.FullRepaintPx(x, y) == c.clear
  {
    var l := c.ly[0];
    var look := Look(c.theme, c.effects, l.texs, l.anims);
    OneNodeDesk(c, l, [v], x, y);
    assert FindAnim(l.anims, v.id) == 0;
    var f := (u, d) => NodePx(look, u, x, y, d);
    assert Fold(f, [v], 1, c.clear) == f([v][0], Fold(f, [v], 0, c.clear));
    SoloExit(look, |l.anims|, x, y, c.clear);
  }

  // ---- Created again while fading ---------------------------------------------

  /** The turn of a node created elsewhere while its phantom fades: the phantom is forgotten. */
  lemma AgainTurn(l: Layer, v: Node, theme: Theme) returns (r: Layer)
    requires l.model == Map(Blank(64), 6, 0) && l.store.nodes == [v] && Changed(l) && !l.store.replaying
    requires |l.anims| == ANIM_CAP && l.anims[0].Exit? && l.anims[0].id == v.id && KeyOf(v, theme.sig).Shown()
    requires forall i :: 0 < i < ANIM_CAP ==> l.anims[i].Idle?
    ensures |l.model.slots| == Pow2(l.model.shift) && [r] == FrameOf([l], theme, true, []).0
    ensures Sliding(r, Enter(v.id, 1, v.rect)) && r == l.(model := r.model, anims := r.anims)
    ensures forall x, y :: Covers(FrameOf([l], theme, true, []).1, x, y) ==> Band(v.rect).Has(x, y)
  {
    var p, mode := Start(l, []), ModeOf(l, theme, true);
    FirstDiff(v, p.fx, mode);
    assert FindAnim(l.anims, v.id) == 0;
    assert FirstIdle(l.anims[0 := Idle]) == 0;
    var l1 := Diffed(l, theme, true, []).0;
    assert l1.anims == l.anims[0 := Enter(v.id, 0, v.rect)];
    SlidingTick(l1, [], Enter(v.id, 0, v.rect));
    r := OneLayer(l, theme, true, []);
  }

  /** The shell shows a white box and effects are on; the box is deleted, and one frame later it
      is created again elsewhere.  The half-faded phantom is left on screen. */
  method CreatedAgain(w: nat, h: nat, theme: Theme, v: Node, to: Rect, x: nat, y: nat) returns (c: Compositor)
    requires x < w && y < h && Touches(v, x, y) && v.texts == [] && v.tex == NO_TEXTURE && theme.snapshot([]) == []
    requires var st := ResolveStyle(theme, v.style, v.role); st.fill == WHITE && st.borderW == 0 && st.radius == 0
    requires !to.Empty() && !Band(to).Has(x, y)
    ensures fresh(c) && c.OnScreen(x, y) && c.fb[y, x] != c.FullRepaintPx(x, y) && OffTails(c.ly, x, y)
    ensures |c.ly| == 1 && c.ly[0].store == Content(3, [v.(rect := to)]) && c.pending == [] && !c.force
  {
    c := Begin(w, h, theme, v);
    FadeOut(c, v);
    FadingPx(c, v, x, y);
    c.ly := [c.ly[0].(store := Content(3, [v.(rect := to)]))];
    FrameAgain(c, v.(rect := to), x, y);
  }

  method FrameAgain(c: Compositor, v: Node, x: int, y: int)
    requires |c.ly| == 1 && !c.force && c.effects && c.pending == [] && c.OnScreen(x, y) && !Band(v.rect).Has(x, y)
    requires var l := c.ly[0];
             && l.model == Map(Blank(64), 6, 0) && l.store == Content(3, [v]) && l.rendered == 2 && !l.dead
             && |l.anims| == ANIM_CAP && l.anims[0].Exit? && l.anims[0].id == v.id && KeyOf(v, c.theme.sig).Shown()
             && forall i :: 0 < i < ANIM_CAP ==> l.anims[i].Idle?
    modifies c, c.fb
    ensures c.fb == old(c.fb) && c.clear == old(c.clear) && c.fb[y, x] == old(c.fb[y, x]) && c.FullRepaintPx(x, y) == c.clear
    ensures |c.ly| == 1 && c.ly[0].store == Content(3, [v]) && OffTails(c.ly, x, y) && c.pending == [] && !c.force
  {
    var l := c.ly[0];
    ghost var r := AgainTurn(l, v, c.theme);
    assert c.ly == [l];
    var _ := c.AnyFrame();
    ghost var a := Enter(v.id, 1, v.rect);
    assert Sliding(c.ly[0], a);
    SlidingPx(c, v, a, x, y);
  }

  // ---- Moved while sliding in -------------------------------------------------

  /** A white box one tick into its enter shows faintly where it is drawn. */
  lemma FaintPx(c: Compositor, v: Node, x: int, y: int)
    requires |c.ly| == 1 && Sliding(c.ly[0], Enter(v.id, 1, v.rect)) && c.ly[0].store.nodes == [v]
    requires c.effects && c.clear == DESKTOP
    requires Shifted(v.rect, SlideOffset(1)).Has(x, y) && Paintable(v) && v.texts == [] && v.tex == NO_TEXTURE
    requires var st := ResolveStyle(c.theme, v.style, v.role); st.fill == WHITE && st.borderW == 0 && st.radius == 0
    ensures c.FullRepaintPx(x, y) == Pixel(255, 45, 45, 45)
  {
    var l := c.ly[0];
    var look := Look(c.theme, c.effects, l.texs, l.anims);
    OneNodeDesk(c, l, [v], x, y);
    assert FindAnim(l.anims, v.id) == 0;
    FaintWhite(WHITE, 31, DESKTOP);
    assert NodePx(look, v, x, y, DESKTOP) == Blend(WHITE, 31, DESKTOP);
    var f := (u, d) => NodePx(look, u, x, y, d);
    assert Fold(f, [v], 1, c.clear) == f([v][0], Fold(f, [v], 0, c.clear));
    SoloExit(look, |l.anims|, x, y, NodePx(look, v, x, y, DESKTOP));
  }

  /** The turn of a new node with effects on. */
  lemma SlideTurn(l: Layer, v: Node, theme: Theme) returns (r: Layer)
    requires l == NewLayer(0, Content(1, [v])) && KeyOf(v, theme.sig).Shown()
    ensures |l.model.slots| == Pow2(l.model.shift) && [r] == FrameOf([l], theme, true, []).0
    ensures Sliding(r, Enter(v.id, 1, v.rect)) && r == l.(model := Single(v, theme.sig), anims := r.anims)
    ensures forall x, y :: Shifted(v.rect, SlideOffset(1)).Has(x, y) ==> Covers(FrameOf([l], theme, true, []).1, x, y)
  {
    var p, mode := Start(l, []), ModeOf(l, theme, true);
    FirstDiff(v, p.fx, mode);
    assert FindAnim(l.anims, v.id) < 0 && FirstIdle(l.anims) == 0;
    var l1 := Diffed(l, theme, true, []).0;
    assert l1.anims == l.anims[0 := Enter(v.id, 0, v.rect)];
    SlidingTick(l1, [], Enter(v.id, 0, v.rect));
    r := OneLayer(l, theme, true, []);
  }

  method FrameSlide(c: Compositor, v: Node)
    requires !c.force && c.effects && c.pending == [] && c.ly == [NewLayer(0, Content(1, [v]))] && KeyOf(v, c.theme.sig).Shown()
    modifies c, c.fb
    ensures c.fb == old(c.fb) && c.theme == old(c.theme) && c.clear == old(c.clear)
    ensures c.effects && !c.force && c.pending == [] && |c.ly| == 1 && Sliding(c.ly[0], Enter(v.id, 1, v.rect))
    ensures c.ly[0].model == Single(v, c.theme.sig) && c.ly[0].store == Content(1, [v]) && c.ly[0].rendered == 1
    ensures forall x, y :: c.OnScreen(x, y) && Shifted(v.rect, SlideOffset(1)).Has(x, y) ==> c.fb[y, x] == c.FullRepaintPx(x, y)
  {
    ghost var l := c.ly[0];
    ghost var r := SlideTurn(l, v, c.theme);
    assert c.ly == [l] && Changed(l);
    var _ := c.AnyFrame();
    assert c.ly[0] == r.(rendered := 1);
  }

  /** The first frame with effects on: the box slides in. */
  method SlideIn(w: nat, h: nat, theme: Theme, v: Node) returns (c: Compositor)
    requires KeyOf(v, theme.sig).Shown()
    ensures fresh(c) && fresh(c.fb) && c.fb.Length1 == w && c.fb.Length0 == h && c.theme == theme && c.clear == DESKTOP
    ensures c.effects && !c.force && c.pending == [] && |c.ly| == 1 && Sliding(c.ly[0], Enter(v.id, 1, v.rect))
    ensures c.ly[0].model == Single(v, theme.sig) && c.ly[0].store == Content(1, [v]) && c.ly[0].rendered == 1
    ensures forall x, y :: c.OnScreen(x, y) && Shifted(v.rect, SlideOffset(1)).Has(x, y) ==> c.fb[y, x] == c.FullRepaintPx(x, y)
  {
    c := new Compositor(w, h, 0, Content(1, [v]), theme);
    c.SetEffects(true);
    FrameSlide(c, v);
  }

  lemma MovedStep(v: Node, to: Rect, fx: Fx, mode: Mode)
    requires mode.effects && KeyOf(v, mode.theme.sig).Shown() && !to.Empty() && to != v.rect
    requires |fx.anims| == ANIM_CAP && fx.anims[0] == Enter(v.id, 1, v.rect) && fx.damage == []
    ensures var r := DiffLayer(Progress(Single(v, mode.theme.sig), fx), mode, [v.(rect := to)]).fx;
            r == Fx(fx.anims[0 := Enter(v.id, 1, to)], Add(Add([], v.rect), to))
  {
    var p, u := Progress(Single(v, mode.theme.sig), fx), v.(rect := to);
    MeetsSingle(v, mode.theme.sig);
    assert FindAnim(fx.anims, v.id) == 0;
    var w := Walk(p, mode, [u], 1);
    assert w == DiffStep(Walk(p, mode, [u], 0), mode, [u][0]);
    SeenSweep(w, mode, 64);
  }

  /** The turn of a box moved one tick into its enter. */
  lemma MovedTurn(l: Layer, v: Node, to: Rect, theme: Theme) returns (r: Layer)
    requires Sliding(l, Enter(v.id, 1, v.rect)) && l.model == Single(v, theme.sig) && l.store == Content(2, [v.(rect := to)])
    requires Changed(l) && KeyOf(v, theme.sig).Shown() && !to.Empty() && to != v.rect
    ensures |l.model.slots| == Pow2(l.model.shift) && [r] == FrameOf([l], theme, true, []).0
    ensures Sliding(r, Enter(v.id, 2, to)) && r == l.(model := r.model, anims := r.anims)
    ensures forall x, y :: Covers(FrameOf([l], theme, true, []).1, x, y) ==> v.rect.Has(x, y) || Band(to).Has(x, y)
  {
    MovedStep(v, to, Fx(l.anims, []), ModeOf(l, theme, true));
    var (l1, d) := Diffed(l, theme, true, []);
    SlidingTick(l1, d, Enter(v.id, 1, to));
    forall x, y ensures Covers(d, x, y) ==> v.rect.Has(x, y) || to.Has(x, y) {
      DiffLimits.AddCoversOnly([], v.rect, x, y);
      DiffLimits.AddCoversOnly(Add([], v.rect), to, x, y);
    }
    r := OneLayer(l, theme, true, []);
  }

  /** The shell's white box slides in, and is moved elsewhere after one tick.  Below its old place
      the faint box it was drawn as is left on screen. */
  method MovedBox(w: nat, h: nat, theme: Theme, v: Node, to: Rect, x: nat, y: nat) returns (c: Compositor)
    requires x < w && y < h && Paintable(v) && v.texts == [] && v.tex == NO_TEXTURE
    requires var st := ResolveStyle(theme, v.style, v.role); st.fill == WHITE && st.borderW == 0 && st.radius == 0
    requires v.rect.(y := v.rect.y + 5).Has(x, y) && !v.rect.Has(x, y) && !to.Empty() && !to.(h := to.h + 6).Has(x, y)
    requires to != v.rect
    ensures fresh(c) && c.OnScreen(x, y) && c.fb[y, x] != c.FullRepaintPx(x, y) && OffTails(c.ly, x, y)
    ensures |c.ly| == 1 && c.ly[0].store == Content(2, [v.(rect := to)]) && c.pending == [] && !c.force
  {
    c := SlideIn(w, h, theme, v);
    FaintPx(c, v, x, y);
    c.ly := [c.ly[0].(store := Content(2, [v.(rect := to)]))];
    FrameMoved(c, v, to, x, y);
  }

  method FrameMoved(c: Compositor, v: Node, to: Rect, x: int, y: int)
    requires |c.ly| == 1 && !c.force && c.effects && c.pending == [] && c.OnScreen(x, y)
    requires !v.rect.Has(x, y) && !Band(to).Has(x, y) && !to.Empty() && to != v.rect && KeyOf(v, c.theme.sig).Shown()
    requires var l := c.ly[0];
             && Sliding(l, Enter(v.id, 1, v.rect)) && l.model == Single(v, c.theme.sig)
             && l.store == Content(2, [v.(rect := to)]) && l.rendered == 1
    modifies c, c.fb
    ensures c.fb == old(c.fb) && c.clear == old(c.clear) && c.fb[y, x] == old(c.fb[y, x]) && c.FullRepaintPx(x, y) == c.clear
    ensures |c.ly| == 1 && c.ly[0].store == Content(2, [v.(rect := to)]) && OffTails(c.ly, x, y) && c.pending == [] && !c.force
  {
    var l := c.ly[0];
    ghost var r := MovedTurn(l, v, to, c.theme);
    assert c.ly == [l];
    var _ := c.AnyFrame();
    ghost var a := Enter(v.id, 2, to);
    assert Sliding(c.ly[0], a);
    SlidingPx(c, v.(rect := to), a, x, y);
  }
}
