// Four short runs of the compositor, from a new one on, that end with a wrong picture and
// nothing left to do: a box turned transparent, a box brought back after a forced frame,
// a phantom when effects go off, and a texture whose registration was refused.
module Stale {
  import opened Pixels
  import opened Raster
  import opened SceneModel
  import opened Probing
  import opened RenderMap
  import opened Damage
  import opened Transitions
  import opened Diff
  import opened DiffCover
  import opened Painting
  import opened SceneLaws
  import opened Layers
  import opened Frames
  import opened Unseen
  import opened Ink
  import opened Compositor
  import DiffLimits

  /** The shell's store with this content. */
  function Content(version: nat, nodes: seq<Node>): Store { Store(version, nodes, false, false) }

  /** The entry of a node once its walk has been swept. */
  function Entry(v: Node, sig: TextSig): RNode { FreshEntry(v, sig).(seen := false) }

  /** The table of one node. */
  function Single(v: Node, sig: TextSig): (m: Map)
    ensures |m.slots| == 64 == Pow2(m.shift) && m.slots[HomeSlot(v.id, 6)] == Used(Entry(v, sig))
    ensures forall i :: 0 <= i < 64 && i != HomeSlot(v.id, 6) ==> m.slots[i] == Free
  {
    assert Pow2(6) == 64 by { assert Pow2(3) == 8; }
    Map(Blank(64)[HomeSlot(v.id, 6) := Used(Entry(v, sig))], 6, 1)
  }

  /** The shell's layer after its first frame showed one node. */
  function Boxed(v: Node, texs: map<nat, Texture>, sig: TextSig): Layer {
    NewLayer(0, Content(1, [v])).(texs := texs, model := Single(v, sig), rendered := 1)
  }

  lemma {:induction false} SweepAllSeen(m: Map, n: nat)
    requires n <= |m.slots| && forall i :: 0 <= i < n ==> !Gone(m.slots[i])
    ensures SweepTable(m, n).used == m.used
  {
    if n > 0 { SweepAllSeen(m, n - 1); }
  }

  /** The first diff enters the node into the blank table and does with it what one step does. */
  lemma FirstDiff(v: Node, fx: Fx, mode: Mode)
    ensures |Map(Blank(64), 6, 0).slots| == Pow2(6)
    ensures var p := Progress(Map(Blank(64), 6, 0), fx); var r := DiffLayer(p, mode, [v]);
            r.model == Single(v, mode.theme.sig) && r.fx == StepFx(p, mode, v) && Find(p.model, v.id) < 0
  {
    var s := Single(v, mode.theme.sig);
    var m, h := Map(Blank(64), 6, 0), HomeSlot(v.id, 6);
    var p := Progress(m, fx);
    assert Probe(h, 0, 64) == h;
    var w := Walk(p, mode, [v], 1);
    assert w == DiffStep(Walk(p, mode, [v], 0), mode, [v][0]);
    assert w.model == Map(m.slots[h := Used(FreshEntry(v, mode.theme.sig))], 6, 1);
    SweepAllSeen(w.model, 64);
    SeenSweep(w, mode, 64);
    var r := SweepTable(w.model, 64);
    assert r.slots == s.slots;
  }

  lemma MeetsSingle(v: Node, sig: TextSig)
    ensures Find(Single(v, sig), v.id) == HomeSlot(v.id, 6)
  {
    assert Probe(HomeSlot(v.id, 6), 0, 64) == HomeSlot(v.id, 6);
  }

  lemma {:induction false} SweepLoneCount(m: Map, h: nat, n: nat)
    requires h < |m.slots| && n <= |m.slots| && Gone(m.slots[h]) && m.used > 0
    requires forall i :: 0 <= i < |m.slots| && i != h ==> m.slots[i] == Free
    ensures SweepTable(m, n).used == if n <= h then m.used else m.used - 1
  {
    if n > 0 { SweepLoneCount(m, h, n - 1); }
  }

  lemma {:induction false} SweepLone(p: Progress, mode: Mode, h: nat, n: nat)
    requires h < |p.model.slots| && n <= |p.model.slots| && Gone(p.model.slots[h])
    requires forall i :: 0 <= i < |p.model.slots| && i != h ==> p.model.slots[i] == Free
    ensures Sweep(p, mode, n).fx == if n <= h then p.fx else SweepFx(p.fx, mode, p.model.slots[h])
  {
    if n > 0 { SweepLone(p, mode, h, n - 1); }
  }

  /** A frame's turn of a desk with one layer. */
  lemma OneLayer(l: Layer, theme: Theme, effects: bool, pending: seq<Rect>) returns (r: Layer)
    requires |l.model.slots| == Pow2(l.model.shift)
    ensures var (l1, d) := Diffed(l, theme, effects, []); r == if effects then Ticked(l1, d).0 else l1
    ensures FrameOf([l], theme, effects, pending).0 == [r]
    ensures pending == [] ==> var (l1, d) := Diffed(l, theme, effects, []);
                              FrameOf([l], theme, effects, pending).1 == if effects then Ticked(l1, d).1 else d
  {
    var (l1, d) := Diffed(l, theme, effects, []);
    var ls := [l];
    DiffAllAt(ls, theme, effects, [], |ls|, 0);
    var (ls1, d1) := DiffAll(ls, theme, effects, [], |ls|);
    assert DiffAll(ls, theme, effects, [], |ls| - 1) == (ls, []);
    assert d1 == d && ls1 == [l1];
    if effects {
      TickAllAt(ls1, d1, |ls1|, 0);
      assert TickAll(ls1, d1, |ls1| - 1) == (ls1, d1);
      assert TickAll(ls1, d1, |ls1|).0 == [Ticked(l1, d).0];
    }
    r := if effects then Ticked(l1, d).0 else l1;
  }

  lemma FirstTurn(v: Node, texs: map<nat, Texture>, theme: Theme, pending: seq<Rect>)
    ensures var l := NewLayer(0, Content(1, [v])).(texs := texs);
            && Frames.Holds(Turn, l, [], theme, false) && |l.model.slots| == Pow2(l.model.shift)
            && Noted(FrameOf([l], theme, false, pending).0) == [Boxed(v, texs, theme.sig)]
  {
    var l := NewLayer(0, Content(1, [v])).(texs := texs);
    var p, mode := Start(l, []), ModeOf(l, theme, false);
    FirstDiff(v, p.fx, mode);
    BlankBag(Blank(64));
    DiffLimits.SettledDiffOk(p, mode, [v]);
    var r := OneLayer(l, theme, false, pending);
  }

  // ---- The runs ---------------------------------------------------------------

  /** The shell alone, about to show its first content. */
  ghost predicate Opening(c: Compositor, v: Node, texs: map<nat, Texture>)
    reads c, c.fb
  {
    && c.Inv() && !c.force && !c.effects && c.painted == [[]]
    && c.ly == [NewLayer(0, Content(1, [v])).(texs := texs)]
  }

  /** The shell shows the node, and nothing is left to do. */
  ghost predicate Showing(c: Compositor, v: Node, texs: map<nat, Texture>)
    reads c, c.fb
  {
    && c.Inv() && c.Current() && c.LooksRepainted() && !c.force && !c.effects && c.pending == []
    && c.ly == [Boxed(v, texs, c.theme.sig)]
  }

  lemma FirstReady(c: Compositor, v: Node, texs: map<nat, Texture>)
    requires Opening(c, v, texs)
    ensures c.FrameReady() && c.Work() && !c.Forced() && Sized(c.ly) && c.Worked() == [Boxed(v, texs, c.theme.sig)]
  {
    FirstTurn(v, texs, c.theme, c.pending);
    EachIntro(Turn, c.ly, c.painted, c.theme, false, 1);
    assert Changed(c.ly[0]);
  }

  method FirstFrame(c: Compositor, v: Node, ghost texs: map<nat, Texture>)
    requires Opening(c, v, texs)
    modifies c, c.fb
    ensures Showing(c, v, texs) && c.fb == old(c.fb) && c.theme == old(c.theme) && c.clear == old(c.clear)
  {
    FirstReady(c, v, texs);
    var _ := c.Frame();
  }

  /** Such a desk's pixel is its one node over the desktop colour. */
  lemma OneNodeDesk(c: Compositor, l: Layer, nodes: seq<Node>, x: int, y: int)
    requires c.ly == [l] && l.store.nodes == nodes && !l.dead
    ensures c.FullRepaintPx(x, y) == ScenePx(c.clear, [View(Look(c.theme, c.effects, l.texs, l.anims), nodes, false)], 1, x, y)
  {
    assert ViewsOf(c.ly, StoreNodes(c.ly), c.theme, c.effects) == [View(Look(c.theme, c.effects, l.texs, l.anims), nodes, false)];
  }

  lemma BarePx(c: Compositor, x: int, y: int)
    requires |c.ly| == 1 && c.ly[0].store.nodes == [] && !c.ly[0].dead && !c.effects
    ensures c.FullRepaintPx(x, y) == c.clear
  {
    OneNodeDesk(c, c.ly[0], [], x, y);
  }

  /** A box of an opaque style other than the desktop colour. */
  predicate Filled(st: Style) {
    st.fill != CLEAR_WORD && st.fill != DESKTOP && st.radius == 0 && (st.borderW == 0 || st.border == CLEAR_WORD)
  }

  /** It shows as such, and not at all when it is transparent. */
  lemma BoxPx(c: Compositor, nodes: seq<Node>, v: Node, x: int, y: int)
    requires |c.ly| == 1 && c.ly[0].store.nodes == nodes && !c.ly[0].dead && !c.effects && c.clear == DESKTOP
    requires Touches(v, x, y) && v.texts == [] && v.tex == NO_TEXTURE && Filled(ResolveStyle(c.theme, v.style, v.role))
    ensures nodes == [v] ==> c.FullRepaintPx(x, y) != DESKTOP
    ensures nodes == [v.(opacity := 0)] ==> c.FullRepaintPx(x, y) == DESKTOP
  {
    var l := c.ly[0];
    OneNodeDesk(c, l, nodes, x, y);
    FadedBoxDiffers(DESKTOP, Look(c.theme, false, l.texs, l.anims), v, x, y);
  }

  /** The node as the table knows it, whatever its opacity, is met by the walk. */
  lemma TwinMet(v: Node, opacity: Byte, sig: TextSig)
    ensures AllMet(Single(v, sig), [v.(opacity := opacity)], sig)
  {
    MeetsSingle(v, sig);
    var nodes := [v.(opacity := opacity)];
    forall i | 0 <= i < 64 && Single(v, sig).slots[i].Used?
      ensures exists k :: 0 <= k < |nodes| && Find(Single(v, sig), nodes[k].id) == i
    {
      assert Find(Single(v, sig), nodes[0].id) == i;
    }
  }

  method Begin(w: nat, h: nat, theme: Theme, v: Node) returns (c: Compositor)
    ensures fresh(c) && fresh(c.fb) && Showing(c, v, map[]) && c.theme == theme && c.clear == DESKTOP
    ensures c.fb.Length1 == w && c.fb.Length0 == h
  {
    c := new Compositor(w, h, 0, Content(1, [v]), theme);
    FirstFrame(c, v, map[]);
  }

  /** A frame over a commit that the diff does not see. */
  method BlindStep(c: Compositor, ghost l: Layer)
    requires !c.force && !c.effects && c.pending == [] && c.ly == [l] && Blind(l, c.theme) && Changed(l)
    requires l.rendered > 0 && !l.store.failed
    modifies c, c.fb
    ensures c.fb == old(c.fb) && c.clear == old(c.clear) && c.theme == old(c.theme) && !c.Work() && !c.force && !c.effects
    ensures |c.ly| == 1 && c.ly[0] == l.(model := c.ly[0].model, rendered := l.store.version)
    ensures forall x, y :: c.OnScreen(x, y) ==> c.fb[y, x] == old(c.fb[y, x])
  {
    BlindFrame(c.ly, c.theme, false);
    var _ := c.AnyFrame();
  }

  /** The shell shows a filled box; its next commit makes the box fully transparent.  The frame
      after it leaves the fill on screen. */
  method FadedBox(w: nat, h: nat, theme: Theme, v: Node, x: nat, y: nat) returns (c: Compositor)
    requires x < w && y < h && Touches(v, x, y) && v.texts == [] && v.tex == NO_TEXTURE
    requires Filled(ResolveStyle(theme, v.style, v.role))
    ensures fresh(c) && c.OnScreen(x, y) && c.fb[y, x] != c.FullRepaintPx(x, y) && !c.Work() && !c.force
    ensures |c.ly| == 1 && c.ly[0].store == Content(2, [v.(opacity := 0)])
  {
    c := Begin(w, h, theme, v);
    BoxPx(c, [v], v, x, y);
    assert c.fb[y, x] != DESKTOP;
    c.Commit(0, Content(2, [v.(opacity := 0)]));
    TwinMet(v, 0, theme.sig);
    BlindStep(c, c.ly[0]);
    BoxPx(c, [v.(opacity := 0)], v, x, y);
  }

  /** A forced frame over a shell that has just emptied itself. */
  method Emptied(c: Compositor, v: Node)
    requires Showing(c, v, map[])
    modifies c, c.fb
    ensures c.fb == old(c.fb) && c.clear == old(c.clear) && c.theme == old(c.theme) && !c.force && !c.effects && c.pending == []
    ensures c.ly == [Boxed(v, map[], c.theme.sig).(store := Content(2, []), rendered := 2)]
    ensures forall x, y :: c.OnScreen(x, y) ==> c.fb[y, x] == c.clear
  {
    c.Commit(0, Content(2, []));
    c.ForceRepaint();
    var _ := c.AnyFrame();
    forall x, y | c.OnScreen(x, y) ensures c.fb[y, x] == c.clear { BarePx(c, x, y); }
  }

  /** The shell shows a filled box, deletes it, and a forced frame clears the screen; then the
      shell brings the box back.  The diff finds it in the table, and it is not painted. */
  method ForcedAway(w: nat, h: nat, theme: Theme, v: Node, x: nat, y: nat) returns (c: Compositor)
    requires x < w && y < h && Touches(v, x, y) && v.texts == [] && v.tex == NO_TEXTURE
    requires Filled(ResolveStyle(theme, v.style, v.role))
    ensures fresh(c) && c.OnScreen(x, y) && c.fb[y, x] != c.FullRepaintPx(x, y) && !c.Work() && !c.force
    ensures |c.ly| == 1 && c.ly[0].store == Content(3, [v])
  {
    c := Begin(w, h, theme, v);
    Emptied(c, v);
    c.ly := [c.ly[0].(store := Content(3, [v]))];
    TwinMet(v, v.opacity, theme.sig);
    assert v.(opacity := v.opacity) == v;
    BlindStep(c, c.ly[0]);
    BoxPx(c, [v], v, x, y);
  }

  lemma PhantomTurn(l: Layer, v: Node, theme: Theme, pending: seq<Rect>) returns (r: Layer)
    requires l == Boxed(v, map[], theme.sig).(store := Content(2, [])) && KeyOf(v, theme.sig).Shown()
    ensures Noted(FrameOf([l], theme, true, pending).0) == [r] && r == l.(model := r.model, anims := r.anims, rendered := 2)
    ensures r.model == Map(Blank(64), 6, 0)
    ensures |r.anims| == ANIM_CAP && r.anims[0] == Exit(v.id, 1, v.rect, ExitLook(theme, Entry(v, theme.sig)))
    ensures forall i :: 0 < i < ANIM_CAP ==> r.anims[i].Idle?
  {
    var p, mode := Start(l, []), ModeOf(l, theme, true);
    SweepLone(p, mode, HomeSlot(v.id, 6), 64);
    SweepLoneCount(l.model, HomeSlot(v.id, 6), 64);
    assert SweepTable(l.model, 64).slots == Blank(64);
    assert Walk(p, mode, [], 0) == p;
    assert FindAnim(l.anims, v.id) < 0;
    assert FirstIdle(l.anims) == 0;
    var m := OneLayer(l, theme, true, pending);
    r := m.(rendered := 2);
  }

  lemma PhantomReady(c: Compositor, v: Node)
    requires c.Inv() && c.effects && !c.force && c.ly == [Boxed(v, map[], c.theme.sig).(store := Content(2, []))]
    ensures c.FrameReady() && !c.Forced() && c.Work()
  {
    var l, mode := c.ly[0], ModeOf(c.ly[0], c.theme, true);
    EachAt(Step, c.ly, c.painted, c.theme, true, 1, 0);
    DiffLimits.SettledDiffOk(Start(l, []), mode, []);
    EachIntro(Turn, c.ly, c.painted, c.theme, true, 1);
    assert Changed(l);
  }

  /** One frame after the node was deleted with effects on. */
  ghost predicate Fading(c: Compositor, v: Node)
    reads c, c.fb
  {
    && c.Inv() && c.LooksRepainted() && c.effects && !c.force && c.pending == []
    && |c.ly| == 1 && !Changed(c.ly[0]) && !c.ly[0].dead && c.ly[0].store == Content(2, []) && c.ly[0].texs == map[]
    && c.ly[0].model == Map(Blank(64), 6, 0)
    && |c.ly[0].anims| == ANIM_CAP && c.ly[0].anims[0] == Exit(v.id, 1, v.rect, ExitLook(c.theme, Entry(v, c.theme.sig)))
    && forall i :: 0 < i < ANIM_CAP ==> c.ly[0].anims[i].Idle?
  }

  /** Effects on, and the node deleted. */
  method Delete(c: Compositor, v: Node)
    requires Showing(c, v, map[])
    modifies c
    ensures c.Inv() && c.effects && !c.force && c.ly == [Boxed(v, map[], c.theme.sig).(store := Content(2, []))]
    ensures c.fb == old(c.fb) && c.clear == old(c.clear) && c.theme == old(c.theme)
  {
    c.SetEffects(true);
    c.Commit(0, Content(2, []));
  }

  method FadeOut(c: Compositor, v: Node)
    requires Showing(c, v, map[]) && KeyOf(v, c.theme.sig).Shown()
    modifies c, c.fb
    ensures Fading(c, v) && c.fb == old(c.fb) && c.clear == old(c.clear) && c.theme == old(c.theme)
  {
    Delete(c, v);
    PhantomReady(c, v);
    ghost var l := PhantomTurn(c.ly[0], v, c.theme, c.pending);
    var _ := c.Frame();
    assert c.ly[0] == l;
  }

  lemma FadingPx(c: Compositor, v: Node, x: int, y: int)
    requires Fading(c, v) && c.OnScreen(x, y) && Touches(v, x, y) && v.texts == [] && v.tex == NO_TEXTURE
    requires c.theme.snapshot([]) == [] && c.clear == DESKTOP
    requires var st := ResolveStyle(c.theme, v.style, v.role); st.fill == WHITE && st.borderW == 0 && st.radius == 0
    ensures c.fb[y, x] == Pixel(255, 225, 225, 225) && !c.Forced() && forall i :: 0 <= i < |c.ly| ==> !Changed(c.ly[i])
  {
    var l := c.ly[0];
    OneNodeDesk(c, l, [], x, y);
    PhantomDiffers(DESKTOP, Look(c.theme, true, l.texs, l.anims), Look(c.theme, false, l.texs, l.anims), x, y);
    assert OffTails(c.ly, x, y);
  }

  /** The shell shows a white box and effects are on; the box is deleted, and after one frame of
      its fading effects go off.  The frame after that leaves the half-faded box on screen. */
  method FadingBox(w: nat, h: nat, theme: Theme, v: Node, x: nat, y: nat) returns (c: Compositor)
    requires x < w && y < h && Touches(v, x, y) && v.texts == [] && v.tex == NO_TEXTURE && theme.snapshot([]) == []
    requires var st := ResolveStyle(theme, v.style, v.role); st.fill == WHITE && st.borderW == 0 && st.radius == 0
    ensures fresh(c) && c.OnScreen(x, y) && c.fb[y, x] != c.FullRepaintPx(x, y) && !c.Work() && !c.force
    ensures |c.ly| == 1 && c.ly[0].store == Content(2, [])
  {
    c := Begin(w, h, theme, v);
    FadeOut(c, v);
    FadingPx(c, v, x, y);
    var _ := c.EffectsOffFrame();
    BarePx(c, x, y);
  }

  /** A texture registered and released before the first frame. */
  method BeginReleased(w: nat, h: nat, theme: Theme, v: Node, tex: Texture) returns (c: Compositor)
    requires tex.fmt.Xrgb? && tex.w > 0 && tex.h > 0
    ensures fresh(c) && fresh(c.fb) && Showing(c, v, map[]) && c.theme == theme && c.clear == DESKTOP
    ensures c.fb.Length1 == w && c.fb.Length0 == h
  {
    c := new Compositor(w, h, 0, Content(1, [v]), theme);
    var _ := c.RegisterTexture(0, v.tex, tex, true);
    ghost var texs: map<nat, Texture> := map[][v.tex := tex];
    assert c.ly == [NewLayer(0, Content(1, [v])).(texs := texs)];
    var _ := c.ReleaseTexture(0, v.tex);
    assert c.ly[0].texs == map[];
    FirstFrame(c, v, map[]);
  }

  /** A registration the store refuses. */
  method Refuse(c: Compositor, v: Node, tex: Texture)
    requires Showing(c, v, map[]) && tex.fmt.Xrgb? && tex.w > 0 && tex.h > 0
    modifies c
    ensures |c.ly| == 1 && c.ly[0] == Boxed(v, map[], c.theme.sig).(texs := map[][v.tex := tex]) && !c.Work() && !c.force
    ensures c.fb == old(c.fb) && c.clear == old(c.clear) && c.theme == old(c.theme) && !c.effects
    ensures forall x, y :: c.OnScreen(x, y) ==> c.fb[y, x] == old(c.FullRepaintPx(x, y))
  {
    var _ := c.RegisterTexture(0, v.tex, tex, false);
  }

  /** The shell shows a node whose texture was released.  It is registered again, and the store
      has no memory left for it: the new texels are there, and are not painted. */
  method RefusedTexture(w: nat, h: nat, theme: Theme, v: Node, tex: Texture, x: nat, y: nat) returns (c: Compositor)
    requires x < w && y < h && Touches(v, x, y) && v.texts == [] && v.tex != NO_TEXTURE && v.opacity == 255
    requires !v.texSrc.Empty() && tex.fmt.Xrgb? && tex.w > 0 && tex.h > 0 && BlitDest(v.rect.x, v.rect.y, tex, v.texSrc).Has(x, y)
    requires var st := ResolveStyle(theme, v.style, v.role); st.fill == CLEAR_WORD && st.borderW == 0
    requires Texel(tex, x - (v.rect.x - v.texSrc.x), y - (v.rect.y - v.texSrc.y)).(a := 255) != DESKTOP
    ensures fresh(c) && c.OnScreen(x, y) && c.fb[y, x] != c.FullRepaintPx(x, y) && !c.Work() && !c.force
    ensures |c.ly| == 1 && c.ly[0].store == Content(1, [v])
  {
    c := BeginReleased(w, h, theme, v, tex);
    ghost var l := c.ly[0];
    NewTextureDiffers(DESKTOP, Look(theme, false, map[], l.anims), v, tex, x, y);
    OneNodeDesk(c, l, [v], x, y);
    Refuse(c, v, tex);
    OneNodeDesk(c, c.ly[0], [v], x, y);
  }
}
