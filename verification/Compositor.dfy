// The compositor object (scene_compositor.c): sessions as layers, a shared
// framebuffer, and the damage-driven frame that must agree with a full repaint.
module Compositor {
  import opened Pixels
  import opened Raster
  import opened SceneModel
  import opened RenderMap
  import opened Damage
  import opened Transitions
  import opened Diff
  import opened DiffCover
  import opened Painting
  import opened SceneLaws
  import opened Layers
  import opened Frames
  import opened Unseen

  /** The colour behind everything. */
  const DESKTOP := Pixel(255, 16, 16, 16)

  class Compositor {
    var ly: seq<Layer>         // ly[0] is the shell session
    var fb: array2<Pixel>
    var clear: Pixel
    var force: bool
    var tick: nat
    var effects: bool
    var theme: Theme
    var pending: seq<Rect>
    var damage: seq<Rect>
    var focus: nat
    ghost var painted: seq<seq<Node>>  // the nodes each layer's model was taken from

    // ---- The invariant --------------------------------------------------------

    ghost predicate Valid()
      reads this
    {
      && 0 < |ly| == |painted| && focus < |ly| && !ly[0].dead
      && |pending| <= MAX_DAMAGE && |damage| <= MAX_DAMAGE
      && Sized(ly)
      && AllInStep(ly, painted, theme, effects)
    }

    /** The shell session has shown content. */
    predicate Started()
      reads this
      requires |ly| > 0
    {
      ly[0].rendered > 0
    }

    /** Nothing offered since the last frame, and no transition, touches the pixel. */
    predicate Quiet(x: int, y: int)
      reads this
    {
      !Covers(pending, x, y) && (effects ==> OffZones(ly, x, y))
    }

    /** What a full repaint of the painted nodes would leave at a pixel. */
    ghost function PaintedPx(x: int, y: int): Pixel
      reads this
      requires |painted| == |ly|
    {
      ScenePx(clear, ViewsOf(ly, painted, theme, effects), |ly|, x, y)
    }

    /** What a full repaint of the stores as they are now would leave at a pixel. */
    function FullRepaintPx(x: int, y: int): Pixel
      reads this
    {
      ScenePx(clear, ViewsOf(ly, StoreNodes(ly), theme, effects), |ly|, x, y)
    }

    ghost predicate OnScreen(x: int, y: int)
      reads this
    {
      0 <= x < fb.Length1 && 0 <= y < fb.Length0
    }

    /** The framebuffer shows the painted scene wherever nothing is pending. */
    ghost predicate Shows()
      reads this, fb
      requires |painted| == |ly|
    {
      ShownBy(fb, clear, ly, painted, theme, effects, pending)
    }

    ghost predicate Inv()
      reads this, fb
    {
      Valid() && (Started() && !force ==> Shows())
    }

    /** scene_compositor_new: the shell session alone, nothing painted. */
    constructor (w: nat, h: nat, sv: nat, shell: Store, tables: Theme)
      requires shell.version == 0 ==> shell.nodes == []
      ensures Inv() && fresh(fb) && fb.Length1 == w && fb.Length0 == h
      ensures ly == [NewLayer(sv, shell)] && painted == [[]] && theme == tables
      ensures !force && !effects && tick == 0 && pending == [] && !Started() && clear == Pixel(255, 16, 16, 16)
      ensures |ly[0].anims| == 64 && |ly[0].model.slots| == 64 && forall s :: s in ly[0].model.slots ==> s == Free
    {
      ly, painted := [NewLayer(sv, shell)], [[]];
      clear, force, tick, effects, theme := DESKTOP, false, 0, false, tables;
      pending, damage, focus := [], [], 0;
      fb := new Pixel[h, w]((i, j) => CLEAR_WORD);
      new;
      AddedInStep([], [], theme, effects, sv, shell);
      assert [] + [NewLayer(sv, shell)] == ly && [] + [[]] == painted;
    }

    // ---- What a frame asks of the stores ---------------------------------------

    /** A frame that repaints everything: asked for, or because an app session died. */
    predicate Forced()
      reads this
    {
      force || SomeDied(ly)
    }

    /** The premises of the frame theorem, all about the state before the frame; none for a
        forced one. */
    ghost predicate FrameReady()
      reads this
      requires Valid()
    {
      !Forced() ==>
        && AllReady(ly, painted, theme, effects)
        && (!Started() ==>
              && (forall i :: 0 <= i < |ly| && !ly[i].dead ==> painted[i] == [] && Settled(ly[i].anims))
              && (ly[0].store.version == 0 ==> pending == [] && forall i :: 0 <= i < |ly| ==> !Changed(ly[i])))
    }

    /** No live layer's table is out of date. */
    ghost predicate UpToDate()
      reads this
      requires |painted| == |ly|
    {
      AllFit(Buried(ly), painted, theme, effects)
    }

    // ---- The diff loops ---------------------------------------------------------

    function Prog(i: nat): Progress
      reads this
      requires i < |ly|
    {
      Start(ly[i], damage)
    }

    /** Only layer i's model and transitions, and the damage, differ from before. */
    twostate predicate OnlyLayer(i: nat)
      reads this
      requires i < |old(ly)|
    {
      OnlyAt(old(ly), ly, i)
    }

    method Put(i: nat, p: Progress)
      requires i < |ly|
      modifies this`ly, this`damage
      ensures OnlyLayer(i) && Prog(i) == p
    {
      ly := ly[i := ly[i].(model := p.model, anims := p.fx.anims)];
      damage := p.fx.damage;
    }

    /** diff_cb */
    method DiffNode(i: nat, v: Node)
      requires i < |ly| && |ly[i].model.slots| == Pow2(ly[i].model.shift)
      modifies this`ly, this`damage
      ensures OnlyLayer(i)
      ensures Prog(i) == DiffStep(old(Prog(i)), old(ModeOf(ly[i], theme, effects)), v)
    {
      var l, sig := ly[i], theme.sig;
      var m, fx, mode := l.model, Fx(l.anims, damage), ModeOf(l, theme, effects);
      var key := KeyOf(v, sig);
      var at := MapFind(m, v.id);
      if at < 0 {
        var m' := MapInsert(m, FreshEntry(v, sig));
        if mode.Animates() && key.Shown() {
          fx := StartEnter(fx, v.id, v.rect);
        } else if VisibleFlag(v.flags) {
          fx := fx.(damage := Add(fx.damage, v.rect));
        }
        Put(i, Progress(m', fx));
        return;
      }
      var rn := m.slots[at].rn;
      var m' := m.(slots := m.slots[at := Used(Refreshed(rn, v, sig))]);
      if rn.key != key {
        fx := Retarget(fx, mode, v, key.Shown());
        fx := fx.(damage := MoveDamage(fx.damage, rn.key, key));
      }
      Put(i, Progress(m', fx));
    }

    /** map_sweep */
    method SweepMap(i: nat)
      requires i < |ly| && |ly[i].model.slots| == Pow2(ly[i].model.shift)
      modifies this`ly, this`damage
      ensures OnlyLayer(i)
      ensures Prog(i) == Sweep(old(Prog(i)), old(ModeOf(ly[i], theme, effects)), |old(ly[i].model.slots)|)
    {
      ghost var p0 := Prog(i);
      var mode := ModeOf(ly[i], theme, effects);
      var cap := |ly[i].model.slots|;
      for n := 0 to cap
        invariant OnlyLayer(i) && mode == ModeOf(ly[i], theme, effects)
        invariant Prog(i) == Sweep(p0, mode, n)
      {
        var m, fx := ly[i].model, Fx(ly[i].anims, damage);
        var s := m.slots[n];
        if s.Used? {
          if !s.rn.seen {
            if s.rn.key.Shown() {
              if mode.Animates() {
                fx := StartExit(fx, s.rn.id, s.rn.key.rect, ExitLook(theme, s.rn));
              } else {
                fx := fx.(damage := Add(fx.damage, s.rn.key.rect));
              }
            }
            m := Map(m.slots[n := Free], m.shift, if m.used > 0 then m.used - 1 else m.used);
          } else {
            m := m.(slots := m.slots[n := Used(s.rn.(seen := false))]);
          }
        }
        Put(i, Progress(m, fx));
      }
    }

    /** One step of the walk. */
    method WalkNode(i: nat, nodes: seq<Node>, k: nat, ghost p: Progress, ghost mode: Mode)
      requires i < |ly| && k < |nodes| && |p.model.slots| == Pow2(p.model.shift) && mode == ModeOf(ly[i], theme, effects)
      requires Prog(i) == Walk(p, mode, nodes, k)
      modifies this`ly, this`damage
      ensures OnlyLayer(i) && Prog(i) == Walk(p, mode, nodes, k + 1)
    {
      assert ly[i].model == Walk(p, mode, nodes, k).model;
      DiffNode(i, nodes[k]);
    }

    /** scene_store_walk with diff_cb. */
    method WalkSession(i: nat, nodes: seq<Node>, ghost p: Progress, ghost mode: Mode)
      requires i < |ly| && |p.model.slots| == Pow2(p.model.shift) && p == Prog(i) && mode == ModeOf(ly[i], theme, effects)
      modifies this`ly, this`damage
      ensures OnlyLayer(i) && Prog(i) == Walk(p, mode, nodes, |nodes|)
    {
      for k := 0 to |nodes|
        invariant OnlyLayer(i) && Prog(i) == Walk(p, mode, nodes, k)
      {
        ghost var before := ly;
        WalkNode(i, nodes, k, p, mode);
        OnlyTwice(old(ly), before, ly, i);
      }
    }

    method DiffSession(i: nat)
      requires i < |ly| && |ly[i].model.slots| == Pow2(ly[i].model.shift)
      modifies this`ly, this`damage
      ensures |ly| == |old(ly)| && (ly[i], damage) == Diffed(old(ly[i]), theme, effects, old(damage))
      ensures ly == old(ly)[i := ly[i]]
    {
      if ly[i].dead || ly[i].store.version == ly[i].rendered { return; }
      WalkSession(i, ly[i].store.nodes, Prog(i), ModeOf(ly[i], theme, effects));
      SweepMap(i);
    }

    /** anim_advance, or anim_clear_all during playback. */
    method TickSession(i: nat)
      requires i < |ly|
      modifies this`ly, this`damage
      ensures |ly| == |old(ly)| && (ly[i], damage) == Ticked(old(ly[i]), old(damage))
      ensures ly == old(ly)[i := ly[i]]
    {
      if ly[i].dead { return; }
      ghost var fx0 := Fx(ly[i].anims, damage);
      var anims := ly[i].anims;
      for n := 0 to |anims|
        invariant OnlyLayer(i) && ly[i].model == old(ly[i]).model
        invariant Fx(ly[i].anims, damage) == if ly[i].store.replaying then ClearAll(fx0, n) else Advance(fx0, n)
      {
        var a := anims[n];
        if ly[i].store.replaying {
          if !a.Idle? { Put(i, Progress(ly[i].model, Fx(ly[i].anims[n := Idle], Add(damage, a.base)))); }
        } else {
          Put(i, Progress(ly[i].model, Fx(ly[i].anims[n := Aged(a)], AgeDamage(a, damage))));
        }
      }
    }

    // ---- The frame --------------------------------------------------------------

    method MarkDeaths()
      requires |ly| > 0
      modifies this`ly, this`force
      ensures ly == Buried(old(ly)) && force == old(Forced())
    {
      for i := 1 to |ly|
        invariant |ly| == |old(ly)|
        invariant forall j :: 0 <= j < |ly| ==>
                    ly[j] == if 1 <= j < i && old(ly[j]).store.failed then old(ly[j]).(dead := true) else old(ly[j])
        invariant force == (old(force) || exists j :: 1 <= j < i && !old(ly)[j].dead && old(ly)[j].store.failed)
      {
        if !ly[i].dead && ly[i].store.failed {
          assert ly[i] == old(ly)[i];
          ly := ly[i := ly[i].(dead := true)];
          force := true;
        }
      }
    }

    function CurrentViews(): (v: seq<View>)
      reads this
      ensures |v| == |ly|
    {
      ViewsOf(ly, StoreNodes(ly), theme, effects)
    }

    /** The model and the picture now belong to the stores' versions. */
    method NoteRendered()
      modifies this`ly, this`painted
      ensures ly == Noted(old(ly)) && painted == StoreNodes(old(ly))
    {
      for i := 0 to |ly|
        invariant |ly| == |old(ly)|
        invariant forall j :: 0 <= j < |ly| ==>
                    ly[j] == if j < i then old(ly)[j].(rendered := old(ly)[j].store.version) else old(ly)[j]
      {
        ly := ly[i := ly[i].(rendered := ly[i].store.version)];
      }
      painted := StoreNodes(ly);
    }

    /** The forced branch: everything is repainted, the models are left alone. */
    method ForcedFrame()
      modifies this`ly, this`painted, this`force, this`pending, this`damage, fb
      ensures !force && pending == [] && |damage| == 1
      ensures ly == Noted(old(ly)) && painted == StoreNodes(ly)
      ensures forall x, y :: OnScreen(x, y) ==> fb[y, x] == FullRepaintPx(x, y)
    {
      force := false;
      pending := [];
      RepaintAll(fb, clear, CurrentViews());
      damage := [Rect(0, 0, fb.Length1, fb.Length0)];
      NotedSame(ly, ly, theme, effects);
      NoteRendered();
    }

    method DiffSessions()
      requires Sized(ly)
      modifies this`ly, this`damage
      ensures (ly, damage) == DiffAll(old(ly), theme, effects, old(damage), |old(ly)|)
    {
      for i := 0 to |ly|
        invariant |ly| == |old(ly)| && (ly, damage) == DiffAll(old(ly), theme, effects, old(damage), i)
      {
        assert ly[i] == old(ly)[i];
        DiffSession(i);
      }
    }

    method TickSessions()
      modifies this`ly, this`damage
      ensures (ly, damage) == TickAll(old(ly), old(damage), |old(ly)|)
    {
      for i := 0 to |ly|
        invariant |ly| == |old(ly)| && (ly, damage) == TickAll(old(ly), old(damage), i)
      {
        assert ly[i] == old(ly)[i];
        TickSession(i);
      }
    }

    /** What was offered between frames joins the damage. */
    method TakePending()
      modifies this`damage, this`pending
      ensures damage == AddAll(old(damage), old(pending), |old(pending)|) && pending == []
    {
      for p := 0 to |pending|
        invariant pending == old(pending) && damage == AddAll(old(damage), pending, p)
      {
        damage := Add(damage, pending[p]);
      }
      pending := [];
    }

    /** Diff every layer, tick every layer, and take over the pending damage. */
    method CollectDamage()
      requires Sized(ly)
      modifies this`ly, this`damage, this`pending
      ensures (ly, damage) == FrameOf(old(ly), theme, effects, old(pending)) && pending == []
    {
      damage := [];
      DiffSessions();
      if effects { TickSessions(); }
      TakePending();
    }

    /** Repaint every damaged rectangle from the current stores. */
    method RepaintDamage()
      modifies fb
      ensures forall x, y :: OnScreen(x, y) ==>
                fb[y, x] == if Covers(damage, x, y) then FullRepaintPx(x, y) else old(fb[y, x])
    {
      var views := CurrentViews();
      for d := 0 to |damage|
        invariant forall x, y :: OnScreen(x, y) ==>
                    fb[y, x] == if Covers(damage[..d], x, y) then FullRepaintPx(x, y) else old(fb[y, x])
      {
        RepaintRect(fb, clear, views, damage[d]);
        forall x, y ensures Covers(damage[..d + 1], x, y) <==> Covers(damage[..d], x, y) || damage[d].Has(x, y) {
          assert damage[..d + 1] == damage[..d] + [damage[d]];
          AppendCovers(damage[..d], damage[d]);
        }
      }
      assert damage[..|damage|] == damage;
    }

    /** Something to do: a store moved, damage was offered, or a transition runs. */
    predicate Work()
      reads this
    {
      pending != [] || (exists i :: 0 <= i < |ly| && Changed(ly[i])) || (effects && AnyActive(ly))
    }

    /** The layers once a frame with work to do has diffed and ticked them. */
    function Worked(): seq<Layer>
      reads this
      requires Sized(ly)
    {
      Noted(FrameOf(ly, theme, effects, pending).0)
    }

    method NeedsWork() returns (work: bool)
      ensures work == Work()
    {
      var anyChange, animActive := false, false;
      for i := 0 to |ly|
        invariant anyChange == exists j :: 0 <= j < i && Changed(ly[j])
        invariant animActive == (effects && exists j :: 0 <= j < i && !ly[j].dead && !Settled(ly[j].anims))
      {
        if !ly[i].dead {
          if ly[i].store.version != ly[i].rendered { anyChange := true; }
          if effects && !Settled(ly[i].anims) { animActive := true; }
        }
      }
      work := anyChange || pending != [] || animActive;
    }

    /** The shell's first content has come: the desktop background is cleared under it. */
    predicate FirstContent(ls: seq<Layer>) {
      |ls| > 0 && ls[0].store.version > 0 && ls[0].rendered == 0
    }

    /** The damage branch of a frame, whatever state it finds: covered pixels take the full
        repaint of the current stores, all others stay as they are or were just cleared. */
    method RepaintBranch()
      requires 0 < |ly| && Sized(ly)
      modifies this`ly, this`damage, this`pending, this`painted, fb
      ensures pending == [] && painted == StoreNodes(ly) && |ly| == |old(ly)|
      ensures var (ls, d) := FrameOf(old(ly), theme, effects, old(pending)); ly == Noted(ls) && damage == d
      ensures forall x, y :: OnScreen(x, y) ==>
                fb[y, x] == if Covers(damage, x, y) then FullRepaintPx(x, y) else if FirstContent(old(ly)) then clear else old(fb[y, x])
    {
      FrameAges(ly, theme, effects, pending);
      CollectDamage();
      if ly[0].store.version > 0 && ly[0].rendered == 0 { Clear(fb, clear); }
      RepaintDamage();
      NotedSame(ly, ly, theme, effects);
      NoteRendered();
    }

    /** Nothing painted yet anywhere. */
    ghost predicate Blank()
      reads this
      requires |painted| == |ly|
    {
      forall i :: 0 <= i < |ly| && !ly[i].dead ==> painted[i] == [] && Settled(ly[i].anims)
    }

    /** Every live layer's model was taken from the store as it is. */
    ghost predicate Current()
      reads this
      requires |painted| == |ly|
    {
      forall i :: 0 <= i < |ly| && !ly[i].dead ==> painted[i] == ly[i].store.nodes && ly[i].rendered == ly[i].store.version
    }

    /** The framebuffer is what a full repaint would leave, slide bands of running enters aside. */
    ghost predicate LooksRepainted()
      reads this, fb
    {
      forall x, y :: OnScreen(x, y) && (effects ==> OffTails(ly, x, y)) ==> fb[y, x] == FullRepaintPx(x, y)
    }

    lemma RepaintedShows()
      requires painted == StoreNodes(ly) && LooksRepainted()
      ensures Shows()
    {
      forall x, y | OnScreen(x, y) && Quiet(x, y) ensures fb[y, x] == PaintedPx(x, y) {
        if effects {
          forall i | 0 <= i < |ly| && !ly[i].dead ensures !InTail(ly[i].anims, x, y) {
            assert !InZone(ly[i].anims, x, y);
          }
        }
      }
      RowsIntro(fb, clear, ly, painted, theme, effects, pending, fb.Length0);
    }

    lemma ShownQuiet()
      requires |painted| == |ly| && Shows()
      ensures forall x, y :: OnScreen(x, y) && Quiet(x, y) ==> fb[y, x] == PaintedPx(x, y)
    {
      forall x, y | OnScreen(x, y) && Quiet(x, y) ensures fb[y, x] == PaintedPx(x, y) {
        RowShown(fb, clear, ly, painted, theme, effects, pending, fb.Length0, x, y);
      }
    }

    /** Where the damage leaves a pixel alone it shows the current stores: it was right before,
        or was just cleared over a scene that is still blank. */
    lemma LeftAloneRight(ls: seq<Layer>, painted: seq<seq<Node>>, was: seq<Rect>, now: seq<Layer>, d: seq<Rect>, px: Pixel,
                         x: int, y: int)
      requires 0 < |ls| == |painted| == |now|
      requires ls[0].rendered == 0 ==>
        ls[0].store.version > 0 && forall i :: 0 <= i < |ls| && !ls[i].dead ==> painted[i] == [] && Settled(ls[i].anims)
      requires ls[0].rendered > 0 && !Covers(was, x, y) && (effects ==> OffZones(ls, x, y)) ==>
               px == ScenePx(clear, ViewsOf(ls, painted, theme, effects), |ls|, x, y)
      requires DamageSuffices(ls, painted, clear, theme, effects, was, now, d)
      requires !Covers(d, x, y) && (effects ==> OffTails(now, x, y))
      ensures (if FirstContent(ls) then clear else px) == ScenePx(clear, ViewsOf(now, StoreNodes(now), theme, effects), |now|, x, y)
    {
      if ls[0].rendered == 0 { BlankScene(clear, ViewsOf(ls, painted, theme, effects), |ls|, x, y); }
    }

    /** The damage branch from a state that is ready for it: what is on screen. */
    method RepaintChanged()
      requires 0 < |ly| == |painted| && Sized(ly)
      requires AllInStep(ly, painted, theme, effects) && AllReady(ly, painted, theme, effects)
      requires if Started() then Shows() else ly[0].store.version > 0 && Blank()
      modifies this`ly, this`damage, this`pending, this`painted, fb
      ensures pending == [] && painted == StoreNodes(ly) && |ly| == |old(ly)| && LooksRepainted()
      ensures var (ls, d) := FrameOf(old(ly), theme, effects, old(pending)); ly == Noted(ls) && damage == d
    {
      ghost var ls, was := ly, pending;
      ghost var mid, d := RepaintFacts();
      if Started() { ShownQuiet(); }
      RepaintBranch();
      forall x, y | OnScreen(x, y) && (effects ==> OffTails(ly, x, y)) ensures fb[y, x] == FullRepaintPx(x, y) {
        if !Covers(d, x, y) { LeftAloneRight(ls, old(painted), was, mid, d, old(fb[y, x]), x, y); }
      }
    }

    lemma RepaintFacts() returns (mid: seq<Layer>, d: seq<Rect>)
      requires |ly| == |painted| && Sized(ly) && AllInStep(ly, painted, theme, effects) && AllReady(ly, painted, theme, effects)
      ensures (mid, d) == FrameOf(ly, theme, effects, pending) && |mid| == |ly|
      ensures DamageSuffices(ly, painted, clear, theme, effects, pending, mid, d)
      ensures ViewsOf(Noted(mid), StoreNodes(Noted(mid)), theme, effects) == ViewsOf(mid, StoreNodes(mid), theme, effects)
      ensures forall x, y :: OffTails(Noted(mid), x, y) ==> OffTails(mid, x, y)
    {
      mid, d := FrameOf(ly, theme, effects, pending).0, FrameOf(ly, theme, effects, pending).1;
      FrameSuffices(ly, painted, clear, theme, effects, pending);
      NotedSame(ly, mid, theme, effects);
    }

    method RepaintShown(ghost now: seq<Layer>, ghost d: seq<Rect>)
      requires 0 < |ly| == |painted| && Sized(ly)
      requires AllInStep(ly, painted, theme, effects) && AllReady(ly, painted, theme, effects)
      requires if Started() then Shows() else ly[0].store.version > 0 && Blank()
      requires now == Noted(FrameOf(ly, theme, effects, pending).0) && d == FrameOf(ly, theme, effects, pending).1
      modifies this`ly, this`damage, this`pending, this`painted, fb
      ensures pending == [] && painted == StoreNodes(ly) && LooksRepainted() && Shows()
      ensures ly == now && damage == d
    {
      RepaintChanged();
      RepaintedShows();
    }

    /** The same, with what it does for the models. */
    method DamageFrame()
      requires Valid() && AllReady(ly, painted, theme, effects)
      requires if Started() then Shows() else ly[0].store.version > 0 && Blank()
      modifies this`ly, this`damage, this`pending, this`painted, fb
      ensures Valid() && pending == [] && Current() && ly == old(Worked())
      ensures SameStores(old(ly), ly) && QuietlyAged(old(ly), effects, ly)
      ensures Shows() && LooksRepainted()
    {
      ghost var now, d := DamageKeeps();
      RepaintShown(now, d);
    }

    lemma DamageKeeps() returns (now: seq<Layer>, d: seq<Rect>)
      requires Valid() && AllReady(ly, painted, theme, effects)
      ensures now == Noted(FrameOf(ly, theme, effects, pending).0) && d == FrameOf(ly, theme, effects, pending).1
      ensures |d| <= MAX_DAMAGE && Sized(now) && AllInStep(now, StoreNodes(now), theme, effects)
      ensures SameStores(ly, now) && QuietlyAged(ly, effects, now)
      ensures focus < |now| && !now[0].dead && forall i :: 0 <= i < |now| ==> now[i].rendered == now[i].store.version
    {
      now, d := FrameKeeps(ly, painted, theme, effects, pending);
    }

    /** The forced branch: the picture is right from any state, and the invariant is kept if and
        only if no table is out of date. */
    method ForcedPath()
      requires Valid()
      modifies this`ly, this`painted, this`force, this`pending, this`damage, fb
      ensures Valid() <==> old(AllFit(ly, painted, theme, effects))
      ensures |painted| == |ly| && !force && pending == [] && Current()
      ensures SameStores(old(ly), ly)
      ensures Shows() && LooksRepainted()
    {
      ForcedInStep(ly, painted, theme, effects);
      NotedSame(ly, ly, theme, effects);
      ForcedFrame();
      RepaintedShows();
    }

    /** The frame that finds nothing to do. */
    method IdleFrame()
      requires Valid() && (Started() ==> Shows())
      requires pending == [] && (forall i :: 0 <= i < |ly| ==> !Changed(ly[i])) && (effects ==> !AnyActive(ly))
      modifies this`damage
      ensures Valid() && Current() && QuietlyAged(ly, effects, ly)
      ensures Started() ==> Shows() && LooksRepainted()
    {
      damage := [];
      QuietAges(ly, effects);
      IdleScene(clear, ly, painted, theme, effects);
      if Started() {
        ShownQuiet();
        SettledQuiet();
      }
    }

    lemma SettledQuiet()
      requires pending == [] && (effects ==> !AnyActive(ly))
      ensures forall x, y :: Quiet(x, y)
    {
      forall x, y, i | 0 <= i < |ly| && !ly[i].dead && effects ensures !InZone(ly[i].anims, x, y) {
        assert Settled(ly[i].anims);
      }
    }

    /** A frame over commits that no diff sees, nothing running or offered, damages nothing and
        leaves every pixel. */
    method BlindBranch()
      requires 0 < |ly| && Sized(ly) && Started() && pending == [] && AllBlind(ly, theme)
      modifies this`ly, this`damage, this`pending, this`painted, fb
      ensures damage == [] && painted == StoreNodes(ly) && SameStores(old(ly), ly)
      ensures forall x, y :: OnScreen(x, y) ==> fb[y, x] == old(fb[y, x])
    {
      BlindFrame(ly, theme, effects);
      RepaintBranch();
    }

    /** The picture was the old nodes', so it is right exactly where the old scene is the new. */
    method BlindRepaint()
      requires Valid() && Started() && pending == [] && AllBlind(ly, theme) && Shows()
      modifies this`ly, this`damage, this`pending, this`painted, fb
      ensures forall x, y :: OnScreen(x, y) ==>
                fb[y, x] == old(fb[y, x]) && (fb[y, x] == FullRepaintPx(x, y) <==> old(PaintedPx(x, y)) == FullRepaintPx(x, y))
    {
      ShownQuiet();
      BlindQuiet();
      BlindBranch();
    }

    lemma BlindQuiet()
      requires Valid() && pending == [] && AllBlind(ly, theme)
      ensures forall x, y :: Quiet(x, y)
    {
      forall x, y, i | 0 <= i < |ly| && !ly[i].dead ensures !InZone(ly[i].anims, x, y) {
        assert Blind(ly[i], theme);
      }
    }

    /** A forced frame over a moved store, then a commit that brings back what the table still
        holds: the diff sees nothing, so the forced picture stays, right exactly where it is
        also the new one. */
    method RevertAfterForce(i: nat, store: Store)
      requires 0 < |ly| && Sized(ly) && i < |ly| && ly[0].store.version > 0 && (i == 0 ==> store.version > 0)
      requires forall j :: 0 <= j < |ly| && !ly[j].dead ==> Settled(ly[j].anims)
      requires AllMet(ly[i].model, store.nodes, theme.sig)
      modifies this`ly, this`force, this`damage, this`pending, this`painted, fb
      ensures SameStores(old(ly)[i := old(ly[i]).(store := store)], ly)
      ensures forall x, y :: OnScreen(x, y) ==>
                fb[y, x] == old(FullRepaintPx(x, y))
                && (fb[y, x] == FullRepaintPx(x, y) <==> old(FullRepaintPx(x, y)) == FullRepaintPx(x, y))
    {
      NotedSame(ly, ly, theme, effects);
      ForcedFrame();
      ly := ly[i := ly[i].(store := store)];
      BlindBranch();
    }

    /** The unforced frame, from layers none of which just died. */
    method UnforcedFrame()
      requires Valid() && AllReady(ly, painted, theme, effects)
      requires if Started() then Shows()
               else Blank() && (ly[0].store.version == 0 ==> pending == [] && forall i :: 0 <= i < |ly| ==> !Changed(ly[i]))
      modifies this`ly, this`painted, this`pending, this`damage, fb
      ensures Valid() && pending == [] && Current() && (old(Work()) ==> ly == old(Worked()))
      ensures SameStores(old(ly), ly) && QuietlyAged(old(ly), effects, ly)
      ensures ly[0].store.version > 0 || Started() ==> Shows() && LooksRepainted()
    {
      var work := NeedsWork();
      if work { DamageFrame(); } else { IdleFrame(); }
    }

    /** What the rest of the frame needs once failed sessions are marked. */
    ghost predicate Marked()
      reads this, fb
      requires Valid()
    {
      !force ==>
        && AllReady(ly, painted, theme, effects)
        && if Started() then Shows()
           else Blank() && (ly[0].store.version == 0 ==> pending == [] && forall i :: 0 <= i < |ly| ==> !Changed(ly[i]))
    }

    /** The frame once failed sessions are marked. */
    method MarkedFrame()
      requires Valid() && Marked()
      modifies this`ly, this`painted, this`force, this`pending, this`damage, fb
      ensures Inv() <==> old(!force || AllFit(ly, painted, theme, effects))
      ensures |painted| == |ly| && !force && pending == [] && Current()
      ensures SameStores(old(ly), ly)
      ensures old(force) || ly[0].store.version > 0 ==> LooksRepainted()
      ensures !old(force) ==> QuietlyAged(old(ly), effects, ly) && (old(Work()) ==> ly == old(Worked()))
    {
      if force { ForcedPath(); } else { UnforcedFrame(); }
    }

    /** Mark the failed sessions of a desktop whose shell is alive. */
    method BuryFailed()
      requires Inv() && FrameReady() && !ly[0].store.failed
      modifies this`ly, this`force
      ensures Valid() && Marked()
      ensures ly == Buried(old(ly)) && force == old(Forced())
      ensures !force ==> ly == old(ly)
    {
      DeadInStep(ly, painted, theme, effects);
      MarkDeaths();
    }

    /** The frame of a desktop whose shell is alive. */
    method LiveFrame()
      requires Inv() && FrameReady() && !ly[0].store.failed
      modifies this`ly, this`painted, this`force, this`pending, this`damage, fb
      ensures Inv() <==> old(!Forced() || UpToDate())
      ensures 0 < |painted| == |ly| && !force && pending == [] && Current()
      ensures SameStores(Buried(old(ly)), ly)
      ensures old(Forced()) || ly[0].store.version > 0 ==> LooksRepainted()
      ensures !old(Forced()) ==> QuietlyAged(old(ly), effects, ly) && (old(Work()) ==> ly == old(Worked()))
    {
      BuryFailed();
      MarkedFrame();
    }

    /** scene_compositor_frame.  Whatever was damaged or not, the framebuffer ends as a full
        repaint of the current stores would leave it, except inside the slide bands of
        enters that are still running; and the invariant is lost exactly by a forced frame
        over a table that is out of date. */
    method Frame() returns (ok: bool)
      requires Inv() && FrameReady()
      modifies this`ly, this`painted, this`force, this`pending, this`damage, this`tick, fb
      ensures ok == !old(ly[0].store.failed)
      ensures Inv() <==> (ok ==> old(!Forced() || UpToDate()))
      ensures 0 < |painted| == |ly| && (ok ==> tick == old(tick) + 1 && !force && pending == [] && Current())
      ensures ok ==> SameStores(Buried(old(ly)), ly)
      ensures !ok ==> ly == old(ly)
      ensures ok && (old(Forced()) || ly[0].store.version > 0) ==> LooksRepainted()
      ensures ok && !old(Forced()) ==> QuietlyAged(old(ly), effects, ly) && (old(Work()) ==> ly == old(Worked()))
    {
      if ly[0].store.failed { return false; }
      tick := tick + 1;
      LiveFrame();
      ok := true;
    }

    /** The same steps from any state whatever.  A forced frame is a full repaint even when the
        tables are out of date, and one that finds no work leaves every pixel; any other takes
        a full repaint of the current stores exactly where its damage lies and leaves, or clears
        under the shell's first content, all the rest. */
    method AnyFrame() returns (ok: bool)
      requires 0 < |ly| && Sized(ly)
      modifies this`ly, this`painted, this`force, this`pending, this`damage, this`tick, fb
      ensures ok == !old(ly[0].store.failed) && (!ok ==> ly == old(ly))
      ensures forall x, y :: OnScreen(x, y) ==>
                fb[y, x] == if !ok then old(fb[y, x])
                            else if old(Forced()) then FullRepaintPx(x, y)
                            else if !old(Work()) then old(fb[y, x])
                            else if Covers(damage, x, y) then FullRepaintPx(x, y)
                            else if FirstContent(old(ly)) then clear else old(fb[y, x])
      ensures ok ==> pending == [] && !force && if old(Forced()) then ly == Noted(Buried(old(ly)))
                     else if old(Work()) then ly == old(Worked()) && damage == old(FrameOf(ly, theme, effects, pending).1)
                     else ly == old(ly) && painted == old(painted) && damage == []
    {
      if ly[0].store.failed { return false; }
      tick := tick + 1;
      MarkDeaths();
      if force {
        ForcedFrame();
        return true;
      }
      assert ly == old(ly);
      var work := NeedsWork();
      if work { RepaintBranch(); } else { damage := []; }
      return true;
    }

    // ---- Offers between frames --------------------------------------------------

    /** The model scan of set_style and register_tex_at. */
    method OfferSession(i: nat, what: Concern)
      requires i < |ly| && |pending| <= MAX_DAMAGE
      modifies this`pending
      ensures |pending| <= MAX_DAMAGE && Offered(ly[i], i, what, pending)
      ensures forall x, y :: Covers(old(pending), x, y) ==> Covers(pending, x, y)
    {
      var slots := ly[i].model.slots;
      for k := 0 to |slots|
        invariant |pending| <= MAX_DAMAGE
        invariant forall x, y :: Covers(old(pending), x, y) ==> Covers(pending, x, y)
        invariant forall j, x, y :: 0 <= j < k && slots[j].Used? && what.Of(i, slots[j].rn.key)
                                    && AtPixel(slots[j].rn.key, x, y) ==>
                                      Covers(pending, x, y)
      {
        if slots[k].Used? && what.Of(i, slots[k].rn.key) && slots[k].rn.key.Shown() {
          pending := Add(pending, slots[k].rn.key.rect);
        }
      }
      forall rn, x, y | rn in Bag(slots) && what.Of(i, rn.key) && AtPixel(rn.key, x, y) ensures Covers(pending, x, y) {
        BagHas(slots, rn);
        var j :| 0 <= j < |slots| && slots[j] == Used(rn);
      }
    }

    method OfferSessions(what: Concern)
      requires |pending| <= MAX_DAMAGE
      modifies this`pending
      ensures |pending| <= MAX_DAMAGE && AllOffered(ly, what, pending)
      ensures forall x, y :: Covers(old(pending), x, y) ==> Covers(pending, x, y)
    {
      for i := 0 to |ly|
        invariant |pending| <= MAX_DAMAGE
        invariant forall x, y :: Covers(old(pending), x, y) ==> Covers(pending, x, y)
        invariant forall j :: 0 <= j < i ==> Offered(ly[j], j, what, pending)
      {
        ghost var was := pending;
        OfferSession(i, what);
        forall j | 0 <= j < i ensures Offered(ly[j], j, what, pending) {
          OfferedKept(ly[j], j, what, was, pending);
        }
      }
    }

    /** scene_compositor_set_style: restyle, and offer what shows the style. */
    method SetStyle(ref: nat, st: Style) returns (ok: bool)
      requires Inv()
      modifies this`theme, this`pending
      ensures Inv() && ok == (1 <= ref < |old(theme).styles|)
      ensures theme == if ok then old(theme).(styles := old(theme).styles[ref := st]) else old(theme)
    {
      if ref == 0 || ref >= |theme.styles| { return false; }
      if theme.styles[ref] == st {
        assert theme.styles[ref := st] == theme.styles;
        return true;
      }
      TakeStyle(ref, st);
      return true;
    }

    /** The new style, and an offer for whatever shows it. */
    method TakeStyle(ref: nat, st: Style)
      requires Inv() && ref < |theme.styles|
      modifies this`theme, this`pending
      ensures Inv() && theme == old(theme).(styles := old(theme).styles[ref := st])
    {
      ghost var theme0 := theme;
      theme := theme.(styles := theme.styles[ref := st]);
      OfferSessions(ByStyle(ref));
      Restyled(theme0, ref, st, old(pending));
    }

    lemma Restyled(was: Theme, ref: nat, st: Style, before: seq<Rect>)
      requires |ly| == |painted| && AllInStep(ly, painted, was, effects) && ref < |was.styles|
      requires theme == was.(styles := was.styles[ref := st])
      requires AllOffered(ly, ByStyle(ref), pending) && forall x, y :: Covers(before, x, y) ==> Covers(pending, x, y)
      ensures AllInStep(ly, painted, theme, effects)
      ensures ShownBy(fb, clear, ly, painted, was, effects, before) ==> Shows()
    {
      RethemeInStep(ly, ly, painted, was, theme, effects);
      if ShownBy(fb, clear, ly, painted, was, effects, before) {
        RestyledShown(fb, clear, ly, painted, was, ref, st, effects, before, pending);
      }
    }

    // ---- Textures ---------------------------------------------------------------

    /** No painted entry of layer i shows this texture. */
    ghost predicate Unshown(i: nat, ref: nat)
      reads this
      requires i < |ly|
    {
      forall rn :: rn in Bag(ly[i].model.slots) && rn.key.tex == ref ==> !rn.key.Shown()
    }

    /** register_tex_at: new pixels under a reference, and an offer for whatever shows it.
        `known` says that the layer's store has the reference or takes it.  If it refuses, which
        it does when its memory runs out, the pixels are there but nothing was offered: the
        invariant is kept if nothing painted shows the reference, and a quiet pixel stays right
        if and only if the new pixels make no difference to it. */
    method RegisterTexture(i: nat, ref: nat, tex: Texture, known: bool) returns (ok: bool)
      requires Inv() && i < |ly|
      modifies this`ly, this`pending
      ensures Valid() && (known || old(Unshown(i, ref)) ==> Inv())
      ensures ok == (known && tex.w > 0 && tex.h > 0 && !tex.fmt.OtherFormat?)
      ensures ly == if tex.w <= 0 || tex.h <= 0 || tex.fmt.OtherFormat? then old(ly)
                    else old(ly)[i := old(ly[i]).(texs := old(ly[i]).texs[ref := tex])]
      ensures !known ==> pending == old(pending)
      ensures !known && old(Started() && !force) ==>
        forall x, y :: OnScreen(x, y) && Quiet(x, y) ==> (fb[y, x] == PaintedPx(x, y) <==> old(PaintedPx(x, y)) == PaintedPx(x, y))
    {
      if tex.w <= 0 || tex.h <= 0 || tex.fmt.OtherFormat? {
        if Started() && !force { ShownQuiet(); }
        return false;
      }
      if known { TakeTexture(i, ref, tex); } else { RefuseTexture(i, ref, tex); }
      return known;
    }

    /** The store has the reference or takes it: what shows it is offered. */
    method TakeTexture(i: nat, ref: nat, tex: Texture)
      requires Inv() && i < |ly|
      modifies this`ly, this`pending
      ensures Inv() && ly == old(ly)[i := old(ly[i]).(texs := old(ly[i]).texs[ref := tex])]
    {
      ghost var ls := ly;
      ly := ly[i := ly[i].(texs := ly[i].texs[ref := tex])];
      OfferSession(i, ByTexture(i, ref));
      Retextured(ls, i, ref, old(pending));
    }

    /** The store refuses: the pixels are replaced and nothing is offered. */
    method RefuseTexture(i: nat, ref: nat, tex: Texture)
      requires Inv() && i < |ly|
      modifies this`ly
      ensures Valid() && (old(Unshown(i, ref)) ==> Inv())
      ensures ly == old(ly)[i := old(ly[i]).(texs := old(ly[i]).texs[ref := tex])]
      ensures old(Started() && !force) ==>
        forall x, y :: OnScreen(x, y) && Quiet(x, y) ==> (fb[y, x] == PaintedPx(x, y) <==> old(PaintedPx(x, y)) == PaintedPx(x, y))
    {
      ghost var ls := ly;
      if Started() && !force { ShownQuiet(); }
      ly := ly[i := ly[i].(texs := ly[i].texs[ref := tex])];
      ReplacedInStep(ls, painted, theme, effects, i, ly[i]);
      if old(Unshown(i, ref)) {
        UnshownOffered(ly[i], i, ref, pending);
        Retextured(ls, i, ref, pending);
      }
      SameZones(ls, ly);
    }

    lemma UnshownOffered(l: Layer, i: nat, ref: nat, list: seq<Rect>)
      requires forall rn :: rn in Bag(l.model.slots) && rn.key.tex == ref ==> !rn.key.Shown()
      ensures Offered(l, i, ByTexture(i, ref), list)
    {
    }

    lemma SameZones(a: seq<Layer>, b: seq<Layer>)
      requires |a| == |b| && forall i :: 0 <= i < |a| ==> a[i].dead == b[i].dead && a[i].anims == b[i].anims
      ensures forall x, y :: OffZones(a, x, y) <==> OffZones(b, x, y)
    {
      forall x, y ensures OffZones(a, x, y) <==> OffZones(b, x, y) {
        if OffZones(a, x, y) {
          forall i | 0 <= i < |b| && !b[i].dead ensures !InZone(b[i].anims, x, y) { assert !a[i].dead; }
        } else {
          var i :| 0 <= i < |a| && !a[i].dead && InZone(a[i].anims, x, y);
          assert !b[i].dead;
        }
      }
    }

    /** release_tex_at */
    method ReleaseTexture(i: nat, ref: nat) returns (ok: bool)
      requires Inv() && i < |ly|
      modifies this`ly, this`pending
      ensures Inv() && ok == (ref in old(ly[i]).texs)
      ensures ly == old(ly)[i := old(ly[i]).(texs := old(ly[i]).texs - {ref})]
    {
      if ref !in ly[i].texs {
        assert ly[i].texs - {ref} == ly[i].texs;
        assert ly[i := ly[i]] == ly;
        return false;
      }
      ghost var ls := ly;
      OfferSession(i, ByTexture(i, ref));
      ly := ly[i := ly[i].(texs := ly[i].texs - {ref})];
      Retextured(ls, i, ref, old(pending));
      return true;
    }

    lemma Retextured(ls: seq<Layer>, i: nat, ref: nat, before: seq<Rect>)
      requires i < |ls| == |ly| == |painted| && AllInStep(ls, painted, theme, effects) && Sized(ls)
      requires ly == ls[i := ls[i].(texs := ly[i].texs)]
      requires forall r :: r != ref ==> (r in ly[i].texs <==> r in ls[i].texs) && (r in ly[i].texs ==> ly[i].texs[r] == ls[i].texs[r])
      requires Offered(ly[i], i, ByTexture(i, ref), pending)
      requires forall x, y :: Covers(before, x, y) ==> Covers(pending, x, y)
      ensures AllInStep(ly, painted, theme, effects) && Sized(ly)
      ensures ShownBy(fb, clear, ls, painted, theme, effects, before) ==> Shows()
    {
      ReplacedInStep(ls, painted, theme, effects, i, ly[i]);
      assert AllOffered(ls, ByTexture(i, ref), pending);
      if ShownBy(fb, clear, ls, painted, theme, effects, before) {
        RetexturedShown(fb, clear, ls, painted, theme, i, ly[i].texs, ref, effects, before, pending);
      }
    }

    // ---- Stores and sessions ----------------------------------------------------

    /** Layer i's store moves on.  The invariant is kept unless a live layer shows other nodes
        under the number last painted: a client op that takes the number of a host mutation. */
    method Commit(i: nat, store: Store)
      requires Inv() && i < |ly|
      modifies this`ly
      ensures ly == old(ly)[i := old(ly[i]).(store := store)]
      ensures Inv() <==> ly[i].dead || store.version != ly[i].rendered || store.nodes == painted[i]
    {
      ghost var ls := ly;
      ly := ly[i := ly[i].(store := store)];
      Committed(ls, i, store);
    }

    lemma Committed(ls: seq<Layer>, i: nat, store: Store)
      requires i < |ls| == |painted| && AllInStep(ls, painted, theme, effects) && Sized(ls) && 0 < |ls| && focus < |ls| && !ls[0].dead
      requires |pending| <= MAX_DAMAGE && |damage| <= MAX_DAMAGE
      requires ls[0].rendered > 0 && !force ==> ShownBy(fb, clear, ls, painted, theme, effects, pending)
      requires ly == ls[i := ls[i].(store := store)]
      ensures Inv() <==> ly[i].dead || store.version != ly[i].rendered || store.nodes == painted[i]
    {
      CommittedInStep(ls, painted, theme, effects, i, store);
      if ls[0].rendered > 0 && !force { RestoredShown(fb, clear, ls, painted, theme, effects, pending, i, store); }
    }

    /** A commit under the number last painted, the steps of a frame, and the next commit: the
        frame finds nothing to do, and the next number brings the invariant back. */
    method Coalesced(i: nat, first: Store, second: Store) returns (work: bool)
      requires Inv() && i < |ly| && !ly[i].dead && first.version == ly[i].rendered != second.version
      requires !Forced() && !Work() && !first.failed
      modifies this`ly, this`force, this`damage, this`tick
      ensures !work && Inv() && ly == old(ly)[i := old(ly[i]).(store := second)]
    {
      ghost var ls := ly;
      ly := ly[i := ly[i].(store := first)];
      ResumesIdle(ls, i, first);
      tick := tick + 1;
      MarkDeaths();
      work := NeedsWork();
      damage := [];
      ly := ly[i := ly[i].(store := second)];
      Committed(ls, i, second);
    }

    lemma ResumesIdle(ls: seq<Layer>, i: nat, store: Store)
      requires i < |ls| && ly == ls[i := ls[i].(store := store)] && store.version == ls[i].rendered && !store.failed
      requires !SomeDied(ls) && pending == [] && (forall j :: 0 <= j < |ls| ==> !Changed(ls[j])) && (effects ==> !AnyActive(ls))
      ensures !SomeDied(ly) && !Work() && Buried(ly) == ly
    {
      forall j | 1 <= j < |ly| && !ly[j].dead ensures !ly[j].store.failed { assert !ls[j].dead; }
      NoneDied(ly);
    }

    /** scene_compositor_add_session */
    method AddSession(sv: nat, store: Store) returns (layer: nat)
      requires Inv() && (store.version == 0 ==> store.nodes == [])
      modifies this`ly, this`painted
      ensures Inv() && layer == |old(ly)| && ly == old(ly) + [NewLayer(sv, store)]
      ensures painted == old(painted) + [[]]
    {
      ghost var ls, ps := ly, painted;
      ly, painted := ly + [NewLayer(sv, store)], painted + [[]];
      Added(ls, ps, sv, store);
      layer := |ly| - 1;
    }

    lemma Added(ls: seq<Layer>, ps: seq<seq<Node>>, sv: nat, store: Store)
      requires 0 < |ls| == |ps| && AllInStep(ls, ps, theme, effects) && Sized(ls) && (store.version == 0 ==> store.nodes == [])
      requires focus < |ls| && !ls[0].dead && |pending| <= MAX_DAMAGE && |damage| <= MAX_DAMAGE
      requires ls[0].rendered > 0 && !force ==> ShownBy(fb, clear, ls, ps, theme, effects, pending)
      requires ly == ls + [NewLayer(sv, store)] && painted == ps + [[]]
      ensures Inv()
    {
      AddedInStep(ls, ps, theme, effects, sv, store);
      if ls[0].rendered > 0 && !force { AddedShown(fb, clear, ls, ps, theme, effects, pending, sv, store); }
    }

    /** scene_compositor_remove_session: the layers above move down, the focus falls back to
        the shell when it is out of range, and the next frame repaints everything. */
    method RemoveSession(sv: nat) returns (layer: int)
      requires Inv()
      modifies this`ly, this`painted, this`focus, this`force
      ensures Inv()
      ensures layer < 0 ==> ly == old(ly) && painted == old(painted) && focus == old(focus) && force == old(force)
      ensures layer < 0 <==> forall i :: 1 <= i < |old(ly)| ==> old(ly)[i].sv != sv
      ensures layer >= 0 ==>
        && 1 <= layer < |old(ly)| && old(ly)[layer].sv == sv && (forall i :: 1 <= i < layer ==> old(ly)[i].sv != sv)
        && ly == old(ly)[..layer] + old(ly)[layer + 1..] && painted == old(painted)[..layer] + old(painted)[layer + 1..]
        && focus == (if old(focus) < |ly| then old(focus) else 0) && force
    {
      var i := 1;
      while i < |ly| && ly[i].sv != sv
        invariant 1 <= i <= |ly| && forall j :: 1 <= j < i ==> ly[j].sv != sv
      {
        i := i + 1;
      }
      if i == |ly| { return -1; }
      RemovedInStep(ly, painted, theme, effects, i);
      ly, painted := DropAt(ly, i), DropAt(painted, i);
      if focus >= |ly| { focus := 0; }
      force := true;
      return i;
    }

    // ---- Repaint requests, effects ----------------------------------------------

    /** scene_compositor_force_repaint */
    method ForceRepaint()
      requires Valid()
      modifies this`force
      ensures Inv() && force
    {
      force := true;
    }

    /** scene_compositor_resize */
    method Resize(w: nat, h: nat)
      requires Valid() && (Inv() || w != fb.Length1 || h != fb.Length0)
      modifies this`fb, this`force
      ensures Inv() && fb.Length1 == w && fb.Length0 == h
      ensures if w == old(fb.Length1) && h == old(fb.Length0) then fb == old(fb) && force == old(force) else fresh(fb) && force
    {
      if fb.Length1 == w && fb.Length0 == h { return; }
      fb := new Pixel[h, w]((i, j) => CLEAR_WORD);
      force := true;
    }

    /** scene_compositor_set_focus_layer */
    method SetFocus(layer: int) returns (ok: bool)
      requires Inv()
      modifies this`focus
      ensures Inv() && ok == (0 <= layer < |ly|) && focus == if ok then layer else old(focus)
    {
      if layer < 0 || layer >= |ly| { return false; }
      focus := layer;
      return true;
    }

    /** scene_compositor_set_clear */
    method SetClear(color: Pixel)
      requires Inv()
      modifies this`clear, this`force
      ensures Inv() && clear == color && force == (old(force) || color != old(clear))
    {
      if clear == color { return; }
      clear := color;
      force := true;
    }

    /** scene_compositor_set_effects.  Turning effects off while something runs records the
        footprints as damage, which the next frame discards: the picture is then left to the
        next change.  With nothing running the picture stands either way. */
    method SetEffects(on: bool)
      requires Inv()
      modifies this`ly, this`damage, this`effects
      ensures Valid() && effects == on && |ly| == |old(ly)|
      ensures forall i :: 0 <= i < |ly| ==> ly[i] == old(ly)[i].(anims := ly[i].anims)
      ensures old(effects) && !on ==> forall i :: 0 <= i < |ly| ==> Settled(ly[i].anims)
      ensures !old(effects) || on ==> ly == old(ly)
      ensures !AnyActive(old(ly)) ==> Inv()
    {
      ghost var ls := ly;
      if effects && !on {
        StillSessions();
        StilledInStep(ls, ly, painted, theme);
        StilledQuiet(ls, ly);
      } else if !effects {
        EffectsOnInStep(ly, painted, theme);
      }
      if !AnyActive(ls) && Started() && !force {
        SwitchedShown(fb, clear, ls, ly, painted, theme, effects, on, pending);
      }
      effects := on;
    }

    method StillSessions()
      requires |damage| <= MAX_DAMAGE
      modifies this`ly, this`damage
      ensures |ly| == |old(ly)| && |damage| <= MAX_DAMAGE
      ensures forall i :: 0 <= i < |ly| ==> ly[i] == Stilled(old(ly)[i])
    {
      for i := 0 to |ly|
        invariant |ly| == |old(ly)| && |damage| <= MAX_DAMAGE
        invariant forall j :: 0 <= j < i ==> ly[j] == Stilled(old(ly)[j])
        invariant forall j :: i <= j < |ly| ==> ly[j] == old(ly)[j]
      {
        ghost var before := ly;
        StillSession(i);
        assert forall j :: 0 <= j < i ==> before[j] == Stilled(old(ly)[j]);
      }
    }

    /** anim_clear_all */
    method StillSession(i: nat)
      requires i < |ly| && |damage| <= MAX_DAMAGE
      modifies this`ly, this`damage
      ensures ly == old(ly)[i := Stilled(old(ly[i]))] && |damage| <= MAX_DAMAGE
    {
      var anims := ly[i].anims;
      for n := 0 to |anims|
        invariant |ly| == |old(ly)| && ly == old(ly)[i := old(ly[i]).(anims := ly[i].anims)]
        invariant |ly[i].anims| == |anims| && |damage| <= MAX_DAMAGE
        invariant forall k :: 0 <= k < |anims| ==> ly[i].anims[k] == if k < n then Idle else anims[k]
      {
        if !anims[n].Idle? {
          ly := ly[i := ly[i].(anims := ly[i].anims[n := Idle])];
          damage := Add(damage, anims[n].base);
        }
      }
      assert ly[i].anims == Stilled(old(ly[i])).anims;
    }

    /** Turning effects off and the frame after it, the stores at rest: SetEffects, then the
        steps the frame takes.  It finds nothing to do. */
    method EffectsOffIdle() returns (work: bool)
      requires Inv() && effects && pending == [] && !Forced() && !ly[0].store.failed
      requires forall i :: 0 <= i < |ly| ==> !Changed(ly[i])
      modifies this`ly, this`force, this`damage, this`effects, this`tick
      ensures !work && !Work() && !effects && !force && damage == [] && SameStores(old(ly), ly)
    {
      ghost var ls := ly;
      SetEffects(false);
      StillRests(ls, ly);
      DeadInStep(ly, painted, theme, effects);
      tick := tick + 1;
      MarkDeaths();
      work := NeedsWork();
      damage := [];
    }

    /** So no pixel changes; and where no enter was sliding, a pixel is right if and only if what
        ran there made no difference to it. */
    method EffectsOffFrame() returns (work: bool)
      requires Inv() && effects && pending == [] && !Forced() && !ly[0].store.failed && LooksRepainted()
      requires forall i :: 0 <= i < |ly| ==> !Changed(ly[i])
      modifies this`ly, this`force, this`damage, this`effects, this`tick
      ensures !work && !Work() && !effects && !force && SameStores(old(ly), ly)
      ensures forall x, y :: OnScreen(x, y) && OffTails(old(ly), x, y) ==>
                (fb[y, x] == FullRepaintPx(x, y) <==> old(FullRepaintPx(x, y)) == FullRepaintPx(x, y))
      ensures (forall x, y :: OnScreen(x, y) ==> OffTails(old(ly), x, y)) ==>
                (LooksRepainted() <==> forall x, y :: OnScreen(x, y) ==> old(FullRepaintPx(x, y)) == FullRepaintPx(x, y))
    {
      work := EffectsOffIdle();
    }

    lemma StillRests(a: seq<Layer>, b: seq<Layer>)
      requires |a| == |b| && forall i :: 0 <= i < |a| ==> b[i] == a[i].(anims := b[i].anims)
      requires forall i :: 0 <= i < |a| ==> !Changed(a[i])
      ensures SameStores(a, b) && (SomeDied(a) <==> SomeDied(b)) && forall i :: 0 <= i < |b| ==> !Changed(b[i])
    {
      SameDeaths(a, b);
    }

    lemma SameDeaths(a: seq<Layer>, b: seq<Layer>)
      requires |a| == |b| && forall i :: 0 <= i < |a| ==> a[i].dead == b[i].dead && a[i].store == b[i].store
      ensures SomeDied(a) <==> SomeDied(b)
    {
      if SomeDied(a) {
        var i :| 1 <= i < |a| && !a[i].dead && a[i].store.failed;
        assert !b[i].dead && b[i].store.failed;
      }
      if SomeDied(b) {
        var i :| 1 <= i < |b| && !b[i].dead && b[i].store.failed;
        assert !a[i].dead && a[i].store.failed;
      }
    }

    // ---- Runs -------------------------------------------------------------------

    /** No live layer is playing back. */
    predicate Live()
      reads this
    {
      forall i :: 0 <= i < |ly| && !ly[i].dead ==> !ly[i].store.replaying
    }

    /** After a frame with the stores at rest, the next frame is ready too. */
    lemma QuietReady()
      requires Valid() && Current() && Live() && ly[0].store.version > 0 && !Forced()
      ensures FrameReady() && Started() && forall i :: 0 <= i < |ly| ==> !Changed(ly[i])
    {
      forall i | 0 <= i < |ly| ensures Frames.Holds(Turn, ly[i], painted[i], theme, effects) {
        assert !ly[i].dead ==> painted[i] == ly[i].store.nodes && !ly[i].store.replaying;
      }
      EachIntro(Turn, ly, painted, theme, effects, |ly|);
    }

    /** The stores are at rest, alive and past their first content. */
    predicate Calm()
      reads this
      requires |ly| > 0
    {
      Live() && ly[0].store.version > 0 && !ly[0].store.failed && !Forced()
    }

    /** A frame with the stores at rest: everything that runs gets one tick older. */
    method QuietFrame(ghost n: nat)
      requires Inv() && Current() && Calm() && effects && OlderThan(ly, n)
      modifies this`ly, this`painted, this`force, this`pending, this`damage, this`tick, fb
      ensures Inv() && Current() && Calm() && SameStores(old(ly), ly) && OlderThan(ly, n + 1)
      ensures LooksRepainted()
    {
      QuietReady();
      DeadInStep(ly, painted, theme, effects);
      var _ := Frame();
      QuietTick(old(ly), ly, n);
      SameStoresQuiet(old(ly));
    }

    lemma SameStoresQuiet(ls: seq<Layer>)
      requires SameStores(ls, ly) && |ly| > 0
      ensures ls != [] && (ls[0].store.failed <==> ly[0].store.failed) && ls[0].store.version == ly[0].store.version
      ensures SomeDied(ls) <==> SomeDied(ly)
      ensures (forall i :: 0 <= i < |ls| && !ls[i].dead ==> !ls[i].store.replaying) <==> Live()
    {
      if SomeDied(ls) {
        var i :| 1 <= i < |ls| && !ls[i].dead && ls[i].store.failed;
        assert !ly[i].dead && ly[i].store.failed;
      }
      if SomeDied(ly) {
        var i :| 1 <= i < |ly| && !ly[i].dead && ly[i].store.failed;
        assert !ls[i].dead && ls[i].store.failed;
      }
      forall i | 0 <= i < |ls| ensures ls[i].dead == ly[i].dead && ls[i].store == ly[i].store {}
    }

    /** Seven quiet frames after one that started things. */
    method QuietFrames()
      requires Inv() && Current() && Calm() && effects && OlderThan(ly, 1) && LooksRepainted()
      modifies this`ly, this`painted, this`force, this`pending, this`damage, this`tick, fb
      ensures Inv() && SameStores(old(ly), ly) && OlderThan(ly, TICKS) && LooksRepainted()
    {
      ghost var ls := ly;
      for n := 1 to TICKS
        invariant Inv() && Current() && Calm() && SameStores(ls, ly) && OlderThan(ly, n) && LooksRepainted()
      {
        ghost var before := ly;
        QuietFrame(n);
        SameTwice(ls, before, ly);
      }
    }

    /** One batch of changes and seven quiet frames, effects on: every transition is over by
        its eighth tick, and the framebuffer is what a full repaint without effects leaves,
        slide bands and phantoms erased. */
    method Settle()
      requires Inv() && FrameReady() && effects && Calm()
      modifies this`ly, this`painted, this`force, this`pending, this`damage, this`tick, fb
      ensures Inv() && SameStores(old(ly), ly) && !AnyActive(ly)
      ensures forall x, y :: OnScreen(x, y) ==>
                fb[y, x] == ScenePx(clear, ViewsOf(ly, StoreNodes(ly), theme, false), |ly|, x, y)
    {
      ghost var ls := ly;
      DeadInStep(ly, painted, theme, effects);
      var _ := Frame();
      SameStoresQuiet(ls);
      ghost var mid := ly;
      QuietFrames();
      SameTwice(ls, mid, ly);
      OldSettled(ly, painted, theme, effects);
      SettledLooks();
    }

    lemma SettledLooks()
      requires !AnyActive(ly) && LooksRepainted()
      ensures forall x, y :: OnScreen(x, y) ==>
                fb[y, x] == ScenePx(clear, ViewsOf(ly, StoreNodes(ly), theme, false), |ly|, x, y)
    {
      forall x, y | OnScreen(x, y)
        ensures fb[y, x] == ScenePx(clear, ViewsOf(ly, StoreNodes(ly), theme, false), |ly|, x, y)
      {
        forall i | 0 <= i < |ly| && !ly[i].dead ensures !InTail(ly[i].anims, x, y) {
          assert Settled(ly[i].anims);
        }
        SettledScene(clear, ly, ly, StoreNodes(ly), theme, effects, false, x, y);
      }
    }
  }
}
