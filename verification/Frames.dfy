// A frame over all layers: every layer's diff in turn, then every layer's tick.
module Frames {
  import opened Pixels
  import opened Raster
  import opened SceneModel
  import opened RenderMap
  import opened Damage
  import opened Transitions
  import opened Diff
  import opened DiffCover
  import opened Painting
  import opened SceneLaws
  import opened Layers

  predicate Sized(ls: seq<Layer>) {
    forall i :: 0 <= i < |ls| ==> |ls[i].model.slots| == Pow2(ls[i].model.shift)
  }

  /** The diffs of the first n layers; damage accumulates. */
  function DiffAll(ls: seq<Layer>, theme: Theme, effects: bool, damage: seq<Rect>, n: nat): (r: (seq<Layer>, seq<Rect>))
    requires n <= |ls| && Sized(ls)
    ensures |r.0| == |ls| && forall i :: n <= i < |ls| ==> r.0[i] == ls[i]
  {
    if n == 0 then (ls, damage)
    else
      var (ls', d) := DiffAll(ls, theme, effects, damage, n - 1);
      var (l, d') := Diffed(ls[n - 1], theme, effects, d);
      (ls'[n - 1 := l], d')
  }

  /** The ticks of the first n layers. */
  function TickAll(ls: seq<Layer>, damage: seq<Rect>, n: nat): (r: (seq<Layer>, seq<Rect>))
    requires n <= |ls|
    ensures |r.0| == |ls| && forall i :: n <= i < |ls| ==> r.0[i] == ls[i]
  {
    if n == 0 then (ls, damage)
    else
      var (ls', d) := TickAll(ls, damage, n - 1);
      var (l, d') := Ticked(ls[n - 1], d);
      (ls'[n - 1 := l], d')
  }

  lemma DiffNextGrows(ls: seq<Layer>, theme: Theme, effects: bool, damage: seq<Rect>, n: nat, x: int, y: int)
    requires n < |ls| && Sized(ls)
    ensures Covers(DiffAll(ls, theme, effects, damage, n).1, x, y) ==> Covers(DiffAll(ls, theme, effects, damage, n + 1).1, x, y)
    ensures |DiffAll(ls, theme, effects, damage, n).1| <= MAX_DAMAGE ==> |DiffAll(ls, theme, effects, damage, n + 1).1| <= MAX_DAMAGE
  {
    DiffedGrows(ls[n], theme, effects, DiffAll(ls, theme, effects, damage, n).1, x, y);
  }

  lemma {:induction false} DiffAllGrows(ls: seq<Layer>, theme: Theme, effects: bool, damage: seq<Rect>, m: nat, n: nat,
                                        x: int, y: int)
    requires m <= n <= |ls| && Sized(ls)
    ensures Covers(DiffAll(ls, theme, effects, damage, m).1, x, y) ==>
              Covers(DiffAll(ls, theme, effects, damage, n).1, x, y)
    ensures |DiffAll(ls, theme, effects, damage, m).1| <= MAX_DAMAGE ==>
              |DiffAll(ls, theme, effects, damage, n).1| <= MAX_DAMAGE
    decreases n
  {
    if m < n {
      DiffAllGrows(ls, theme, effects, damage, m, n - 1, x, y);
      DiffNextGrows(ls, theme, effects, damage, n - 1, x, y);
    }
  }

  lemma {:induction false} TickAllGrows(ls: seq<Layer>, damage: seq<Rect>, m: nat, n: nat, x: int, y: int)
    requires m <= n <= |ls|
    ensures Covers(TickAll(ls, damage, m).1, x, y) ==> Covers(TickAll(ls, damage, n).1, x, y)
    ensures |TickAll(ls, damage, m).1| <= MAX_DAMAGE ==> |TickAll(ls, damage, n).1| <= MAX_DAMAGE
    decreases n
  {
    if m < n {
      TickAllGrows(ls, damage, m, n - 1, x, y);
      TickedGrows(ls[n - 1], TickAll(ls, damage, n - 1).1, x, y);
    }
  }

  lemma {:induction false} DiffAllAt(ls: seq<Layer>, theme: Theme, effects: bool, damage: seq<Rect>, n: nat, i: nat)
    requires i < n <= |ls| && Sized(ls)
    ensures DiffAll(ls, theme, effects, damage, n).0[i]
         == Diffed(ls[i], theme, effects, DiffAll(ls, theme, effects, damage, i).1).0
  {
    if i < n - 1 { DiffAllAt(ls, theme, effects, damage, n - 1, i); }
  }

  lemma {:induction false} TickAllAt(ls: seq<Layer>, damage: seq<Rect>, n: nat, i: nat)
    requires i < n <= |ls|
    ensures TickAll(ls, damage, n).0[i] == Ticked(ls[i], TickAll(ls, damage, i).1).0
  {
    if i < n - 1 { TickAllAt(ls, damage, n - 1, i); }
  }

  /** Diffs, ticks when effects are on, then the damage offered between frames. */
  function FrameOf(ls: seq<Layer>, theme: Theme, effects: bool, pending: seq<Rect>): (seq<Layer>, seq<Rect>)
    requires Sized(ls)
  {
    var (ls1, d1) := DiffAll(ls, theme, effects, [], |ls|);
    var (ls2, d2) := if effects then TickAll(ls1, d1, |ls1|) else (ls1, d1);
    (ls2, AddAll(d2, pending, |pending|))
  }

  /** Layer i of a frame takes its turn: which damage it starts from, and ticks with. */
  lemma FrameAt(ls: seq<Layer>, theme: Theme, effects: bool, pending: seq<Rect>, i: nat, x: int, y: int)
    returns (damage: seq<Rect>, mid: seq<Rect>)
    requires Sized(ls) && i < |ls|
    ensures |FrameOf(ls, theme, effects, pending).0| == |ls|
    ensures FrameOf(ls, theme, effects, pending).0[i] == Turned(ls[i], theme, effects, damage, mid).0
    ensures Covers(Diffed(ls[i], theme, effects, damage).1, x, y) ==> Covers(mid, x, y)
    ensures Covers(Turned(ls[i], theme, effects, damage, mid).1, x, y) ==>
              Covers(FrameOf(ls, theme, effects, pending).1, x, y)
  {
    var n := |ls|;
    damage := DiffAll(ls, theme, effects, [], i).1;
    var (ls1, d1) := DiffAll(ls, theme, effects, [], n);
    DiffAllAt(ls, theme, effects, [], n, i);
    DiffAllGrows(ls, theme, effects, [], i + 1, n, x, y);
    if effects {
      mid := TickAll(ls1, d1, i).1;
      TickAllAt(ls1, d1, n, i);
      TickAllGrows(ls1, d1, 0, i, x, y);
      TickAllGrows(ls1, d1, i + 1, n, x, y);
    } else {
      mid := d1;
    }
  }

  lemma FrameBounded(ls: seq<Layer>, theme: Theme, effects: bool, pending: seq<Rect>)
    requires Sized(ls)
    ensures |FrameOf(ls, theme, effects, pending).1| <= MAX_DAMAGE
  {
    var (ls1, d1) := DiffAll(ls, theme, effects, [], |ls|);
    DiffAllGrows(ls, theme, effects, [], 0, |ls|, 0, 0);
    TickAllGrows(ls1, d1, 0, |ls1|, 0, 0);
  }

  // ---- The scene before and after ---------------------------------------------

  function ViewsOf(ls: seq<Layer>, nodes: seq<seq<Node>>, theme: Theme, effects: bool): (v: seq<View>)
    requires |nodes| == |ls|
    ensures |v| == |ls|
    ensures forall i :: 0 <= i < |ls| ==> v[i] == ViewOf(ls[i], nodes[i], theme, effects)
  {
    seq(|ls|, i requires 0 <= i < |ls| => ViewOf(ls[i], nodes[i], theme, effects))
  }

  function StoreNodes(ls: seq<Layer>): (n: seq<seq<Node>>)
    ensures |n| == |ls| && forall i :: 0 <= i < |ls| ==> n[i] == ls[i].store.nodes
  {
    seq(|ls|, i requires 0 <= i < |ls| => ls[i].store.nodes)
  }

  /** What is asked of live layers: to be in step, to be ready for their turn, or to show no
      node state that the model does not have. */
  datatype Question = Step | Turn | Fit

  ghost predicate Holds(q: Question, l: Layer, painted: seq<Node>, theme: Theme, effects: bool) {
    !l.dead ==>
      match q
      case Step => InStep(l, painted, theme, effects)
      case Turn => Ready(l, painted, theme, effects)
      case Fit => SameToModel(painted, l.store.nodes, theme)
  }

  ghost predicate Each(q: Question, ls: seq<Layer>, painted: seq<seq<Node>>, theme: Theme, effects: bool, n: nat)
    requires n <= |ls| == |painted|
  {
    n > 0 ==> Each(q, ls, painted, theme, effects, n - 1) && Holds(q, ls[n - 1], painted[n - 1], theme, effects)
  }

  lemma {:induction false} EachAt(q: Question, ls: seq<Layer>, painted: seq<seq<Node>>, theme: Theme, effects: bool,
                                  n: nat, i: nat)
    requires i < n <= |ls| == |painted| && Each(q, ls, painted, theme, effects, n)
    ensures Holds(q, ls[i], painted[i], theme, effects)
  {
    if i < n - 1 { EachAt(q, ls, painted, theme, effects, n - 1, i); }
  }

  lemma {:induction false} EachIntro(q: Question, ls: seq<Layer>, painted: seq<seq<Node>>, theme: Theme, effects: bool, n: nat)
    requires n <= |ls| == |painted|
    requires forall i :: 0 <= i < n ==> Holds(q, ls[i], painted[i], theme, effects)
    ensures Each(q, ls, painted, theme, effects, n)
  {
    if n > 0 { EachIntro(q, ls, painted, theme, effects, n - 1); }
  }

  ghost predicate AllInStep(ls: seq<Layer>, painted: seq<seq<Node>>, theme: Theme, effects: bool)
    requires |painted| == |ls|
  {
    Each(Step, ls, painted, theme, effects, |ls|)
  }

  ghost predicate AllReady(ls: seq<Layer>, painted: seq<seq<Node>>, theme: Theme, effects: bool)
    requires |painted| == |ls|
  {
    Each(Turn, ls, painted, theme, effects, |ls|)
  }

  ghost predicate AllFit(ls: seq<Layer>, painted: seq<seq<Node>>, theme: Theme, effects: bool)
    requires |painted| == |ls|
  {
    Each(Fit, ls, painted, theme, effects, |ls|)
  }

  /** Outside the slide bands of every live layer. */
  predicate OffTails(ls: seq<Layer>, x: int, y: int) {
    forall i :: 0 <= i < |ls| && !ls[i].dead ==> !InTail(ls[i].anims, x, y)
  }

  /** Outside every running transition of every live layer. */
  predicate OffZones(ls: seq<Layer>, x: int, y: int) {
    forall i :: 0 <= i < |ls| && !ls[i].dead ==> !InZone(ls[i].anims, x, y)
  }

  lemma {:induction false} SceneAgree(clear: Pixel, a: seq<View>, b: seq<View>, n: nat, x: int, y: int)
    requires n <= |a| && n <= |b|
    requires forall i, d :: 0 <= i < n ==> LayerPx(a[i], x, y, d) == LayerPx(b[i], x, y, d)
    ensures ScenePx(clear, a, n, x, y) == ScenePx(clear, b, n, x, y)
  {
    if n > 0 { SceneAgree(clear, a, b, n - 1, x, y); }
  }

  lemma TurnKeepsShape(l: Layer, theme: Theme, effects: bool, damage: seq<Rect>, mid: seq<Rect>)
    requires |l.model.slots| == Pow2(l.model.shift)
    ensures var r := Turned(l, theme, effects, damage, mid).0;
            r == l.(model := r.model, anims := r.anims) && |r.model.slots| == Pow2(r.model.shift) && |r.anims| == |l.anims|
            && (l.dead ==> r == l)
  {
  }

  /** A pixel that the frame neither damages nor leaves in a slide band shows the stores'
      current nodes already. */
  lemma FrameAgrees(ls: seq<Layer>, painted: seq<seq<Node>>, clear: Pixel, theme: Theme, effects: bool, pending: seq<Rect>,
                    x: int, y: int)
    requires |painted| == |ls| && Sized(ls)
    requires AllInStep(ls, painted, theme, effects) && AllReady(ls, painted, theme, effects)
    requires var (ls', d) := FrameOf(ls, theme, effects, pending);
             !Covers(d, x, y) && (effects ==> OffTails(ls', x, y))
    ensures |FrameOf(ls, theme, effects, pending).0| == |ls|
    ensures effects ==> OffZones(ls, x, y)
    ensures ScenePx(clear, ViewsOf(ls, painted, theme, effects), |ls|, x, y)
         == ScenePx(clear, ViewsOf(FrameOf(ls, theme, effects, pending).0, StoreNodes(ls), theme, effects), |ls|, x, y)
  {
    var ls' := FrameOf(ls, theme, effects, pending).0;
    if |ls| > 0 { var _, _ := FrameAt(ls, theme, effects, pending, 0, x, y); }
    var a, b := ViewsOf(ls, painted, theme, effects), ViewsOf(ls', StoreNodes(ls), theme, effects);
    forall i | 0 <= i < |ls|
      ensures (!ls[i].dead && effects ==> !InZone(ls[i].anims, x, y))
              && forall d :: LayerPx(a[i], x, y, d) == LayerPx(b[i], x, y, d)
    {
      var damage, mid := FrameAt(ls, theme, effects, pending, i, x, y);
      TurnKeepsShape(ls[i], theme, effects, damage, mid);
      EachAt(Step, ls, painted, theme, effects, |ls|, i);
      EachAt(Turn, ls, painted, theme, effects, |ls|, i);
      if !ls[i].dead {
        TurnUnmarked(ls[i], painted[i], theme, effects, damage, mid, x, y);
        forall d ensures LayerPx(a[i], x, y, d) == LayerPx(b[i], x, y, d) {
          TurnAgrees(ls[i], painted[i], theme, effects, damage, mid, x, y, d);
        }
      }
    }
    SceneAgree(clear, a, b, |ls|, x, y);
  }

  /** After the frame every live layer is in step with its store. */
  lemma FrameInStep(ls: seq<Layer>, painted: seq<seq<Node>>, theme: Theme, effects: bool, pending: seq<Rect>, i: nat)
    requires |painted| == |ls| && Sized(ls) && i < |ls|
    requires AllInStep(ls, painted, theme, effects) && AllReady(ls, painted, theme, effects)
    ensures |FrameOf(ls, theme, effects, pending).0| == |ls|
    ensures var l := FrameOf(ls, theme, effects, pending).0[i];
            && l == ls[i].(model := l.model, anims := l.anims)
            && |l.model.slots| == Pow2(l.model.shift) && |l.anims| == |ls[i].anims|
            && (!l.dead ==> InStep(l.(rendered := l.store.version), l.store.nodes, theme, effects))
  {
    var damage, mid := FrameAt(ls, theme, effects, pending, i, 0, 0);
    TurnKeepsShape(ls[i], theme, effects, damage, mid);
    EachAt(Step, ls, painted, theme, effects, |ls|, i);
    EachAt(Turn, ls, painted, theme, effects, |ls|, i);
    if !ls[i].dead { TurnInStep(ls[i], painted[i], theme, effects, damage, mid); }
  }

  lemma PendingCovered(ls: seq<Layer>, theme: Theme, effects: bool, pending: seq<Rect>, x: int, y: int)
    requires Sized(ls)
    ensures Covers(pending, x, y) ==> Covers(FrameOf(ls, theme, effects, pending).1, x, y)
  {
    assert pending[..|pending|] == pending;
  }

  /** The whole frame at one pixel: not damaged and in no slide band means that nothing was
      offered or running there, and that the painted scene is the current one. */
  lemma FramePixel(ls: seq<Layer>, painted: seq<seq<Node>>, clear: Pixel, theme: Theme, effects: bool,
                   pending: seq<Rect>, x: int, y: int)
    requires |painted| == |ls| && Sized(ls)
    requires AllInStep(ls, painted, theme, effects) && AllReady(ls, painted, theme, effects)
    ensures var (ls', d) := FrameOf(ls, theme, effects, pending);
            |ls'| == |ls| &&
            (!Covers(d, x, y) && (effects ==> OffTails(ls', x, y)) ==>
              && !Covers(pending, x, y) && (effects ==> OffZones(ls, x, y))
              && ScenePx(clear, ViewsOf(ls, painted, theme, effects), |ls|, x, y)
                 == ScenePx(clear, ViewsOf(ls', StoreNodes(ls'), theme, effects), |ls|, x, y))
  {
    var (ls', d) := FrameOf(ls, theme, effects, pending);
    FrameStores(ls, theme, effects, pending);
    PendingCovered(ls, theme, effects, pending, x, y);
    if !Covers(d, x, y) && (effects ==> OffTails(ls', x, y)) {
      FrameAgrees(ls, painted, clear, theme, effects, pending, x, y);
    }
  }

  lemma FrameStores(ls: seq<Layer>, theme: Theme, effects: bool, pending: seq<Rect>)
    requires Sized(ls)
    ensures var ls' := FrameOf(ls, theme, effects, pending).0; |ls'| == |ls| && StoreNodes(ls') == StoreNodes(ls)
  {
    var ls' := FrameOf(ls, theme, effects, pending).0;
    if |ls| > 0 { var _, _ := FrameAt(ls, theme, effects, pending, 0, 0, 0); }
    forall i | 0 <= i < |ls| ensures ls'[i].store == ls[i].store {
      var damage, mid := FrameAt(ls, theme, effects, pending, i, 0, 0);
      TurnKeepsShape(ls[i], theme, effects, damage, mid);
    }
  }

  // ---- What a frame achieves --------------------------------------------------

  /** The layers once their new versions are noted. */
  function Noted(ls: seq<Layer>): (r: seq<Layer>)
    ensures |r| == |ls| && forall i :: 0 <= i < |ls| ==> r[i] == ls[i].(rendered := ls[i].store.version)
  {
    seq(|ls|, i requires 0 <= i < |ls| => ls[i].(rendered := ls[i].store.version))
  }

  /** Only layer i's model and transitions differ. */
  predicate OnlyAt(a: seq<Layer>, b: seq<Layer>, i: nat) {
    i < |a| == |b| && b[i] == a[i].(model := b[i].model, anims := b[i].anims) && b == a[i := b[i]]
  }

  lemma OnlyTwice(a: seq<Layer>, b: seq<Layer>, c: seq<Layer>, i: nat)
    requires OnlyAt(a, b, i) && OnlyAt(b, c, i)
    ensures OnlyAt(a, c, i)
  {
  }

  /** Only models and transitions differ. */
  ghost predicate SameSessions(ls: seq<Layer>, ls': seq<Layer>) {
    |ls'| == |ls| && forall i :: 0 <= i < |ls| ==>
      ls'[i] == ls[i].(model := ls'[i].model, anims := ls'[i].anims) && |ls'[i].anims| == |ls[i].anims|
  }

  /** Pixels the damage leaves alone, outside slide bands, had nothing offered or running,
      and the scene there is the same as before. */
  ghost predicate DamageSuffices(ls: seq<Layer>, painted: seq<seq<Node>>, clear: Pixel, theme: Theme, effects: bool,
                                 pending: seq<Rect>, ls': seq<Layer>, damage: seq<Rect>)
    requires |painted| == |ls| == |ls'|
  {
    forall x, y :: !Covers(damage, x, y) && (effects ==> OffTails(ls', x, y)) ==>
      && !Covers(pending, x, y) && (effects ==> OffZones(ls, x, y))
      && ScenePx(clear, ViewsOf(ls, painted, theme, effects), |ls|, x, y)
         == ScenePx(clear, ViewsOf(ls', StoreNodes(ls'), theme, effects), |ls|, x, y)
  }

  /** One tick for a layer whose store did not move: transitions age, or playback drops them. */
  ghost predicate AgedLayer(l: Layer, effects: bool, l': Layer) {
    |l'.anims| == |l.anims| && forall k :: 0 <= k < |l.anims| ==>
      l'.anims[k] == if !effects || l.dead then l.anims[k]
                     else if l.store.replaying then Idle
                     else Aged(l.anims[k])
  }

  /** Every running transition of a live layer has seen at least n ticks. */
  ghost predicate OlderThan(ls: seq<Layer>, n: nat) {
    forall i, a :: 0 <= i < |ls| && !ls[i].dead && a in ls[i].anims && !a.Idle? ==> a.t >= n
  }

  /** A frame's tick: quiet layers age, and no running transition is brand new. */
  ghost predicate QuietlyAged(ls: seq<Layer>, effects: bool, ls': seq<Layer>)
    requires |ls'| == |ls|
  {
    (forall i :: 0 <= i < |ls| && !Changed(ls[i]) ==> AgedLayer(ls[i], effects, ls'[i]))
    && (effects ==> OlderThan(ls', 1))
  }

  lemma TickedOlder(l: Layer, damage: seq<Rect>)
    requires !l.dead
    ensures forall a :: a in Ticked(l, damage).0.anims && !a.Idle? ==> a.t >= 1
  {
    var r := Ticked(l, damage).0.anims;
    forall a | a in r && !a.Idle? ensures a.t >= 1 {
      var k :| 0 <= k < |r| && r[k] == a;
    }
  }

  lemma FrameAges(ls: seq<Layer>, theme: Theme, effects: bool, pending: seq<Rect>)
    requires Sized(ls)
    ensures var ls' := FrameOf(ls, theme, effects, pending).0;
            SameSessions(ls, ls') && QuietlyAged(ls, effects, ls') && Sized(Noted(ls'))
  {
    var ls' := FrameOf(ls, theme, effects, pending).0;
    FrameStores(ls, theme, effects, pending);
    forall i | 0 <= i < |ls|
      ensures ls'[i] == ls[i].(model := ls'[i].model, anims := ls'[i].anims) && |ls'[i].anims| == |ls[i].anims|
      ensures |ls'[i].model.slots| == Pow2(ls'[i].model.shift)
      ensures !Changed(ls[i]) ==> AgedLayer(ls[i], effects, ls'[i])
      ensures effects && !ls[i].dead ==> forall a :: a in ls'[i].anims && !a.Idle? ==> a.t >= 1
    {
      var damage, mid := FrameAt(ls, theme, effects, pending, i, 0, 0);
      TurnKeepsShape(ls[i], theme, effects, damage, mid);
      if effects && !ls[i].dead { TickedOlder(Diffed(ls[i], theme, effects, damage).0, mid); }
    }
  }

  /** A quiet tick makes everything that still runs one tick older. */
  lemma QuietTick(ls: seq<Layer>, ls': seq<Layer>, n: nat)
    requires SameStores(ls, ls') && QuietlyAged(ls, true, ls') && OlderThan(ls, n)
    requires forall i :: 0 <= i < |ls| ==> !Changed(ls[i])
    ensures OlderThan(ls', n + 1)
  {
    forall i, a | 0 <= i < |ls'| && !ls'[i].dead && a in ls'[i].anims && !a.Idle? ensures a.t >= n + 1 {
      var k :| 0 <= k < |ls'[i].anims| && ls'[i].anims[k] == a;
      assert AgedLayer(ls[i], true, ls'[i]);
      assert ls[i].anims[k] in ls[i].anims;
    }
  }

  lemma FrameSuffices(ls: seq<Layer>, painted: seq<seq<Node>>, clear: Pixel, theme: Theme, effects: bool, pending: seq<Rect>)
    requires |painted| == |ls| && Sized(ls)
    requires AllInStep(ls, painted, theme, effects) && AllReady(ls, painted, theme, effects)
    ensures var (ls', d) := FrameOf(ls, theme, effects, pending);
            |ls'| == |ls| && DamageSuffices(ls, painted, clear, theme, effects, pending, ls', d)
            && AllInStep(Noted(ls'), StoreNodes(ls'), theme, effects)
  {
    var (ls', d) := FrameOf(ls, theme, effects, pending);
    FrameStores(ls, theme, effects, pending);
    forall x, y | !Covers(d, x, y) && (effects ==> OffTails(ls', x, y))
      ensures !Covers(pending, x, y) && (effects ==> OffZones(ls, x, y))
      ensures ScenePx(clear, ViewsOf(ls, painted, theme, effects), |ls|, x, y)
           == ScenePx(clear, ViewsOf(ls', StoreNodes(ls'), theme, effects), |ls|, x, y)
    {
      FramePixel(ls, painted, clear, theme, effects, pending, x, y);
    }
    forall i | 0 <= i < |ls| ensures Holds(Step, Noted(ls')[i], StoreNodes(ls')[i], theme, effects) {
      FrameInStep(ls, painted, theme, effects, pending, i);
    }
    EachIntro(Step, Noted(ls'), StoreNodes(ls'), theme, effects, |ls|);
  }

  /** What a frame's damage branch does for the layers, once their versions are noted. */
  lemma FrameKeeps(ls: seq<Layer>, painted: seq<seq<Node>>, theme: Theme, effects: bool, pending: seq<Rect>)
    returns (now: seq<Layer>, d: seq<Rect>)
    requires |painted| == |ls| && Sized(ls)
    requires AllInStep(ls, painted, theme, effects) && AllReady(ls, painted, theme, effects)
    ensures now == Noted(FrameOf(ls, theme, effects, pending).0) && d == FrameOf(ls, theme, effects, pending).1
    ensures |d| <= MAX_DAMAGE && Sized(now) && SameStores(ls, now) && QuietlyAged(ls, effects, now)
    ensures AllInStep(now, StoreNodes(now), theme, effects)
  {
    var mid;
    mid, d := FrameOf(ls, theme, effects, pending).0, FrameOf(ls, theme, effects, pending).1;
    FrameBounded(ls, theme, effects, pending);
    FrameAges(ls, theme, effects, pending);
    FrameSuffices(ls, painted, CLEAR_WORD, theme, effects, pending);
    NotedSame(ls, mid, theme, effects);
    now := Noted(mid);
  }

  predicate AnyActive(ls: seq<Layer>) {
    exists i :: 0 <= i < |ls| && !ls[i].dead && !Settled(ls[i].anims)
  }

  /** With nothing running, nothing ages. */
  lemma QuietAges(ls: seq<Layer>, effects: bool)
    requires effects ==> !AnyActive(ls)
    ensures QuietlyAged(ls, effects, ls)
  {
    forall i, a | 0 <= i < |ls| && effects && !ls[i].dead && a in ls[i].anims ensures a.Idle? {
      assert Settled(ls[i].anims);
    }
    forall i, k | 0 <= i < |ls| && 0 <= k < |ls[i].anims| && effects && !ls[i].dead ensures ls[i].anims[k].Idle? {
      assert ls[i].anims[k] in ls[i].anims;
    }
  }

  /** Two node lists the diff cannot tell apart. */
  ghost predicate SameToModel(painted: seq<Node>, nodes: seq<Node>, theme: Theme) {
    Distinct(nodes) && KeysOf(nodes, theme) == KeysOf(painted, theme)
  }

  /** A forced frame notes the store's version without touching the model, so the layer
      stays in step exactly when the diff would have found nothing. */
  lemma ForcedStep(l: Layer, painted: seq<Node>, theme: Theme, effects: bool)
    requires InStep(l, painted, theme, effects)
    ensures InStep(l.(rendered := l.store.version), l.store.nodes, theme, effects)
       <==> SameToModel(painted, l.store.nodes, theme)
  {
    var a, b, bag := KeysOf(painted, theme), KeysOf(l.store.nodes, theme), Bag(l.model.slots);
    if Describes(bag, b) {
      forall id | id in a || id in b ensures id in a && id in b && a[id] == b[id] {
        assert HasEntry(bag, id, false);
        var rn :| rn in bag && rn.id == id && !rn.seen;
      }
    }
  }

  /** So after a forced frame all layers are in step exactly when no table was out of date. */
  lemma ForcedInStep(ls: seq<Layer>, painted: seq<seq<Node>>, theme: Theme, effects: bool)
    requires |painted| == |ls| && AllInStep(ls, painted, theme, effects)
    ensures AllInStep(Noted(ls), StoreNodes(ls), theme, effects) <==> AllFit(ls, painted, theme, effects)
  {
    forall i | 0 <= i < |ls|
      ensures Holds(Step, Noted(ls)[i], StoreNodes(ls)[i], theme, effects) <==> Holds(Fit, ls[i], painted[i], theme, effects)
    {
      EachAt(Step, ls, painted, theme, effects, |ls|, i);
      if !ls[i].dead { ForcedStep(ls[i], painted[i], theme, effects); }
    }
    if AllFit(ls, painted, theme, effects) {
      forall i | 0 <= i < |ls| ensures Holds(Step, Noted(ls)[i], StoreNodes(ls)[i], theme, effects) {
        EachAt(Fit, ls, painted, theme, effects, |ls|, i);
      }
      EachIntro(Step, Noted(ls), StoreNodes(ls), theme, effects, |ls|);
    } else if AllInStep(Noted(ls), StoreNodes(ls), theme, effects) {
      forall i | 0 <= i < |ls| ensures Holds(Fit, ls[i], painted[i], theme, effects) {
        EachAt(Step, Noted(ls), StoreNodes(ls), theme, effects, |ls|, i);
      }
      EachIntro(Fit, ls, painted, theme, effects, |ls|);
    }
  }

  /** Nothing painted and nothing running: the scene is the desktop colour. */
  lemma {:induction false} BlankScene(clear: Pixel, views: seq<View>, n: nat, x: int, y: int)
    requires n <= |views|
    requires forall i :: 0 <= i < n && !views[i].dead ==> views[i].nodes == [] && Settled(views[i].look.anims)
    ensures ScenePx(clear, views, n, x, y) == clear
  {
    if n > 0 {
      BlankScene(clear, views, n - 1, x, y);
      if !views[n - 1].dead { BlankExits(views[n - 1].look, |views[n - 1].look.anims|, x, y, clear); }
    }
  }

  lemma {:induction false} BlankExits(look: Look, n: nat, x: int, y: int, dst: Pixel)
    requires n <= |look.anims| && Settled(look.anims)
    ensures ExitsPx(look, n, x, y, dst) == dst
  {
    if n > 0 {
      BlankExits(look, n - 1, x, y, dst);
      assert look.anims[n - 1] in look.anims;
    }
  }

  /** Noting versions changes nothing that is painted or runs. */
  lemma NotedSame(was: seq<Layer>, ls: seq<Layer>, theme: Theme, effects: bool)
    requires |was| == |ls|
    ensures StoreNodes(Noted(ls)) == StoreNodes(ls)
    ensures ViewsOf(Noted(ls), StoreNodes(ls), theme, effects) == ViewsOf(ls, StoreNodes(ls), theme, effects)
    ensures forall x, y :: OffTails(Noted(ls), x, y) ==> OffTails(ls, x, y)
    ensures QuietlyAged(was, effects, ls) ==> QuietlyAged(was, effects, Noted(ls))
    ensures SameSessions(was, ls) ==> SameStores(was, Noted(ls))
  {
    var n := Noted(ls);
    forall x, y | OffTails(n, x, y) ensures OffTails(ls, x, y) {
      forall i | 0 <= i < |ls| && !ls[i].dead ensures !InTail(ls[i].anims, x, y) {
        assert n[i].anims == ls[i].anims && !n[i].dead;
      }
    }
  }

  /** The same sessions with the same stores. */
  ghost predicate SameStores(ls: seq<Layer>, ls': seq<Layer>) {
    |ls'| == |ls| && forall i :: 0 <= i < |ls| ==>
      ls'[i].store == ls[i].store && ls'[i].sv == ls[i].sv && ls'[i].texs == ls[i].texs && ls'[i].dead == ls[i].dead
  }

  /** The layers as a frame finds them: app sessions whose server failed are dead. */
  function Buried(ls: seq<Layer>): (r: seq<Layer>)
    ensures |r| == |ls|
    ensures forall i :: 0 <= i < |ls| ==>
              r[i] == if 1 <= i && ls[i].store.failed then ls[i].(dead := true) else ls[i]
  {
    seq(|ls|, i requires 0 <= i < |ls| => if 1 <= i && ls[i].store.failed then ls[i].(dead := true) else ls[i])
  }

  /** A live app session's server has failed. */
  predicate SomeDied(ls: seq<Layer>) {
    exists i :: 1 <= i < |ls| && !ls[i].dead && ls[i].store.failed
  }

  lemma SameTwice(a: seq<Layer>, b: seq<Layer>, c: seq<Layer>)
    requires SameStores(a, b) && SameStores(b, c)
    ensures SameStores(a, c)
  {
  }

  lemma NoneDied(ls: seq<Layer>)
    requires !SomeDied(ls)
    ensures Buried(ls) == ls
  {
    var marked := Buried(ls);
    forall i | 0 <= i < |ls| ensures marked[i] == ls[i] {
      if 1 <= i && ls[i].store.failed { assert ls[i] == ls[i].(dead := true); }
    }
  }

  /** Marking failed sessions dead only takes layers out. */
  lemma DeadInStep(ls: seq<Layer>, painted: seq<seq<Node>>, theme: Theme, effects: bool)
    requires |painted| == |ls| && AllInStep(ls, painted, theme, effects)
    ensures AllInStep(Buried(ls), painted, theme, effects)
    ensures Sized(ls) ==> Sized(Buried(ls))
    ensures !SomeDied(ls) ==> Buried(ls) == ls
  {
    var marked := Buried(ls);
    if !SomeDied(ls) { NoneDied(ls); }
    forall i | 0 <= i < |ls| ensures Holds(Step, marked[i], painted[i], theme, effects) {
      EachAt(Step, ls, painted, theme, effects, |ls|, i);
    }
    EachIntro(Step, marked, painted, theme, effects, |ls|);
  }

  /** With no store moved since it was painted, the painted scene is the current one. */
  lemma IdleScene(clear: Pixel, ls: seq<Layer>, painted: seq<seq<Node>>, theme: Theme, effects: bool)
    requires |painted| == |ls| && AllInStep(ls, painted, theme, effects)
    requires forall i :: 0 <= i < |ls| ==> !Changed(ls[i])
    ensures forall i :: 0 <= i < |ls| && !ls[i].dead ==> painted[i] == ls[i].store.nodes && ls[i].rendered == ls[i].store.version
    ensures forall x, y :: ScenePx(clear, ViewsOf(ls, painted, theme, effects), |ls|, x, y)
                        == ScenePx(clear, ViewsOf(ls, StoreNodes(ls), theme, effects), |ls|, x, y)
  {
    forall i | 0 <= i < |ls| && !ls[i].dead ensures painted[i] == ls[i].store.nodes && ls[i].rendered == ls[i].store.version {
      EachAt(Step, ls, painted, theme, effects, |ls|, i);
    }
    forall x, y ensures ScenePx(clear, ViewsOf(ls, painted, theme, effects), |ls|, x, y)
                     == ScenePx(clear, ViewsOf(ls, StoreNodes(ls), theme, effects), |ls|, x, y) {
      SceneAgree(clear, ViewsOf(ls, painted, theme, effects), ViewsOf(ls, StoreNodes(ls), theme, effects), |ls|, x, y);
    }
  }

  // ---- Changes of look between frames -----------------------------------------

  function LookOf(l: Layer, theme: Theme, effects: bool): Look { Look(theme, effects, l.texs, l.anims) }

  /** When no entry that a change of look affects shows at the pixel, the scene there stays. */
  lemma SceneLookLocal(clear: Pixel, ls: seq<Layer>, ls': seq<Layer>, painted: seq<seq<Node>>, theme: Theme, theme': Theme,
                       effects: bool, what: Concern, x: int, y: int)
    requires |painted| == |ls| == |ls'| && AllInStep(ls, painted, theme, effects) && theme'.sig == theme.sig
    requires forall i :: 0 <= i < |ls| ==> ls'[i].anims == ls[i].anims && ls'[i].dead == ls[i].dead
    requires effects ==> OffZones(ls, x, y)
    requires forall i, rn :: 0 <= i < |ls| && !ls[i].dead && rn in Bag(ls[i].model.slots) && what.Of(i, rn.key) ==>
               !AtPixel(rn.key, x, y)
    requires forall i: nat, v: Node, d: Pixel :: i < |ls| && (what.Of(i, KeyOf(v, theme.sig)) ==> !Touches(v, x, y)) ==>
               NodePx(Plain(LookOf(ls[i], theme, effects)), v, x, y, d)
               == NodePx(Plain(LookOf(ls'[i], theme', effects)), v, x, y, d)
    ensures ScenePx(clear, ViewsOf(ls, painted, theme, effects), |ls|, x, y)
         == ScenePx(clear, ViewsOf(ls', painted, theme', effects), |ls|, x, y)
  {
    var a, b := ViewsOf(ls, painted, theme, effects), ViewsOf(ls', painted, theme', effects);
    forall i, d | 0 <= i < |ls| ensures LayerPx(a[i], x, y, d) == LayerPx(b[i], x, y, d) {
      EachAt(Step, ls, painted, theme, effects, |ls|, i);
      if !ls[i].dead {
        assert a[i].look == LookOf(ls[i], theme, effects) && b[i].look == LookOf(ls'[i], theme', effects);
        LookChangeLocal(a[i], b[i], ls[i], theme, effects, what, i, x, y, d);
      }
    }
    SceneAgree(clear, a, b, |ls|, x, y);
  }

  /** Being in step depends on the theme only through the text signature. */
  lemma RethemeInStep(ls: seq<Layer>, ls': seq<Layer>, painted: seq<seq<Node>>, theme: Theme, theme': Theme, effects: bool)
    requires |painted| == |ls| == |ls'| && AllInStep(ls, painted, theme, effects) && theme'.sig == theme.sig
    requires forall i :: 0 <= i < |ls| ==> ls'[i] == ls[i].(texs := ls'[i].texs)
    ensures AllInStep(ls', painted, theme', effects)
  {
    forall i | 0 <= i < |ls| ensures Holds(Step, ls'[i], painted[i], theme', effects) {
      EachAt(Step, ls, painted, theme, effects, |ls|, i);
      assert KeysOf(painted[i], theme') == KeysOf(painted[i], theme);
    }
    EachIntro(Step, ls', painted, theme', effects, |ls|);
  }

  /** The framebuffer shows the painted scene at this pixel, if nothing is pending or in
      transition there. */
  ghost predicate ShownAt(fb: array2<Pixel>, clear: Pixel, ls: seq<Layer>, painted: seq<seq<Node>>, theme: Theme,
                          effects: bool, pending: seq<Rect>, x: int, y: int)
    reads fb
    requires |painted| == |ls| && 0 <= x < fb.Length1 && 0 <= y < fb.Length0
  {
    !Covers(pending, x, y) && (effects ==> OffZones(ls, x, y)) ==>
      fb[y, x] == ScenePx(clear, ViewsOf(ls, painted, theme, effects), |ls|, x, y)
  }

  ghost predicate ShownRow(fb: array2<Pixel>, clear: Pixel, ls: seq<Layer>, painted: seq<seq<Node>>, theme: Theme,
                           effects: bool, pending: seq<Rect>, y: int)
    reads fb
    requires |painted| == |ls| && 0 <= y < fb.Length0
  {
    forall x :: 0 <= x < fb.Length1 ==> ShownAt(fb, clear, ls, painted, theme, effects, pending, x, y)
  }

  /** It does so in the first n rows. */
  ghost predicate ShownRows(fb: array2<Pixel>, clear: Pixel, ls: seq<Layer>, painted: seq<seq<Node>>, theme: Theme,
                            effects: bool, pending: seq<Rect>, n: nat)
    reads fb
    requires |painted| == |ls| && n <= fb.Length0
  {
    n > 0 ==>
      ShownRows(fb, clear, ls, painted, theme, effects, pending, n - 1)
      && ShownRow(fb, clear, ls, painted, theme, effects, pending, n - 1)
  }

  /** The framebuffer shows the painted scene wherever nothing is pending or in transition. */
  ghost predicate ShownBy(fb: array2<Pixel>, clear: Pixel, ls: seq<Layer>, painted: seq<seq<Node>>, theme: Theme,
                          effects: bool, pending: seq<Rect>)
    reads fb
    requires |painted| == |ls|
  {
    ShownRows(fb, clear, ls, painted, theme, effects, pending, fb.Length0)
  }

  lemma {:induction false} RowShown(fb: array2<Pixel>, clear: Pixel, ls: seq<Layer>, painted: seq<seq<Node>>, theme: Theme,
                                    effects: bool, pending: seq<Rect>, n: nat, x: int, y: int)
    requires |painted| == |ls| && 0 <= x < fb.Length1 && 0 <= y < n <= fb.Length0
    requires ShownRows(fb, clear, ls, painted, theme, effects, pending, n)
    ensures ShownAt(fb, clear, ls, painted, theme, effects, pending, x, y)
  {
    if y < n - 1 { RowShown(fb, clear, ls, painted, theme, effects, pending, n - 1, x, y); }
  }

  lemma {:induction false} RowsIntro(fb: array2<Pixel>, clear: Pixel, ls: seq<Layer>, painted: seq<seq<Node>>, theme: Theme,
                                     effects: bool, pending: seq<Rect>, n: nat)
    requires |painted| == |ls| && n <= fb.Length0
    requires forall x, y :: 0 <= x < fb.Length1 && 0 <= y < n ==> ShownAt(fb, clear, ls, painted, theme, effects, pending, x, y)
    ensures ShownRows(fb, clear, ls, painted, theme, effects, pending, n)
  {
    if n > 0 { RowsIntro(fb, clear, ls, painted, theme, effects, pending, n - 1); }
  }

  ghost predicate AllOffered(ls: seq<Layer>, what: Concern, list: seq<Rect>) {
    forall i: nat :: i < |ls| ==> Offered(ls[i], i, what, list)
  }

  lemma OfferedAway(ls: seq<Layer>, what: Concern, list: seq<Rect>, x: int, y: int)
    requires AllOffered(ls, what, list) && !Covers(list, x, y)
    ensures forall i, rn :: 0 <= i < |ls| && rn in Bag(ls[i].model.slots) && what.Of(i, rn.key) ==> !AtPixel(rn.key, x, y)
  {
    forall i, rn | 0 <= i < |ls| && rn in Bag(ls[i].model.slots) && what.Of(i, rn.key) ensures !AtPixel(rn.key, x, y) {
      assert Offered(ls[i], i, what, list);
    }
  }

  /** Restyling keeps the picture: whatever shows the style has been offered. */
  lemma RestyledShown(fb: array2<Pixel>, clear: Pixel, ls: seq<Layer>, painted: seq<seq<Node>>, theme: Theme, ref: nat,
                      st: Style, effects: bool, before: seq<Rect>, pending: seq<Rect>)
    requires |painted| == |ls| && AllInStep(ls, painted, theme, effects) && ref < |theme.styles|
    requires AllOffered(ls, ByStyle(ref), pending) && forall x, y :: Covers(before, x, y) ==> Covers(pending, x, y)
    requires ShownBy(fb, clear, ls, painted, theme, effects, before)
    ensures ShownBy(fb, clear, ls, painted, theme.(styles := theme.styles[ref := st]), effects, pending)
  {
    var theme' := theme.(styles := theme.styles[ref := st]);
    forall x, y | 0 <= x < fb.Length1 && 0 <= y < fb.Length0 && !Covers(pending, x, y) && (effects ==> OffZones(ls, x, y))
      ensures fb[y, x] == ScenePx(clear, ViewsOf(ls, painted, theme', effects), |ls|, x, y)
    {
      RowShown(fb, clear, ls, painted, theme, effects, before, fb.Length0, x, y);
      forall i: nat, v: Node, d: Pixel | i < |ls| && (v.style == ref ==> !Touches(v, x, y))
        ensures NodePx(Plain(LookOf(ls[i], theme, effects)), v, x, y, d)
             == NodePx(Plain(LookOf(ls[i], theme', effects)), v, x, y, d)
      {
        RestyleLocal(Plain(LookOf(ls[i], theme, effects)), ref, st, v, x, y, d);
      }
      OfferedAway(ls, ByStyle(ref), pending, x, y);
      SceneLookLocal(clear, ls, ls, painted, theme, theme', effects, ByStyle(ref), x, y);
    }
    RowsIntro(fb, clear, ls, painted, theme', effects, pending, fb.Length0);
  }

  /** So does changing one texture of one layer. */
  lemma RetexturedShown(fb: array2<Pixel>, clear: Pixel, ls: seq<Layer>, painted: seq<seq<Node>>, theme: Theme, n: nat,
                        texs: map<nat, Texture>, ref: nat, effects: bool, before: seq<Rect>, pending: seq<Rect>)
    requires |painted| == |ls| && AllInStep(ls, painted, theme, effects) && n < |ls|
    requires forall r :: r != ref ==> (r in texs <==> r in ls[n].texs) && (r in texs ==> texs[r] == ls[n].texs[r])
    requires AllOffered(ls, ByTexture(n, ref), pending) && forall x, y :: Covers(before, x, y) ==> Covers(pending, x, y)
    requires ShownBy(fb, clear, ls, painted, theme, effects, before)
    ensures ShownBy(fb, clear, ls[n := ls[n].(texs := texs)], painted, theme, effects, pending)
  {
    var ls' := ls[n := ls[n].(texs := texs)];
    forall x, y | 0 <= x < fb.Length1 && 0 <= y < fb.Length0 && !Covers(pending, x, y) && (effects ==> OffZones(ls', x, y))
      ensures fb[y, x] == ScenePx(clear, ViewsOf(ls', painted, theme, effects), |ls|, x, y)
    {
      forall i: nat, v: Node, d: Pixel | i < |ls| && (i == n && v.tex == ref ==> !Touches(v, x, y))
        ensures NodePx(Plain(LookOf(ls[i], theme, effects)), v, x, y, d)
             == NodePx(Plain(LookOf(ls'[i], theme, effects)), v, x, y, d)
      {
        if i == n { RetextureLocal(Plain(LookOf(ls[i], theme, effects)), texs, ref, v, x, y, d); }
      }
      if effects { TexZones(ls, n, texs, x, y); }
      RowShown(fb, clear, ls, painted, theme, effects, before, fb.Length0, x, y);
      OfferedAway(ls, ByTexture(n, ref), pending, x, y);
      SceneLookLocal(clear, ls, ls', painted, theme, theme, effects, ByTexture(n, ref), x, y);
    }
    RowsIntro(fb, clear, ls', painted, theme, effects, pending, fb.Length0);
  }

  lemma TexZones(ls: seq<Layer>, n: nat, texs: map<nat, Texture>, x: int, y: int)
    requires n < |ls|
    ensures OffZones(ls[n := ls[n].(texs := texs)], x, y) <==> OffZones(ls, x, y)
  {
    var ls' := ls[n := ls[n].(texs := texs)];
    if OffZones(ls', x, y) {
      forall i | 0 <= i < |ls| && !ls[i].dead ensures !InZone(ls[i].anims, x, y) {
        assert ls'[i].anims == ls[i].anims && !ls'[i].dead;
      }
    }
    if OffZones(ls, x, y) {
      forall i | 0 <= i < |ls| && !ls'[i].dead ensures !InZone(ls'[i].anims, x, y) {
        assert ls'[i].anims == ls[i].anims && !ls[i].dead;
      }
    }
  }

  // ---- Settled layers ---------------------------------------------------------

  /** No transition outlives tick 8, so layers in step whose transitions are that old are settled. */
  lemma OldSettled(ls: seq<Layer>, painted: seq<seq<Node>>, theme: Theme, effects: bool)
    requires |painted| == |ls| && AllInStep(ls, painted, theme, effects) && OlderThan(ls, TICKS)
    ensures !AnyActive(ls)
  {
    forall i | 0 <= i < |ls| && !ls[i].dead ensures Settled(ls[i].anims) {
      EachAt(Step, ls, painted, theme, effects, |ls|, i);
    }
  }

  /** Effects make no difference to a scene in which nothing runs. */
  lemma SettledScene(clear: Pixel, ls: seq<Layer>, ls': seq<Layer>, painted: seq<seq<Node>>, theme: Theme,
                     on: bool, on': bool, x: int, y: int)
    requires |painted| == |ls| == |ls'| && !AnyActive(ls) && !AnyActive(ls')
    requires forall i :: 0 <= i < |ls| ==> ls'[i] == ls[i].(anims := ls'[i].anims)
    ensures ScenePx(clear, ViewsOf(ls, painted, theme, on), |ls|, x, y)
         == ScenePx(clear, ViewsOf(ls', painted, theme, on'), |ls|, x, y)
  {
    var a, b := ViewsOf(ls, painted, theme, on), ViewsOf(ls', painted, theme, on');
    forall i, d | 0 <= i < |ls| ensures LayerPx(a[i], x, y, d) == LayerPx(b[i], x, y, d) {
      if !ls[i].dead { SettledLayer(a[i], b[i], x, y, d); }
    }
    SceneAgree(clear, a, b, |ls|, x, y);
  }

  lemma SettledLayer(a: View, b: View, x: int, y: int, dst: Pixel)
    requires a.nodes == b.nodes && a.dead == b.dead && a.look.theme == b.look.theme && a.look.texs == b.look.texs
    requires Settled(a.look.anims) && Settled(b.look.anims)
    ensures LayerPx(a, x, y, dst) == LayerPx(b, x, y, dst)
  {
    forall i, d | 0 <= i < |a.nodes| ensures NodePx(a.look, a.nodes[i], x, y, d) == NodePx(b.look, a.nodes[i], x, y, d) {
      assert FindAnim(a.look.anims, a.nodes[i].id) < 0 && FindAnim(b.look.anims, a.nodes[i].id) < 0;
    }
    WalkSame(a.look, b.look, a.nodes, |a.nodes|, x, y, dst);
    var w := WalkPx(a.look, a.nodes, |a.nodes|, x, y, dst);
    BlankExits(a.look, |a.look.anims|, x, y, w);
    BlankExits(b.look, |b.look.anims|, x, y, w);
  }

  // ---- Sessions come and go ---------------------------------------------------

  lemma AddedInStep(ls: seq<Layer>, painted: seq<seq<Node>>, theme: Theme, effects: bool, sv: nat, store: Store)
    requires |painted| == |ls| && AllInStep(ls, painted, theme, effects) && Sized(ls)
    requires store.version == 0 ==> store.nodes == []
    ensures AllInStep(ls + [NewLayer(sv, store)], painted + [[]], theme, effects) && Sized(ls + [NewLayer(sv, store)])
  {
    var ls', painted' := ls + [NewLayer(sv, store)], painted + [[]];
    NewLayerInStep(sv, store, theme, effects);
    forall i | 0 <= i < |ls'| ensures Holds(Step, ls'[i], painted'[i], theme, effects) {
      if i < |ls| { EachAt(Step, ls, painted, theme, effects, |ls|, i); }
    }
    EachIntro(Step, ls', painted', theme, effects, |ls'|);
  }

  /** A new session has nothing painted, so the picture stands. */
  lemma AddedShown(fb: array2<Pixel>, clear: Pixel, ls: seq<Layer>, painted: seq<seq<Node>>, theme: Theme, effects: bool,
                   pending: seq<Rect>, sv: nat, store: Store)
    requires |painted| == |ls| && ShownBy(fb, clear, ls, painted, theme, effects, pending)
    ensures ShownBy(fb, clear, ls + [NewLayer(sv, store)], painted + [[]], theme, effects, pending)
  {
    var l := NewLayer(sv, store);
    var ls', painted' := ls + [l], painted + [[]];
    forall x, y | 0 <= x < fb.Length1 && 0 <= y < fb.Length0 && !Covers(pending, x, y) && (effects ==> OffZones(ls', x, y))
      ensures fb[y, x] == ScenePx(clear, ViewsOf(ls', painted', theme, effects), |ls'|, x, y)
    {
      var a, b := ViewsOf(ls, painted, theme, effects), ViewsOf(ls', painted', theme, effects);
      forall i | 0 <= i < |ls| ensures a[i] == b[i] && (effects && !ls[i].dead ==> !InZone(ls[i].anims, x, y)) {
        assert ls'[i] == ls[i];
      }
      RowShown(fb, clear, ls, painted, theme, effects, pending, fb.Length0, x, y);
      SceneAgree(clear, a, b, |ls|, x, y);
      BlankExits(b[|ls|].look, |l.anims|, x, y, ScenePx(clear, b, |ls|, x, y));
    }
    RowsIntro(fb, clear, ls', painted', theme, effects, pending, fb.Length0);
  }

  lemma RemovedInStep(ls: seq<Layer>, painted: seq<seq<Node>>, theme: Theme, effects: bool, n: nat)
    requires n < |ls| == |painted| && AllInStep(ls, painted, theme, effects)
    ensures AllInStep(DropAt(ls, n), DropAt(painted, n), theme, effects)
  {
    EachDrop(Step, ls, painted, theme, effects, n, |ls| - 1);
  }

  function DropAt<T>(s: seq<T>, n: nat): (r: seq<T>)
    requires n < |s|
    ensures |r| == |s| - 1 && forall i :: 0 <= i < |r| ==> r[i] == s[if i < n then i else i + 1]
  {
    s[..n] + s[n + 1..]
  }

  lemma {:induction false} EachDrop(q: Question, ls: seq<Layer>, painted: seq<seq<Node>>, theme: Theme, effects: bool, n: nat, k: nat)
    requires n < |ls| == |painted| && k <= |ls| - 1 && Each(q, ls, painted, theme, effects, |ls|)
    ensures Each(q, DropAt(ls, n), DropAt(painted, n), theme, effects, k)
  {
    if k > 0 {
      EachDrop(q, ls, painted, theme, effects, n, k - 1);
      EachAt(q, ls, painted, theme, effects, |ls|, if k - 1 < n then k - 1 else k);
    }
  }

  /** One layer's store or transitions replaced: the others stay in step. */
  lemma ReplacedInStep(ls: seq<Layer>, painted: seq<seq<Node>>, theme: Theme, effects: bool, n: nat, l: Layer)
    requires |painted| == |ls| && AllInStep(ls, painted, theme, effects) && n < |ls|
    requires Holds(Step, ls[n], painted[n], theme, effects) ==> Holds(Step, l, painted[n], theme, effects)
    ensures AllInStep(ls[n := l], painted, theme, effects)
  {
    forall i | 0 <= i < |ls| ensures Holds(Step, ls[n := l][i], painted[i], theme, effects) {
      EachAt(Step, ls, painted, theme, effects, |ls|, i);
    }
    EachIntro(Step, ls[n := l], painted, theme, effects, |ls|);
  }

  /** With another store layer n is still in step, unless it shows other nodes under the number
      last painted. */
  lemma CommittedInStep(ls: seq<Layer>, painted: seq<seq<Node>>, theme: Theme, effects: bool, n: nat, store: Store)
    requires |painted| == |ls| && AllInStep(ls, painted, theme, effects) && n < |ls|
    ensures AllInStep(ls[n := ls[n].(store := store)], painted, theme, effects)
       <==> ls[n].dead || store.version != ls[n].rendered || store.nodes == painted[n]
  {
    var l := ls[n].(store := store);
    EachAt(Step, ls, painted, theme, effects, |ls|, n);
    if l.dead || store.version != l.rendered || store.nodes == painted[n] {
      ReplacedInStep(ls, painted, theme, effects, n, l);
    } else if AllInStep(ls[n := l], painted, theme, effects) {
      EachAt(Step, ls[n := l], painted, theme, effects, |ls|, n);
    }
  }

  /** What is painted does not depend on the store until the next frame. */
  lemma RestoredShown(fb: array2<Pixel>, clear: Pixel, ls: seq<Layer>, painted: seq<seq<Node>>, theme: Theme, effects: bool,
                      pending: seq<Rect>, n: nat, store: Store)
    requires |painted| == |ls| && n < |ls| && ShownBy(fb, clear, ls, painted, theme, effects, pending)
    ensures ShownBy(fb, clear, ls[n := ls[n].(store := store)], painted, theme, effects, pending)
  {
    var ls' := ls[n := ls[n].(store := store)];
    assert ViewsOf(ls', painted, theme, effects) == ViewsOf(ls, painted, theme, effects);
    forall x, y | OffZones(ls', x, y) ensures OffZones(ls, x, y) {
      forall i | 0 <= i < |ls| && !ls[i].dead ensures !InZone(ls[i].anims, x, y) {
        assert ls'[i].anims == ls[i].anims && !ls'[i].dead;
      }
    }
    forall x, y | 0 <= x < fb.Length1 && 0 <= y < fb.Length0
      ensures ShownAt(fb, clear, ls', painted, theme, effects, pending, x, y)
    {
      RowShown(fb, clear, ls, painted, theme, effects, pending, fb.Length0, x, y);
    }
    RowsIntro(fb, clear, ls', painted, theme, effects, pending, fb.Length0);
  }

  // ---- Effects on and off -----------------------------------------------------

  /** A layer with its transitions dropped. */
  function Stilled(l: Layer): Layer { l.(anims := seq(|l.anims|, i => Idle)) }

  lemma StilledStep(l: Layer, painted: seq<Node>, theme: Theme)
    requires InStep(l, painted, theme, true)
    ensures InStep(Stilled(l), painted, theme, false)
  {
    var l' := Stilled(l);
    assert Settled(l'.anims);
  }

  lemma StilledInStep(ls: seq<Layer>, ls': seq<Layer>, painted: seq<seq<Node>>, theme: Theme)
    requires |painted| == |ls| == |ls'| && AllInStep(ls, painted, theme, true)
    requires forall i :: 0 <= i < |ls| ==> ls'[i] == Stilled(ls[i])
    ensures AllInStep(ls', painted, theme, false)
  {
    forall i | 0 <= i < |ls| ensures Holds(Step, ls'[i], painted[i], theme, false) {
      EachAt(Step, ls, painted, theme, true, |ls|, i);
      assert ls'[i] == Stilled(ls[i]);
      if !ls[i].dead { StilledStep(ls[i], painted[i], theme); }
    }
    EachIntro(Step, ls', painted, theme, false, |ls|);
  }

  lemma EffectsOnInStep(ls: seq<Layer>, painted: seq<seq<Node>>, theme: Theme)
    requires |painted| == |ls| && AllInStep(ls, painted, theme, false)
    ensures AllInStep(ls, painted, theme, true) && !AnyActive(ls)
  {
    forall i | 0 <= i < |ls| ensures Holds(Step, ls[i], painted[i], theme, true) {
      EachAt(Step, ls, painted, theme, false, |ls|, i);
    }
    EachIntro(Step, ls, painted, theme, true, |ls|);
    forall i | 0 <= i < |ls| && !ls[i].dead ensures Settled(ls[i].anims) {
      EachAt(Step, ls, painted, theme, false, |ls|, i);
    }
  }

  /** With nothing running, switching effects keeps the picture. */
  lemma StilledQuiet(ls: seq<Layer>, ls': seq<Layer>)
    requires |ls| == |ls'| && forall i :: 0 <= i < |ls| ==> ls'[i] == Stilled(ls[i])
    ensures !AnyActive(ls') && forall i :: 0 <= i < |ls| ==> Settled(ls'[i].anims) && ls'[i] == ls[i].(anims := ls'[i].anims)
  {
    forall i | 0 <= i < |ls| ensures Settled(ls'[i].anims) {
      assert ls'[i].anims == Stilled(ls[i]).anims;
    }
  }

  lemma SwitchedShown(fb: array2<Pixel>, clear: Pixel, ls: seq<Layer>, ls': seq<Layer>, painted: seq<seq<Node>>, theme: Theme,
                      on: bool, on': bool, pending: seq<Rect>)
    requires |painted| == |ls| == |ls'| && !AnyActive(ls) && !AnyActive(ls')
    requires forall i :: 0 <= i < |ls| ==> ls'[i] == ls[i].(anims := ls'[i].anims)
    requires ShownBy(fb, clear, ls, painted, theme, on, pending)
    ensures ShownBy(fb, clear, ls', painted, theme, on', pending)
  {
    forall x, y | 0 <= x < fb.Length1 && 0 <= y < fb.Length0 && !Covers(pending, x, y)
      ensures fb[y, x] == ScenePx(clear, ViewsOf(ls', painted, theme, on'), |ls|, x, y)
    {
      forall i | 0 <= i < |ls| && !ls[i].dead ensures !InZone(ls[i].anims, x, y) {
        assert Settled(ls[i].anims);
      }
      RowShown(fb, clear, ls, painted, theme, on, pending, fb.Length0, x, y);
      SettledScene(clear, ls, ls', painted, theme, on, on', x, y);
    }
    RowsIntro(fb, clear, ls', painted, theme, on', pending, fb.Length0);
  }
}
