// A store change the diff cannot see: nothing is damaged, so nothing is repainted.
module Unseen {
  import opened Raster
  import opened SceneModel
  import opened Probing
  import opened RenderMap
  import opened Damage
  import opened Transitions
  import opened Diff
  import opened DiffCover
  import opened Layers
  import opened Frames

  /** The find meets an entry in exactly this state. */
  predicate Met(m: Map, v: Node, sig: TextSig)
    requires |m.slots| == Pow2(m.shift)
  {
    Find(m, v.id) >= 0 && m.slots[Find(m, v.id)].rn.key == KeyOf(v, sig)
  }

  /** The walk will meet every node in the state it has, and every entry. */
  ghost predicate AllMet(m: Map, nodes: seq<Node>, sig: TextSig)
    requires |m.slots| == Pow2(m.shift)
  {
    && (forall k :: 0 <= k < |nodes| ==> Met(m, nodes[k], sig))
    && (forall i :: 0 <= i < |m.slots| && m.slots[i].Used? ==> exists k :: 0 <= k < |nodes| && Find(m, nodes[k].id) == i)
  }

  /** The same entries in the same slots, and as many; texts, opacities and marks may differ. */
  ghost predicate Mirrors(m: Map, was: Map) {
    && m.shift == was.shift && m.used == was.used && |m.slots| == |was.slots|
    && forall i :: 0 <= i < |m.slots| ==>
         if was.slots[i].Used? then m.slots[i].Used? && m.slots[i].rn.id == was.slots[i].rn.id && m.slots[i].rn.key == was.slots[i].rn.key
         else m.slots[i].Free?
  }

  lemma {:induction false} FindMirrors(m: Map, was: Map, home: nat, id: nat, i: nat)
    requires Mirrors(m, was) && home < |m.slots|
    ensures FindFrom(m.slots, home, id, i) == FindFrom(was.slots, home, id, i)
    decreases |m.slots| - i
  {
    if i < |m.slots| { FindMirrors(m, was, home, id, i + 1); }
  }

  predicate SeenAt(m: Map, i: int) { 0 <= i < |m.slots| && m.slots[i].Used? && m.slots[i].rn.seen }

  lemma MetStep(p: Progress, was: Map, mode: Mode, v: Node) returns (q: Progress)
    requires |was.slots| == Pow2(was.shift) && Mirrors(p.model, was) && Met(was, v, mode.theme.sig)
    ensures q == DiffStep(p, mode, v) && Mirrors(q.model, was) && q.fx == p.fx
    ensures SeenAt(q.model, Find(was, v.id)) && forall i :: SeenAt(p.model, i) ==> SeenAt(q.model, i)
  {
    FindMirrors(p.model, was, HomeSlot(v.id, was.shift), v.id, 0);
    q := DiffStep(p, mode, v);
  }

  /** The first k nodes have been met. */
  ghost predicate SeenAll(m: Map, was: Map, nodes: seq<Node>, k: nat)
    requires k <= |nodes| && |was.slots| == Pow2(was.shift)
  {
    k > 0 ==> SeenAll(m, was, nodes, k - 1) && SeenAt(m, Find(was, nodes[k - 1].id))
  }

  lemma {:induction false} SeenStays(m: Map, m': Map, was: Map, nodes: seq<Node>, k: nat)
    requires k <= |nodes| && |was.slots| == Pow2(was.shift) && SeenAll(m, was, nodes, k)
    requires forall i :: SeenAt(m, i) ==> SeenAt(m', i)
    ensures SeenAll(m', was, nodes, k)
  {
    if k > 0 { SeenStays(m, m', was, nodes, k - 1); }
  }

  lemma {:induction false} SeenEach(m: Map, was: Map, nodes: seq<Node>, k: nat, j: nat)
    requires j < k <= |nodes| && |was.slots| == Pow2(was.shift) && SeenAll(m, was, nodes, k)
    ensures SeenAt(m, Find(was, nodes[j].id))
  {
    if j < k - 1 { SeenEach(m, was, nodes, k - 1, j); }
  }

  lemma {:induction false} MetWalk(p: Progress, was: Map, mode: Mode, nodes: seq<Node>, k: nat) returns (q: Progress)
    requires k <= |nodes| && was == p.model && |was.slots| == Pow2(was.shift)
    requires forall j :: 0 <= j < k ==> Met(was, nodes[j], mode.theme.sig)
    ensures q == Walk(p, mode, nodes, k) && Mirrors(q.model, was) && q.fx == p.fx && SeenAll(q.model, was, nodes, k)
  {
    if k == 0 {
      q := p;
    } else {
      var r := MetWalk(p, was, mode, nodes, k - 1);
      q := MetStep(r, was, mode, nodes[k - 1]);
      SeenStays(r.model, q.model, was, nodes, k - 1);
    }
  }

  lemma {:induction false} SeenSweep(p: Progress, mode: Mode, n: nat)
    requires n <= |p.model.slots| && forall i :: 0 <= i < n ==> !Gone(p.model.slots[i])
    ensures Sweep(p, mode, n).fx == p.fx
  {
    if n > 0 { SeenSweep(p, mode, n - 1); }
  }

  /** A walk that meets everything damages nothing and moves no transition. */
  lemma MetDiff(p: Progress, mode: Mode, nodes: seq<Node>)
    requires |p.model.slots| == Pow2(p.model.shift) && AllMet(p.model, nodes, mode.theme.sig)
    ensures DiffLayer(p, mode, nodes).fx == p.fx
  {
    var w := MetWalk(p, p.model, mode, nodes, |nodes|);
    forall i | 0 <= i < |w.model.slots| ensures !Gone(w.model.slots[i]) {
      if p.model.slots[i].Used? {
        var k :| 0 <= k < |nodes| && Find(p.model, nodes[k].id) == i;
        SeenEach(w.model, p.model, nodes, |nodes|, k);
      }
    }
    SeenSweep(w, mode, |w.model.slots|);
  }

  /** If the table describes the painted nodes, the new ones have the same states, and no hole
      hides an entry, then the walk meets everything. */
  lemma SameKeysMet(m: Map, painted: seq<Node>, nodes: seq<Node>, theme: Theme)
    requires Models(m, KeysOf(painted, theme)) && SameToModel(painted, nodes, theme)
    requires forall k :: 0 <= k < |nodes| ==> Find(m, nodes[k].id) >= 0
    ensures AllMet(m, nodes, theme.sig)
  {
    var keys := KeysOf(nodes, theme);
    KeysAre(nodes, |nodes|, theme.sig);
    forall k | 0 <= k < |nodes| ensures Met(m, nodes[k], theme.sig) {
      BagHas(m.slots, m.slots[Find(m, nodes[k].id)].rn);
    }
    forall i | 0 <= i < |m.slots| && m.slots[i].Used? ensures exists k :: 0 <= k < |nodes| && Find(m, nodes[k].id) == i {
      var id := m.slots[i].rn.id;
      BagHas(m.slots, m.slots[i].rn);
      assert id in keys;
      var k :| 0 <= k < |nodes| && nodes[k].id == id;
      var at := Find(m, id);
      BagHas(m.slots, m.slots[at].rn);
      if at < i { GoneDiffer(m.slots, at, i); } else if i < at { GoneDiffer(m.slots, i, at); }
    }
  }

  // ---- A frame over such changes ----------------------------------------------

  /** A layer that rests, or whose store moved in a way its diff will not see. */
  ghost predicate Blind(l: Layer, theme: Theme) {
    |l.model.slots| == Pow2(l.model.shift) && (Changed(l) ==> AllMet(l.model, l.store.nodes, theme.sig))
    && (!l.dead ==> Settled(l.anims))
  }

  ghost predicate AllBlind(ls: seq<Layer>, theme: Theme) { forall i :: 0 <= i < |ls| ==> Blind(ls[i], theme) }

  lemma BlindDiffed(l: Layer, theme: Theme, effects: bool)
    requires Blind(l, theme)
    ensures Diffed(l, theme, effects, []).1 == [] && Diffed(l, theme, effects, []).0 == l.(model := Diffed(l, theme, effects, []).0.model)
  {
    if Changed(l) { MetDiff(Start(l, []), ModeOf(l, theme, effects), l.store.nodes); }
  }

  lemma {:induction false} BlindDiffs(ls: seq<Layer>, theme: Theme, effects: bool, n: nat)
    requires n <= |ls| && Sized(ls) && AllBlind(ls, theme)
    ensures var (r, d) := DiffAll(ls, theme, effects, [], n);
            d == [] && forall i :: 0 <= i < |ls| ==> r[i] == ls[i].(model := r[i].model)
  {
    if n > 0 {
      BlindDiffs(ls, theme, effects, n - 1);
      BlindDiffed(ls[n - 1], theme, effects);
    }
  }

  lemma {:induction false} IdleAdvance(fx: Fx, n: nat)
    requires n <= |fx.anims| && Settled(fx.anims)
    ensures Advance(fx, n).damage == fx.damage && ClearAll(fx, n).damage == fx.damage
    ensures Advance(fx, n).anims == fx.anims && ClearAll(fx, n).anims == fx.anims
  {
    if n > 0 {
      IdleAdvance(fx, n - 1);
      assert fx.anims[n - 1] in fx.anims;
    }
  }

  lemma {:induction false} IdleTicks(ls: seq<Layer>, n: nat)
    requires n <= |ls| && forall i :: 0 <= i < |ls| && !ls[i].dead ==> Settled(ls[i].anims)
    ensures TickAll(ls, [], n) == (ls, [])
  {
    if n > 0 {
      IdleTicks(ls, n - 1);
      if !ls[n - 1].dead { IdleAdvance(Fx(ls[n - 1].anims, []), |ls[n - 1].anims|); }
      assert Ticked(ls[n - 1], []) == (ls[n - 1], []) && ls[n - 1 := ls[n - 1]] == ls;
    }
  }

  /** A frame over blind layers, with nothing offered, damages nothing. */
  lemma BlindFrame(ls: seq<Layer>, theme: Theme, effects: bool)
    requires Sized(ls) && AllBlind(ls, theme)
    ensures var (r, d) := FrameOf(ls, theme, effects, []);
            d == [] && |r| == |ls| && forall i :: 0 <= i < |ls| ==> r[i] == ls[i].(model := r[i].model)
  {
    BlindDiffs(ls, theme, effects, |ls|);
    if effects { IdleTicks(DiffAll(ls, theme, effects, [], |ls|).0, |ls|); }
  }
}
