// A diff that forgets a rectangle, played out from an empty table: two ids share a home
// slot, the first is deleted, and the hole hides the second from an insert that grows.
module Collision {
  import opened Pixels
  import opened Raster
  import opened Probing
  import opened SceneModel
  import opened RenderMap
  import opened Damage
  import opened Transitions
  import opened Diff
  import opened DiffCover
  import opened Layers
  import opened Unseen
  import DiffLimits

  // ---- What a growing insert does to coverage ---------------------------------

  /** Only entries of `id` are shown. */
  ghost predicate Dim(bag: multiset<RNode>, id: nat) { forall rn :: rn in bag && rn.key.Shown() ==> rn.id == id }

  /** A node that is not shown leaves damage and transitions alone, when its entry is not shown. */
  lemma DimStep(start: multiset<RNode>, p: Progress, bag: multiset<RNode>, keys: map<nat, Key>, mode: Mode, v: Node, id: nat)
    returns (q: Progress, bag': multiset<RNode>, keys': map<nat, Key>)
    requires p.model.Valid() && bag == Bag(p.model.slots) && Walking(start, bag, keys) && v.id !in keys
    requires !mode.effects && v.id != id && !KeyOf(v, mode.theme.sig).Shown() && Dim(bag, id)
    ensures q == DiffStep(p, mode, v) && q.model.Valid() && bag' == Bag(q.model.slots) && keys' == keys[v.id := KeyOf(v, mode.theme.sig)]
    ensures Walking(start, bag', keys') && q.fx == p.fx && Dim(bag', id)
    ensures forall rn :: rn in bag' && rn.id == id ==> rn in bag
  {
    var m';
    m', bag', keys' := StepKeepsTable(start, p.model, bag, keys, v, mode.theme.sig);
    q := DiffStep(p, mode, v);
    var was, now := StepTrades(p.model, v, mode.theme.sig);
    var at := Find(p.model, v.id);
    if at >= 0 { BagHas(p.model.slots, p.model.slots[at].rn); }
  }

  /** Of the first n nodes none is shown. */
  ghost predicate Unlit(nodes: seq<Node>, n: nat, sig: TextSig)
    requires n <= |nodes|
  {
    n > 0 ==> Unlit(nodes, n - 1, sig) && !KeyOf(nodes[n - 1], sig).Shown()
  }

  lemma DimNext(start: multiset<RNode>, p: Progress, q: Progress, bag: multiset<RNode>, mode: Mode, nodes: seq<Node>, id: nat, j: nat)
    returns (r: Progress, bag': multiset<RNode>)
    requires j < |nodes| && Distinct(nodes) && p.model.Valid() && start == Bag(p.model.slots) && Diff.Unique(start)
    requires !mode.effects && (forall rn :: rn in start ==> !rn.seen)
    requires nodes[j].id != id && !KeyOf(nodes[j], mode.theme.sig).Shown()
    requires q == Walk(p, mode, nodes, j) && bag == Bag(q.model.slots) && Dim(bag, id)
    ensures r == Walk(p, mode, nodes, j + 1) && r.fx == q.fx && bag' == Bag(r.model.slots) && Dim(bag', id)
  {
    var w, b, keys := WalkKeepsTable(p.model, nodes, j, mode.theme.sig);
    FreshId(nodes, j, mode.theme.sig);
    var keys';
    r, bag', keys' := DimStep(start, q, bag, keys, mode, nodes[j], id);
  }

  lemma {:induction false} DimWalk(start: multiset<RNode>, p: Progress, mode: Mode, nodes: seq<Node>, id: nat, j: nat)
    returns (q: Progress, bag: multiset<RNode>)
    requires j < |nodes| && Distinct(nodes) && p.model.Valid() && start == Bag(p.model.slots) && Diff.Unique(start)
    requires !mode.effects && (forall rn :: rn in start ==> !rn.seen) && id == nodes[|nodes| - 1].id && Dim(start, id)
    requires Unlit(nodes, j, mode.theme.sig)
    ensures q == Walk(p, mode, nodes, j) && q.fx == p.fx && bag == Bag(q.model.slots) && Dim(bag, id)
  {
    if j == 0 {
      q, bag := p, start;
    } else {
      var q0, bag0 := DimWalk(start, p, mode, nodes, id, j - 1);
      q, bag := DimNext(start, p, q0, bag0, mode, nodes, id, j - 1);
    }
  }

  /** The entries of `id` have been visited. */
  ghost predicate Renewed(bag: multiset<RNode>, id: nat) { forall rn :: rn in bag && rn.id == id ==> rn.seen }

  lemma OverwriteStep(start: multiset<RNode>, p: Progress, bag: multiset<RNode>, keys: map<nat, Key>, mode: Mode, v: Node)
    returns (q: Progress, bag': multiset<RNode>, keys': map<nat, Key>)
    requires p.model.Valid() && bag == Bag(p.model.slots) && Walking(start, bag, keys) && v.id !in keys && !mode.effects
    requires Dim(bag, v.id) && LostInGrowth(p.model, v.id)
    ensures q == DiffStep(p, mode, v) && q.model.Valid() && bag' == Bag(q.model.slots) && keys' == keys[v.id := KeyOf(v, mode.theme.sig)]
    ensures Walking(start, bag', keys') && Dim(bag', v.id) && Renewed(bag', v.id)
    ensures q.fx == if VisibleFlag(v.flags) then p.fx.(damage := Add(p.fx.damage, v.rect)) else p.fx
  {
    var m';
    m', bag', keys' := StepKeepsTable(start, p.model, bag, keys, v, mode.theme.sig);
    q := DiffStep(p, mode, v);
    DiffLimits.RefindIff(p.model, v.id);
    InsertAdds(p.model, FreshEntry(v, mode.theme.sig));
    var was := Roomy(p.model).slots[InsertSpot(p.model, v.id)].rn;
    OnlyNew(bag, was, FreshEntry(v, mode.theme.sig), bag');
  }

  /** Trading the one unseen entry of an id for a seen one. */
  lemma OnlyNew(bag: multiset<RNode>, was: RNode, now: RNode, next: multiset<RNode>)
    requires Diff.Unique(bag) && was in bag && was.id == now.id && now.seen && now !in bag
    requires forall rn :: rn in bag && rn.id == now.id ==> !rn.seen
    requires next == bag - multiset{was} + multiset{now} && Dim(bag, now.id)
    ensures Dim(next, now.id) && Renewed(next, now.id)
  {
    assert bag[was] == 1;
    assert forall rn :: rn in next && rn != now ==> rn in bag;
  }

  lemma {:induction false} RenewedSweep(p: Progress, mode: Mode, n: nat, id: nat)
    requires n <= |p.model.slots| && Dim(Bag(p.model.slots), id) && Renewed(Bag(p.model.slots), id)
    ensures Sweep(p, mode, n).fx == p.fx
  {
    if n > 0 {
      RenewedSweep(p, mode, n - 1, id);
      if Gone(p.model.slots[n - 1]) { BagHas(p.model.slots, p.model.slots[n - 1].rn); }
    }
  }

  /** The whole diff in that case damages the new rectangle at most. */
  lemma OverwriteDamage(start: multiset<RNode>, p: Progress, mode: Mode, nodes: seq<Node>, v: Node) returns (fx: Fx)
    requires p.model.Valid() && start == Bag(p.model.slots) && Diff.Unique(start) && (forall rn :: rn in start ==> !rn.seen)
    requires nodes != [] && v == nodes[|nodes| - 1] && Distinct(nodes) && !mode.effects && Dim(start, v.id)
    requires Unlit(nodes, |nodes| - 1, mode.theme.sig)
    requires LostInGrowth(WalkTable(p.model, nodes, |nodes| - 1, mode.theme.sig), v.id)
    ensures fx == DiffLayer(p, mode, nodes).fx
    ensures fx == if VisibleFlag(v.flags) then p.fx.(damage := Add(p.fx.damage, v.rect)) else p.fx
  {
    var k := |nodes| - 1;
    var w, bag := DimWalk(start, p, mode, nodes, v.id, k);
    var _, _, keys := WalkKeepsTable(p.model, nodes, k, mode.theme.sig);
    FreshId(nodes, k, mode.theme.sig);
    var u, bag', keys' := OverwriteStep(start, w, bag, keys, mode, v);
    assert u == Walk(p, mode, nodes, |nodes|);
    RenewedSweep(u, mode, |u.model.slots|, v.id);
    fx := u.fx;
  }

  /** The table's entries are shown only where the painted states are. */
  lemma DimStart(m: Map, painted: map<nat, Key>, id: nat)
    requires Models(m, painted) && forall i :: i in painted && i != id ==> !painted[i].Shown()
    ensures Dim(Bag(m.slots), id) && Diff.Unique(Bag(m.slots)) && forall rn :: rn in Bag(m.slots) ==> !rn.seen
  {
  }

  lemma OneRect(was: Fx, fx: Fx, v: Node, x: int, y: int)
    requires Settled(was.anims) && was.damage == [] && !v.rect.Has(x, y)
    requires fx == if VisibleFlag(v.flags) then was.(damage := Add(was.damage, v.rect)) else was
    ensures !Marked(fx, x, y)
  {
  }

  lemma MovedAway(painted: map<nat, Key>, nodes: seq<Node>, v: Node, sig: TextSig, x: int, y: int)
    requires nodes != [] && v == nodes[|nodes| - 1] && Distinct(nodes) && v.id in painted
    requires AtPixel(painted[v.id], x, y) && !v.rect.Has(x, y)
    ensures !SameStates(painted, Keys(nodes, |nodes|, sig), x, y)
  {
    KeysAre(nodes, |nodes|, sig);
  }

  /** If only the last node, old and new, is shown, and its step overwrites the entry a hole
      hides, then a pixel of its old rectangle outside the new one is left unmarked by the whole
      diff, although the node is no longer there. */
  lemma OverwriteUncovers(p: Progress, mode: Mode, painted: map<nat, Key>, nodes: seq<Node>, v: Node, x: int, y: int)
    requires Models(p.model, painted) && Distinct(nodes) && !mode.effects && Settled(p.fx.anims) && p.fx.damage == []
    requires nodes != [] && v == nodes[|nodes| - 1] && LostInGrowth(WalkTable(p.model, nodes, |nodes| - 1, mode.theme.sig), v.id)
    requires (forall id :: id in painted && id != v.id ==> !painted[id].Shown()) && Unlit(nodes, |nodes| - 1, mode.theme.sig)
    requires v.id in painted && AtPixel(painted[v.id], x, y) && !v.rect.Has(x, y)
    ensures !Marked(DiffLayer(p, mode, nodes).fx, x, y)
    ensures !SameStates(painted, Keys(nodes, |nodes|, mode.theme.sig), x, y)
  {
    DimStart(p.model, painted, v.id);
    var fx := OverwriteDamage(Bag(p.model.slots), p, mode, nodes, v);
    OneRect(p.fx, fx, v, x, y);
    MovedAway(painted, nodes, v, mode.theme.sig, x, y);
  }

  // ---- A run that gets there --------------------------------------------------

  lemma {:induction false} ShiftBack(h: nat, k: nat)
    ensures ShiftRight(h * Pow2(k), k) == h && ShiftRight(0, k) == 0
  {
    if k > 0 {
      assert h * Pow2(k) == 2 * (h * Pow2(k - 1));
      ShiftBack(h, k - 1);
    }
  }

  /** An id whose home among 64 slots is h: the hash is undone modulo 2^32. */
  function IdAt(h: nat): nat { 17 * h % 64 * 0x400_0000 }

  /** A second id at home in slot 0. */
  const COLLIDER: nat := 244002641

  lemma Homes(h: nat)
    requires h < 64
    ensures HomeSlot(IdAt(h), 6) == h && HomeSlot(COLLIDER, 6) == 0
  {
    var q, m := 17 * h / 64, 17 * h % 64;
    assert m * 0x400_0000 * 2654435761 == h * 0x400_0000 + (13 * h - 49 * q + 41475558 * m) * 0x1_0000_0000;
    assert Scramble(IdAt(h)) == h * 0x400_0000;
    assert Scramble(COLLIDER) == 1;
    assert Pow2(26) == 0x400_0000 by {
      Pow2Nibble(2); Pow2Nibble(6); Pow2Nibble(10); Pow2Nibble(14); Pow2Nibble(18); Pow2Nibble(22);
      assert Pow2(2) == 4;
    }
    ShiftBack(h, 26);
    ShiftBack(0, 25);
  }

  /** A node that only its id, its visible flag and its rectangle set apart. */
  function Box(id: nat, flags: Byte, rect: Rect): Node { Node(id, 0, flags, 0, NO_TEXTURE, rect, 255, NOWHERE, []) }

  const NOWHERE := Rect(0, 0, 0, 0)
  const VISIBLE: Byte := 4

  /** Hidden nodes at home in slots 0 and 2 to 44, then a visible one at home in slot 0. */
  function Crowd(rect: Rect): (nodes: seq<Node>)
    ensures |nodes| == 45 && nodes[44] == Box(COLLIDER, VISIBLE, rect)
    ensures forall j :: 0 <= j < 44 ==> nodes[j] == Box(IdAt(if j == 0 then 0 else j + 1), 0, NOWHERE)
  {
    seq(44, j requires 0 <= j < 44 => Box(IdAt(if j == 0 then 0 else j + 1), 0, NOWHERE)) + [Box(COLLIDER, VISIBLE, rect)]
  }

  /** Where node j of the crowd goes in a table of 64. */
  function SpotOf(j: nat): (s: nat)
    requires j < 45
    ensures s < 45
  {
    if j == 0 then 0 else if j == 44 then 1 else j + 1
  }

  /** The table with the first k nodes of the crowd, seen. */
  ghost predicate Holding(m: Map, rect: Rect, sig: TextSig, k: nat)
    requires k <= 45
  {
    && m.shift == 6 && |m.slots| == 64 && m.used == k
    && (forall j :: 0 <= j < k ==> m.slots[SpotOf(j)] == Used(FreshEntry(Crowd(rect)[j], sig)))
    && (forall j :: k <= j < 45 ==> m.slots[SpotOf(j)] == Free)
    && (forall i :: 45 <= i < 64 ==> m.slots[i] == Free)
  }

  lemma Sizes()
    ensures Pow2(6) == 64
  {
    assert Pow2(3) == 8;
  }

  lemma FillStep(m: Map, rect: Rect, sig: TextSig, k: nat) returns (r: Map)
    requires k < 45 && Holding(m, rect, sig, k)
    ensures |m.slots| == Pow2(m.shift) && r == StepTable(m, Crowd(rect)[k], sig) && Holding(r, rect, sig, k + 1)
  {
    Sizes();
    var v := Crowd(rect)[k];
    Homes(if k == 44 then 0 else SpotOf(k));
    if k == 44 {
      assert m.slots[SpotOf(0)].Used? && m.slots[SpotOf(44)].Free?;
      assert FindFrom(m.slots, 0, v.id, 1) == -1 && SpotFrom(m.slots, 0, v.id, true, 1) == 1;
    } else {
      assert m.slots[SpotOf(k)].Free?;
    }
    r := StepTable(m, v, sig);
  }

  lemma {:induction false} FillWalk(rect: Rect, sig: TextSig, k: nat) returns (r: Map)
    requires k <= 45
    ensures |Blank(64)| == Pow2(6) && r == WalkTable(Map(Blank(64), 6, 0), Crowd(rect), k, sig) && Holding(r, rect, sig, k)
  {
    Sizes();
    if k == 0 {
      r := Map(Blank(64), 6, 0);
    } else {
      r := FillWalk(rect, sig, k - 1);
      r := FillStep(r, rect, sig, k - 1);
    }
  }

  /** Different nodes of the crowd, and the newcomer at home in slot 45, have different ids. */
  lemma CrowdDistinct(rect: Rect)
    ensures Distinct(Crowd(rect)) && IdAt(45) != COLLIDER
  {
    var nodes := Crowd(rect);
    Homes(45);
    forall i, j | 0 <= i < j < 45 ensures nodes[i].id != nodes[j].id {
      Homes(if i == 0 then 0 else i + 1);
      Homes(if j == 0 || j == 44 then 0 else j + 1);
    }
  }

  // ---- Three diffs ------------------------------------------------------------

  const EMPTY := Map(Blank(64), 6, 0)

  /** The table's shape between frames: which slots hold which ids, none marked seen. */
  ghost predicate Rows(m: Map, first: bool) {
    && m.shift == 6 && |m.slots| == 64
    && m.slots[0].Used? == first && (first ==> m.slots[0].rn.id == 0)
    && (forall j :: 1 <= j < 45 ==> m.slots[SpotOf(j)].Used? && m.slots[SpotOf(j)].rn.id == Crowd(NOWHERE)[j].id)
    && (forall i :: 45 <= i < 64 ==> m.slots[i] == Free)
  }

  lemma NoKeys(sig: TextSig)
    ensures Models(EMPTY, map[])
  {
    Sizes();
    BlankBag(Blank(64));
  }

  lemma FirstShape(w: Map, r: Map, rect: Rect, sig: TextSig)
    requires Holding(w, rect, sig, 45) && r == SweepTable(w, |w.slots|)
    ensures Rows(r, true)
  {
    assert w.slots[SpotOf(0)].Used?;
    forall j | 1 <= j < 45 ensures r.slots[SpotOf(j)].Used? && r.slots[SpotOf(j)].rn.id == Crowd(NOWHERE)[j].id {
      assert w.slots[SpotOf(j)] == Used(FreshEntry(Crowd(rect)[j], sig));
    }
  }

  /** First frame: the whole crowd. */
  lemma FirstDiff(fx: Fx, mode: Mode, rect: Rect, nodes: seq<Node>) returns (m: Map)
    requires |EMPTY.slots| == Pow2(EMPTY.shift) && nodes == Crowd(rect)
    ensures m == DiffLayer(Progress(EMPTY, fx), mode, nodes).model && Rows(m, true)
    ensures Distinct(nodes) && Models(m, Keys(nodes, |nodes|, mode.theme.sig))
  {
    var w := FillWalk(rect, mode.theme.sig, |nodes|);
    NoKeys(mode.theme.sig);
    CrowdDistinct(rect);
    DiffModels(Progress(EMPTY, fx), mode, map[], nodes);
    m := SweepTable(w, |w.slots|);
    FirstShape(w, m, rect, mode.theme.sig);
  }

  lemma MeetsRow(m: Map, j: nat)
    requires 1 <= j < 45 && Rows(m, true)
    ensures |m.slots| == Pow2(m.shift) && Find(m, Crowd(NOWHERE)[j].id) == SpotOf(j)
  {
    Sizes();
    Homes(if j == 44 then 0 else SpotOf(j));
    if j == 44 { assert FindFrom(m.slots, 0, COLLIDER, 1) == 1; }
  }

  lemma MeetsKey(m: Map, keys: map<nat, Key>, at: nat)
    requires Models(m, keys) && at < |m.slots| && m.slots[at].Used?
    ensures m.slots[at].rn.id in keys && m.slots[at].rn.key == keys[m.slots[at].rn.id]
  {
    BagHas(m.slots, m.slots[at].rn);
  }

  /** The rest of the crowd is met where it lies. */
  lemma RestMet(m: Map, rect: Rect, nodes: seq<Node>, rest: seq<Node>, sig: TextSig)
    requires nodes == Crowd(rect) && rest == nodes[1..] && Distinct(nodes) && Rows(m, true) && Models(m, Keys(nodes, |nodes|, sig))
    ensures |m.slots| == Pow2(m.shift)
    ensures forall j :: 0 <= j < |rest| ==> Met(m, rest[j], sig) && Find(m, rest[j].id) == SpotOf(j + 1)
  {
    Sizes();
    KeysAre(nodes, |nodes|, sig);
    forall j | 0 <= j < |rest| ensures Met(m, rest[j], sig) && Find(m, rest[j].id) == SpotOf(j + 1) {
      MeetsRow(m, j + 1);
      assert rest[j] == nodes[j + 1] && nodes[j + 1].id == Crowd(NOWHERE)[j + 1].id;
      MeetsKey(m, Keys(nodes, |nodes|, sig), SpotOf(j + 1));
    }
  }

  lemma SecondShape(m: Map, w: Map, r: Map, rest: seq<Node>, keys: map<nat, Key>)
    requires Rows(m, true) && |m.slots| == Pow2(m.shift) && Mirrors(w, m) && |rest| == 44
    requires forall j :: 0 <= j < |rest| ==> Find(m, rest[j].id) == SpotOf(j + 1)
    requires SeenAll(w, m, rest, |rest|) && r == SweepTable(w, |w.slots|) && Models(r, keys) && 0 !in keys
    ensures Rows(r, false)
  {
    forall j | 1 <= j < 45 ensures r.slots[SpotOf(j)].Used? && r.slots[SpotOf(j)].rn.id == Crowd(NOWHERE)[j].id {
      SeenEach(w, m, rest, |rest|, j - 1);
    }
    if r.slots[0].Used? { MeetsKey(r, keys, 0); }
  }

  lemma FirstGone(rect: Rect, nodes: seq<Node>, rest: seq<Node>, sig: TextSig)
    requires nodes == Crowd(rect) && rest == nodes[1..] && Distinct(nodes)
    ensures 0 !in Keys(rest, |rest|, sig)
  {
    assert IdAt(0) == 0;
    var first := nodes[0];
    assert first == Box(IdAt(0), 0, NOWHERE);
    KeysAre(rest, |rest|, sig);
  }

  lemma SecondModels(m: Map, p: Progress, mode: Mode, nodes: seq<Node>, rest: seq<Node>, w: Progress) returns (r: Map)
    requires |m.slots| == Pow2(m.shift) && p.model == m && w == Walk(p, mode, rest, |rest|)
    requires |nodes| == 45 && rest == nodes[1..] && Distinct(nodes) && Models(m, Keys(nodes, |nodes|, mode.theme.sig))
    ensures r == DiffLayer(p, mode, rest).model == SweepTable(w.model, |w.model.slots|)
    ensures Distinct(rest) && Models(r, Keys(rest, |rest|, mode.theme.sig)) && r.used == 44
  {
    DiffModels(p, mode, Keys(nodes, |nodes|, mode.theme.sig), rest);
    r := SweepTable(w.model, |w.model.slots|);
  }

  /** Second frame: the first of the crowd is gone, and slot 0 is free. */
  lemma SecondDiff(m: Map, fx: Fx, mode: Mode, rect: Rect, nodes: seq<Node>, rest: seq<Node>) returns (r: Map)
    requires nodes == Crowd(rect) && rest == nodes[1..] && Distinct(nodes)
    requires Rows(m, true) && Models(m, Keys(nodes, |nodes|, mode.theme.sig))
    ensures |m.slots| == Pow2(m.shift) && r == DiffLayer(Progress(m, fx), mode, rest).model && Rows(r, false)
    ensures Distinct(rest) && Models(r, Keys(rest, |rest|, mode.theme.sig)) && r.used == 44
  {
    RestMet(m, rect, nodes, rest, mode.theme.sig);
    var p := Progress(m, fx);
    var w := MetWalk(p, m, mode, rest, |rest|);
    r := SecondModels(m, p, mode, nodes, rest, w);
    FirstGone(rect, nodes, rest, mode.theme.sig);
    SecondShape(m, w.model, r, rest, Keys(rest, |rest|, mode.theme.sig));
  }

  /** The newcomer fills the table to the brim without filling the hole. */
  lemma Newcomer(m: Map, sig: TextSig) returns (r: Map)
    requires Rows(m, false) && m.used == 44 && m.Valid()
    ensures r == StepTable(m, Box(IdAt(45), 0, NOWHERE), sig) && LostInGrowth(r, COLLIDER)
  {
    Sizes();
    Homes(45);
    var v := Box(IdAt(45), 0, NOWHERE);
    r := StepTable(m, v, sig);
    assert r.slots == m.slots[45 := Used(FreshEntry(v, sig))] && r.used == 45;
    assert SpotOf(44) == 1 && r.slots[1] == m.slots[1];
    assert r.slots[1].rn.id == COLLIDER;
    BagHas(r.slots, r.slots[1].rn);
    HoldsIff(r.slots, COLLIDER);
  }

  /** From an empty table: a crowd of 45, then its first node deleted, then one newcomer and the
      visible node moved.  The pixel it leaves is damaged by no diff, and the old and the new
      states disagree there. */
  lemma RunForgets(fx: Fx, mode: Mode, was: Rect, now: Rect, nodes: seq<Node>, last: seq<Node>, x: int, y: int)
    requires !mode.effects && Settled(fx.anims) && fx.damage == [] && was.Has(x, y) && !now.Has(x, y)
    requires nodes == Crowd(was) && last == [Box(IdAt(45), 0, NOWHERE), Box(COLLIDER, VISIBLE, now)]
    ensures |EMPTY.slots| == Pow2(EMPTY.shift)
    ensures var m1 := DiffLayer(Progress(EMPTY, fx), mode, nodes).model;
            var m2 := DiffLayer(Progress(m1, fx), mode, nodes[1..]).model;
            && !Marked(DiffLayer(Progress(m2, fx), mode, last).fx, x, y)
            && !SameStates(Keys(nodes[1..], |nodes| - 1, mode.theme.sig), Keys(last, |last|, mode.theme.sig), x, y)
  {
    Sizes();
    var rest, v := nodes[1..], last[1];
    var m1 := FirstDiff(fx, mode, was, nodes);
    var m2 := SecondDiff(m1, fx, mode, was, nodes, rest);
    LastNodes(now, last, mode.theme.sig);
    Brim(m2, last, v, mode.theme.sig);
    RestKeys(was, nodes, rest, mode.theme.sig);
    ColliderShown(was, mode.theme.sig, x, y);
    OverwriteUncovers(Progress(m2, fx), mode, Keys(rest, |rest|, mode.theme.sig), last, v, x, y);
  }

  lemma LastNodes(now: Rect, last: seq<Node>, sig: TextSig)
    requires last == [Box(IdAt(45), 0, NOWHERE), Box(COLLIDER, VISIBLE, now)]
    ensures Distinct(last) && Unlit(last, |last| - 1, sig) && last[1] == Box(COLLIDER, VISIBLE, now)
  {
    CrowdDistinct(now);
    assert last[0] == Box(IdAt(45), 0, NOWHERE);
  }

  lemma ColliderShown(rect: Rect, sig: TextSig, x: int, y: int)
    requires rect.Has(x, y)
    ensures AtPixel(KeyOf(Box(COLLIDER, VISIBLE, rect), sig), x, y)
  {
    assert VisibleFlag(VISIBLE) && !rect.Empty();
  }

  lemma Brim(m: Map, last: seq<Node>, v: Node, sig: TextSig)
    requires |last| == 2 && last[0] == Box(IdAt(45), 0, NOWHERE) && last[1] == v && v.id == COLLIDER
    requires Rows(m, false) && m.used == 44 && m.Valid()
    ensures LostInGrowth(WalkTable(m, last, |last| - 1, sig), v.id)
  {
    var w := Newcomer(m, sig);
    assert WalkTable(m, last, 0, sig) == m;
    assert WalkTable(m, last, |last| - 1, sig) == StepTable(m, last[0], sig) == w;
  }

  /** In the rest of the crowd only the collider is shown. */
  lemma RestKeys(rect: Rect, nodes: seq<Node>, rest: seq<Node>, sig: TextSig)
    requires nodes == Crowd(rect) && rest == nodes[1..] && Distinct(rest)
    ensures var keys := Keys(rest, |rest|, sig);
            && COLLIDER in keys && keys[COLLIDER] == KeyOf(Box(COLLIDER, VISIBLE, rect), sig)
            && forall id :: id in keys && id != COLLIDER ==> !keys[id].Shown()
  {
    KeysAre(rest, |rest|, sig);
    assert rest[43] == nodes[44];
  }
}
