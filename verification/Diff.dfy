// The per-layer diff (diff_cb, map_sweep): walk the store against the render
// model, then sweep the entries the walk did not touch.
module Diff {
  import opened Pixels
  import opened Raster
  import opened SceneModel
  import opened RenderMap
  import opened Damage
  import opened Transitions

  /** What a diff walk updates: the layer's model, its transitions, the frame's damage. */
  datatype Progress = Progress(model: Map, fx: Fx)

  /** The theme, whether effects are on, and whether this store is replaying. */
  datatype Mode = Mode(theme: Theme, effects: bool, replaying: bool) {
    predicate Animates() { effects && !replaying }
  }

  // ---- One node ---------------------------------------------------------------

  /** Revive or retarget the transition a changed node is in. */
  function Retarget(fx: Fx, mode: Mode, v: Node, shown: bool): (r: Fx)
    ensures |r.anims| == |fx.anims|
  {
    var j := FindAnim(fx.anims, v.id);
    if !mode.effects || j < 0 then fx
    else if fx.anims[j].Exit? then
      var f := fx.(anims := fx.anims[j := Idle]);
      if !mode.replaying && shown then StartEnter(f, v.id, v.rect) else f
    else fx.(anims := fx.anims[j := Enter(v.id, fx.anims[j].t, v.rect)])
  }

  /** A content change damages the rectangle once; a move damages both ends. */
  function MoveDamage(damage: seq<Rect>, was: Key, now: Key): seq<Rect> {
    if was.Shown() then
      if now.Shown() && was.rect == now.rect then Add(damage, now.rect)
      else var d := Add(damage, was.rect); if now.Shown() then Add(d, now.rect) else d
    else if now.Shown() then Add(damage, now.rect)
    else damage
  }

  /** The table half of diff_cb. */
  function StepTable(m: Map, v: Node, sig: TextSig): (r: Map)
    requires |m.slots| == Pow2(m.shift)
    ensures |r.slots| == Pow2(r.shift)
  {
    var at := Find(m, v.id);
    if at < 0 then Insert(m, FreshEntry(v, sig))
    else m.(slots := m.slots[at := Used(Refreshed(m.slots[at].rn, v, sig))])
  }

  /** The transition and damage half of diff_cb. */
  function StepFx(p: Progress, mode: Mode, v: Node): (r: Fx)
    requires |p.model.slots| == Pow2(p.model.shift)
    ensures |r.anims| == |p.fx.anims|
  {
    var key := KeyOf(v, mode.theme.sig);
    var at := Find(p.model, v.id);
    if at < 0 then
      if mode.Animates() && key.Shown() then StartEnter(p.fx, v.id, v.rect)
      else if VisibleFlag(v.flags) then p.fx.(damage := Add(p.fx.damage, v.rect))
      else p.fx
    else
      var was := p.model.slots[at].rn.key;
      if was == key then p.fx
      else
        var fx := Retarget(p.fx, mode, v, key.Shown());
        fx.(damage := MoveDamage(fx.damage, was, key))
  }

  function DiffStep(p: Progress, mode: Mode, v: Node): (r: Progress)
    requires |p.model.slots| == Pow2(p.model.shift)
    ensures |r.model.slots| == Pow2(r.model.shift) && |r.fx.anims| == |p.fx.anims|
  {
    Progress(StepTable(p.model, v, mode.theme.sig), StepFx(p, mode, v))
  }

  function WalkTable(m: Map, nodes: seq<Node>, k: nat, sig: TextSig): (r: Map)
    requires k <= |nodes| && |m.slots| == Pow2(m.shift)
    ensures |r.slots| == Pow2(r.shift)
  {
    if k == 0 then m else StepTable(WalkTable(m, nodes, k - 1, sig), nodes[k - 1], sig)
  }

  /** The walk over the first k nodes. */
  function Walk(p: Progress, mode: Mode, nodes: seq<Node>, k: nat): (r: Progress)
    requires k <= |nodes| && |p.model.slots| == Pow2(p.model.shift)
    ensures r.model == WalkTable(p.model, nodes, k, mode.theme.sig)
    ensures |r.model.slots| == Pow2(r.model.shift) && |r.fx.anims| == |p.fx.anims|
  {
    if k == 0 then p else DiffStep(Walk(p, mode, nodes, k - 1), mode, nodes[k - 1])
  }

  // ---- The sweep --------------------------------------------------------------

  function ExitLook(theme: Theme, rn: RNode): Phantom {
    var st := ResolveStyle(theme, rn.key.style, rn.key.role);
    Phantom(st.fill, st.border, st.text, st.borderW, st.radius, rn.opacity, rn.key.tex, theme.snapshot(rn.texts))
  }

  function Swept(s: Slot): Slot {
    if s.Used? && s.rn.seen then Used(s.rn.(seen := false)) else Free
  }

  predicate Gone(s: Slot) { s.Used? && !s.rn.seen }

  function SweepFx(fx: Fx, mode: Mode, s: Slot): (r: Fx)
    ensures |r.anims| == |fx.anims|
  {
    if !Gone(s) || !s.rn.key.Shown() then fx
    else if mode.Animates() then StartExit(fx, s.rn.id, s.rn.key.rect, ExitLook(mode.theme, s.rn))
    else fx.(damage := Add(fx.damage, s.rn.key.rect))
  }

  function SweepTable(m: Map, n: nat): (r: Map)
    requires n <= |m.slots|
    ensures |r.slots| == |m.slots| && r.shift == m.shift
    ensures forall i :: 0 <= i < |m.slots| ==> r.slots[i] == if i < n then Swept(m.slots[i]) else m.slots[i]
  {
    if n == 0 then m
    else
      var q, s := SweepTable(m, n - 1), m.slots[n - 1];
      Map(q.slots[n - 1 := Swept(s)], q.shift, if Gone(s) && q.used > 0 then q.used - 1 else q.used)
  }

  /** The sweep of the first n slots. */
  function Sweep(p: Progress, mode: Mode, n: nat): (r: Progress)
    requires n <= |p.model.slots|
    ensures r.model == SweepTable(p.model, n) && |r.fx.anims| == |p.fx.anims|
  {
    if n == 0 then p
    else Progress(SweepTable(p.model, n), SweepFx(Sweep(p, mode, n - 1).fx, mode, p.model.slots[n - 1]))
  }

  /** One layer's whole diff: the walk in document order, then the sweep. */
  function DiffLayer(p: Progress, mode: Mode, nodes: seq<Node>): (r: Progress)
    requires |p.model.slots| == Pow2(p.model.shift)
    ensures |r.model.slots| == Pow2(r.model.shift) && |r.fx.anims| == |p.fx.anims|
  {
    var w := Walk(p, mode, nodes, |nodes|);
    Sweep(w, mode, |w.model.slots|)
  }

  // ---- The table after a diff -------------------------------------------------

  ghost predicate Distinct(nodes: seq<Node>) {
    forall i, j :: 0 <= i < j < |nodes| ==> nodes[i].id != nodes[j].id
  }

  /** The state of each of the first k nodes, by id. */
  ghost function Keys(nodes: seq<Node>, k: nat, sig: TextSig): map<nat, Key>
    requires k <= |nodes|
  {
    if k == 0 then map[] else Keys(nodes, k - 1, sig)[nodes[k - 1].id := KeyOf(nodes[k - 1], sig)]
  }

  lemma {:induction false} KeysAre(nodes: seq<Node>, k: nat, sig: TextSig)
    requires k <= |nodes| && Distinct(nodes)
    ensures var keys := Keys(nodes, k, sig);
            |keys| == k
            && (forall j :: 0 <= j < k ==> nodes[j].id in keys && keys[nodes[j].id] == KeyOf(nodes[j], sig))
            && (forall id :: id in keys ==> exists j :: 0 <= j < k && nodes[j].id == id)
  {
    if k > 0 {
      KeysAre(nodes, k - 1, sig);
    }
  }

  lemma FreshId(nodes: seq<Node>, k: nat, sig: TextSig)
    requires k < |nodes| && Distinct(nodes)
    ensures nodes[k].id !in Keys(nodes, k, sig)
  {
    KeysAre(nodes, k, sig);
  }

  /** Among entries with the same seen mark no id occurs twice. */
  ghost predicate Unique(bag: multiset<RNode>) {
    forall a, b :: a in bag && b in bag && a.id == b.id && a.seen == b.seen ==> a == b && bag[a] == 1
  }

  ghost predicate HasEntry(bag: multiset<RNode>, id: nat, seen: bool) {
    exists rn :: rn in bag && rn.id == id && rn.seen == seen
  }

  /** The model describes exactly these nodes: one entry each, with its current state. */
  ghost predicate Models(m: Map, keys: map<nat, Key>) {
    m.Valid() && Describes(Bag(m.slots), keys)
  }

  ghost predicate Describes(bag: multiset<RNode>, keys: map<nat, Key>) {
    && Unique(bag)
    && (forall rn :: rn in bag ==> !rn.seen && rn.id in keys && rn.key == keys[rn.id])
    && (forall id :: id in keys ==> HasEntry(bag, id, false))
  }

  /** Half way through a walk: visited nodes have one seen entry each, and what is
      unseen was in the table at the start. */
  ghost predicate Walking(start: multiset<RNode>, bag: multiset<RNode>, keys: map<nat, Key>) {
    && Unique(bag)
    && (forall rn :: rn in bag && rn.seen ==> rn.id in keys && rn.key == keys[rn.id])
    && (forall id :: id in keys ==> HasEntry(bag, id, true))
    && (forall rn :: rn in bag && !rn.seen ==> rn in start)
  }

  /** A bag with entry `now` in place of `was` (or beside the rest, when absent). */
  ghost predicate Trades(bag: multiset<RNode>, was: set<RNode>, now: RNode, next: multiset<RNode>) {
    && (forall x :: x in next <==> x == now || (x in bag && x !in was))
    && (forall x :: x in next && x != now ==> next[x] == bag[x])
    && next[now] == 1
  }

  lemma SwapTrades(bag: multiset<RNode>, rn: RNode, now: RNode)
    requires bag[rn] == 1 && now !in bag
    ensures Trades(bag, {rn}, now, bag - multiset{rn} + multiset{now})
  {
  }

  lemma HitTrades(m: Map, v: Node, sig: TextSig)
    requires m.Valid() && Unique(Bag(m.slots)) && Find(m, v.id) >= 0
    requires forall rn :: rn in Bag(m.slots) && rn.id == v.id ==> !rn.seen
    ensures StepTable(m, v, sig).Valid()
    ensures var rn := m.slots[Find(m, v.id)].rn;
            rn in Bag(m.slots) && Trades(Bag(m.slots), {rn}, Refreshed(rn, v, sig), Bag(StepTable(m, v, sig).slots))
  {
    var at := Find(m, v.id);
    var rn := m.slots[at].rn;
    var now := Refreshed(rn, v, sig);
    BagHas(m.slots, rn);
    BagUpdate(m.slots, at, Used(now));
    SwapTrades(Bag(m.slots), rn, now);
  }

  lemma AddTrades(bag: multiset<RNode>, now: RNode)
    requires now !in bag
    ensures Trades(bag, {}, now, bag + multiset{now})
  {
  }

  lemma MissTrades(m: Map, v: Node, sig: TextSig) returns (was: set<RNode>)
    requires m.Valid() && Unique(Bag(m.slots)) && Find(m, v.id) < 0
    requires forall rn :: rn in Bag(m.slots) && rn.id == v.id ==> !rn.seen
    ensures StepTable(m, v, sig).Valid()
    ensures forall x :: x in was ==> x in Bag(m.slots) && x.id == v.id
    ensures !Refinds(m, v.id) ==> was == {}
    ensures Trades(Bag(m.slots), was, FreshEntry(v, sig), Bag(StepTable(m, v, sig).slots))
  {
    var now := FreshEntry(v, sig);
    InsertAdds(m, now);
    was := InsertTrades(Bag(m.slots), m, now);
  }

  lemma InsertTrades(bag: multiset<RNode>, m: Map, now: RNode) returns (was: set<RNode>)
    requires bag == Bag(m.slots) && Unique(bag) && now !in bag && m.Valid()
    ensures forall x :: x in was ==> x in bag && x.id == now.id
    ensures !Refinds(m, now.id) ==> was == {}
    ensures Trades(bag, was, now, Bag(Insert(m, now).slots))
  {
    InsertAdds(m, now);
    if Refinds(m, now.id) {
      var rn := Roomy(m).slots[InsertSpot(m, now.id)].rn;
      was := {rn};
      SwapTrades(bag, rn, now);
    } else {
      was := {};
      AddTrades(bag, now);
    }
  }

  /** What one step does to the table, whatever `Find` answered. */
  lemma StepTrades(m: Map, v: Node, sig: TextSig) returns (was: set<RNode>, now: RNode)
    requires m.Valid() && Unique(Bag(m.slots))
    requires forall rn :: rn in Bag(m.slots) && rn.id == v.id ==> !rn.seen
    ensures StepTable(m, v, sig).Valid()
    ensures forall x :: x in was ==> x in Bag(m.slots) && x.id == v.id
    ensures now.id == v.id && now.seen && now.key == KeyOf(v, sig)
    ensures Trades(Bag(m.slots), was, now, Bag(StepTable(m, v, sig).slots))
    ensures Find(m, v.id) >= 0 ==> was == {m.slots[Find(m, v.id)].rn}
    ensures Find(m, v.id) < 0 && !(Crowded(m) && Holds(m.slots, v.id)) ==> was == {}
  {
    if Find(m, v.id) >= 0 {
      var rn := m.slots[Find(m, v.id)].rn;
      was, now := {rn}, Refreshed(rn, v, sig);
      HitTrades(m, v, sig);
    } else {
      was := MissTrades(m, v, sig);
      now := FreshEntry(v, sig);
      if Refinds(m, v.id) { RefindNeedsGrowth(m, v.id); }
    }
  }

  lemma {:induction false} WalkKeepsTable(m: Map, nodes: seq<Node>, k: nat, sig: TextSig)
    returns (w: Map, bag: multiset<RNode>, keys: map<nat, Key>)
    requires k <= |nodes| && Distinct(nodes) && m.Valid() && Unique(Bag(m.slots))
    requires forall rn :: rn in Bag(m.slots) ==> !rn.seen
    ensures w == WalkTable(m, nodes, k, sig) && w.Valid() && bag == Bag(w.slots) && keys == Keys(nodes, k, sig)
    ensures Walking(Bag(m.slots), bag, keys)
  {
    if k == 0 {
      w, bag, keys := m, Bag(m.slots), map[];
    } else {
      var w0, bag0, keys0 := WalkKeepsTable(m, nodes, k - 1, sig);
      FreshId(nodes, k - 1, sig);
      w, bag, keys := StepKeepsTable(Bag(m.slots), w0, bag0, keys0, nodes[k - 1], sig);
    }
  }

  lemma StepKeepsTable(start: multiset<RNode>, m: Map, bag: multiset<RNode>, keys: map<nat, Key>, v: Node, sig: TextSig)
    returns (m': Map, bag': multiset<RNode>, keys': map<nat, Key>)
    requires m.Valid() && bag == Bag(m.slots)
    requires v.id !in keys && Walking(start, bag, keys)
    ensures m' == StepTable(m, v, sig) && m'.Valid() && bag' == Bag(m'.slots) && keys' == keys[v.id := KeyOf(v, sig)]
    ensures Walking(start, bag', keys')
  {
    var was, now := StepTrades(m, v, sig);
    m', keys' := StepTable(m, v, sig), keys[v.id := KeyOf(v, sig)];
    bag' := Bag(m'.slots);
    TradeKeepsWalking(start, bag, keys, was, now, bag');
  }

  lemma TradeKeepsWalking(start: multiset<RNode>, bag: multiset<RNode>, keys: map<nat, Key>,
                          was: set<RNode>, now: RNode, next: multiset<RNode>)
    requires Walking(start, bag, keys) && now.id !in keys && now.seen
    requires Trades(bag, was, now, next)
    requires forall x :: x in was ==> x.id == now.id
    ensures Walking(start, next, keys[now.id := now.key])
  {
    var keys' := keys[now.id := now.key];
    forall id | id in keys' ensures HasEntry(next, id, true) {
      if id == now.id {
        assert now in next;
      } else {
        assert HasEntry(bag, id, true);
        var rn :| rn in bag && rn.id == id && rn.seen;
        assert rn in next;
      }
    }
  }

  /** The swept table holds the seen entries, now unmarked, each as often as before. */
  lemma {:induction false} SweptBag(slots: seq<Slot>, swept: seq<Slot>)
    requires |swept| == |slots| && forall i :: 0 <= i < |slots| ==> swept[i] == Swept(slots[i])
    ensures forall x :: Bag(swept)[x] == if x.seen then 0 else Bag(slots)[x.(seen := true)]
  {
    if slots != [] { SweptBag(slots[..|slots| - 1], swept[..|slots| - 1]); }
  }

  lemma {:induction false} SweepKeepsCount(m: Map, n: nat) returns (q: Map)
    requires m.Valid() && n <= |m.slots|
    ensures q == SweepTable(m, n) && q.Valid()
  {
    if n == 0 {
      q := m;
    } else {
      q := SweepKeepsCount(m, n - 1);
      SweepStepCount(q, n - 1);
      q := SweepTable(m, n);
    }
  }

  lemma SweepStepCount(q: Map, i: nat)
    requires q.Valid() && i < |q.slots|
    ensures |Bag(q.slots[i := Swept(q.slots[i])])| == if Gone(q.slots[i]) && q.used > 0 then q.used - 1 else q.used
  {
    BagUpdate(q.slots, i, Swept(q.slots[i]));
  }

  /** After every diff the model holds exactly one entry per live node, with its current
      state, whatever holes the table had; and the code's counter counts them. */
  lemma DiffModels(p: Progress, mode: Mode, painted: map<nat, Key>, nodes: seq<Node>)
    requires Models(p.model, painted) && Distinct(nodes)
    ensures Models(DiffLayer(p, mode, nodes).model, Keys(nodes, |nodes|, mode.theme.sig))
    ensures DiffLayer(p, mode, nodes).model.used == |nodes|
  {
    var w, bag, keys := WalkKeepsTable(p.model, nodes, |nodes|, mode.theme.sig);
    SweepModels(Bag(p.model.slots), w, bag, keys);
    KeysAre(nodes, |nodes|, mode.theme.sig);
  }

  lemma SweepModels(start: multiset<RNode>, w: Map, bag: multiset<RNode>, keys: map<nat, Key>)
    requires w.Valid() && bag == Bag(w.slots) && Walking(start, bag, keys)
    ensures Models(SweepTable(w, |w.slots|), keys)
    ensures SweepTable(w, |w.slots|).used == |keys|
  {
    var r := SweepKeepsCount(w, |w.slots|);
    SweptBag(w.slots, r.slots);
    SweptDescribes(start, bag, keys, Bag(r.slots));
    ModelCount(Bag(r.slots), keys);
  }

  lemma SweptDescribes(start: multiset<RNode>, bag: multiset<RNode>, keys: map<nat, Key>, out: multiset<RNode>)
    requires Walking(start, bag, keys)
    requires forall x :: out[x] == if x.seen then 0 else bag[x.(seen := true)]
    ensures Describes(out, keys)
  {
    SweptUnique(bag, out);
    forall id | id in keys ensures HasEntry(out, id, false) {
      assert HasEntry(bag, id, true);
      var rn :| rn in bag && rn.id == id && rn.seen;
      assert rn.(seen := false).(seen := true) == rn;
      assert rn.(seen := false) in out;
    }
    forall rn | rn in out ensures !rn.seen && rn.id in keys && rn.key == keys[rn.id] {
      assert rn.(seen := true) in bag;
    }
  }

  lemma SweptUnique(bag: multiset<RNode>, out: multiset<RNode>)
    requires Unique(bag)
    requires forall x :: out[x] == if x.seen then 0 else bag[x.(seen := true)]
    ensures Unique(out)
  {
    forall a, b | a in out && b in out && a.id == b.id && a.seen == b.seen ensures a == b && out[a] == 1 {
      assert a.(seen := true) in bag && b.(seen := true) in bag;
      assert a == a.(seen := true).(seen := false);
    }
  }

  lemma {:induction false} ModelCount(bag: multiset<RNode>, keys: map<nat, Key>)
    requires Unique(bag)
    requires forall rn :: rn in bag ==> !rn.seen && rn.id in keys
    requires forall id :: id in keys ==> HasEntry(bag, id, false)
    ensures |bag| == |keys|
    decreases |bag|
  {
    if |bag| == 0 {
      assert keys == map[];
    } else {
      var rn :| rn in bag;
      var rest, keys' := bag - multiset{rn}, keys - {rn.id};
      DropEntry(bag, keys, rn);
      ModelCount(rest, keys');
    }
  }

  lemma DropEntry(bag: multiset<RNode>, keys: map<nat, Key>, rn: RNode)
    requires Unique(bag) && rn in bag
    requires forall rn :: rn in bag ==> !rn.seen && rn.id in keys
    requires forall id :: id in keys ==> HasEntry(bag, id, false)
    ensures var rest, keys' := bag - multiset{rn}, keys - {rn.id};
            Unique(rest) && |rest| == |bag| - 1 && |keys'| == |keys| - 1
            && (forall e :: e in rest ==> e in bag && e.id != rn.id)
            && (forall id :: id in keys' ==> HasEntry(rest, id, false))
  {
    var rest, keys' := bag - multiset{rn}, keys - {rn.id};
    assert keys'.Keys == keys.Keys - {rn.id};
    forall id | id in keys' ensures HasEntry(rest, id, false) {
      assert HasEntry(bag, id, false);
      var e :| e in bag && e.id == id && !e.seen;
      assert e in rest;
    }
  }
}
