// The damage a diff leaves behind: a pixel that is neither damaged nor inside a
// running transition shows the same nodes, in the same states, before and after.
module DiffCover {
  import opened Pixels
  import opened Raster
  import opened SceneModel
  import opened RenderMap
  import opened Damage
  import opened Transitions
  import opened Diff

  predicate AtPixel(key: Key, x: int, y: int) {
    key.Shown() && key.rect.Has(x, y)
  }

  // ---- What a diff needs ------------------------------------------------------

  /** The walk never grows the table while inserting an id whose entry a hole hides. */
  ghost predicate GrowsClean(m: Map, nodes: seq<Node>, k: nat, sig: TextSig)
    requires k <= |nodes| && |m.slots| == Pow2(m.shift)
  {
    k > 0 ==> GrowsClean(m, nodes, k - 1, sig)
              && !LostInGrowth(WalkTable(m, nodes, k - 1, sig), nodes[k - 1].id)
  }

  predicate LostInGrowth(m: Map, id: nat)
    requires |m.slots| == Pow2(m.shift)
  {
    Crowded(m) && Lost(m, id)
  }

  /** The step begins an enter: a visible node that the model does not find. */
  predicate Begins(m: Map, mode: Mode, v: Node)
    requires |m.slots| == Pow2(m.shift)
  {
    mode.Animates() && Find(m, v.id) < 0 && KeyOf(v, mode.theme.sig).Shown()
  }

  /** How many enters the walk begins. */
  ghost function EnterStarts(m: Map, nodes: seq<Node>, k: nat, mode: Mode): nat
    requires k <= |nodes| && |m.slots| == Pow2(m.shift)
  {
    if k == 0 then 0 else
      EnterStarts(m, nodes, k - 1, mode)
      + if Begins(WalkTable(m, nodes, k - 1, mode.theme.sig), mode, nodes[k - 1]) then 1 else 0
  }

  /** Running transitions. */
  ghost function Active(anims: seq<Anim>): nat {
    if anims == [] then 0
    else Active(anims[..|anims| - 1]) + if anims[|anims| - 1].Idle? then 0 else 1
  }

  lemma {:induction false} ActiveRoom(anims: seq<Anim>)
    ensures Active(anims) < |anims| ==> FirstIdle(anims) >= 0
    ensures Settled(anims) ==> Active(anims) == 0
  {
    if anims != [] {
      var front := anims[..|anims| - 1];
      ActiveRoom(front);
      assert anims[|anims| - 1] in anims;
      assert Settled(anims) ==> Settled(front);
      if Active(front) < |front| { assert anims[FirstIdle(front)].Idle?; }
    }
  }

  lemma {:induction false} ActiveFill(anims: seq<Anim>, i: nat, a: Anim)
    requires i < |anims| && anims[i].Idle? && !a.Idle?
    ensures Active(anims[i := a]) == Active(anims) + 1
  {
    var n := |anims| - 1;
    if i == n {
      assert anims[i := a][..n] == anims[..n];
    } else {
      assert anims[i := a][..n] == anims[..n][i := a];
      ActiveFill(anims[..n], i, a);
    }
  }

  lemma {:induction false} ActiveDrop(anims: seq<Anim>, i: nat)
    requires i < |anims| && !anims[i].Idle?
    ensures Active(anims[i := Idle]) == Active(anims) - 1
  {
    var n := |anims| - 1;
    if i == n {
      assert anims[i := Idle][..n] == anims[..n];
    } else {
      assert anims[i := Idle][..n] == anims[..n][i := Idle];
      ActiveDrop(anims[..n], i);
    }
  }

  /** A starting enter gets a slot. */
  predicate EnterFits(p: Progress, mode: Mode, v: Node)
    requires |p.model.slots| == Pow2(p.model.shift)
  {
    Begins(p.model, mode, v) ==> FirstIdle(p.fx.anims) >= 0
  }

  /** No node that slides in has moved, and none has or had an entry while its phantom fades. */
  ghost predicate Undisturbed(anims: seq<Anim>, slots: seq<Slot>, nodes: seq<Node>) {
    forall a :: a in anims && !a.Idle? ==>
      && (forall k :: 0 <= k < |nodes| && nodes[k].id == a.id ==> a.Enter? && nodes[k].rect == a.base)
      && (a.Exit? ==> forall i :: 0 <= i < |slots| && slots[i].Used? ==> slots[i].rn.id != a.id)
  }

  /** Every running enter is aimed at its node's rectangle, if it has a node. */
  ghost predicate EntersMatch(anims: seq<Anim>, keys: map<nat, Key>) {
    forall a :: a in anims && !a.Idle? ==> a.t < TICKS && (a.Enter? && a.id in keys ==> keys[a.id].rect == a.base)
  }

  /** During the walk transitions are those that ran before, or enters of visited nodes. */
  ghost predicate WalkAnims(anims: seq<Anim>, ran: seq<Anim>, keys: map<nat, Key>) {
    EntersMatch(anims, keys) && forall a :: a in anims && !a.Idle? ==> a in ran || (a.Enter? && a.id in keys)
  }

  /** A running transition of this node slides it to where it is. */
  predicate Steady(ran: seq<Anim>, v: Node) {
    forall a :: a in ran && !a.Idle? && a.id == v.id ==> a.Enter? && a.base == v.rect
  }

  ghost predicate Sourced(start: multiset<RNode>, id: nat, key: Key) {
    exists rn :: rn in start && rn.id == id && rn.key == key
  }

  /** Unless (x, y) is marked, no start entry there was lost and no state there is new. */
  ghost predicate Faithful(start: multiset<RNode>, bag: multiset<RNode>, keys: map<nat, Key>, fx: Fx, x: int, y: int) {
    Marked(fx, x, y) ||
    ((forall rn :: rn in start && AtPixel(rn.key, x, y) ==> rn in bag || (rn.id in keys && keys[rn.id] == rn.key))
     && (forall id :: id in keys && AtPixel(keys[id], x, y) ==> Sourced(start, id, keys[id])))
  }

  lemma MoveCovers(damage: seq<Rect>, was: Key, now: Key, x: int, y: int)
    ensures Covers(damage, x, y) || AtPixel(was, x, y) || AtPixel(now, x, y) ==>
              Covers(MoveDamage(damage, was, now), x, y)
  {
  }

  lemma SteadyRetarget(fx: Fx, mode: Mode, v: Node, shown: bool)
    requires Steady(fx.anims, v)
    ensures Retarget(fx, mode, v, shown) == fx
  {
    var j := FindAnim(fx.anims, v.id);
    if j >= 0 {
      assert fx.anims[j] in fx.anims;
      assert fx.anims[j := fx.anims[j]] == fx.anims;
    }
  }

  /** What the visited node has running ran before, and is steady. */
  lemma StillSteady(anims: seq<Anim>, ran: seq<Anim>, keys: map<nat, Key>, v: Node)
    requires WalkAnims(anims, ran, keys) && Steady(ran, v) && v.id !in keys
    ensures Steady(anims, v)
  {
  }

  lemma EnterKeepsWalk(fx: Fx, ran: seq<Anim>, keys: map<nat, Key>, v: Node, key: Key)
    requires WalkAnims(fx.anims, ran, keys) && Steady(ran, v) && v.id !in keys && key.rect == v.rect
    ensures WalkAnims(StartEnter(fx, v.id, v.rect).anims, ran, keys[v.id := key])
  {
    var r := StartEnter(fx, v.id, v.rect);
    forall a | a in r.anims && !a.Idle? ensures a in fx.anims || a == Enter(v.id, 0, v.rect) {
    }
  }

  /** The step keeps marks, marks the pixels of a new or changed node, and starts only
      enters aimed at the node it visits. */
  lemma StepMarks(p: Progress, mode: Mode, v: Node, ran: seq<Anim>, keys: map<nat, Key>, x: int, y: int)
    requires |p.model.slots| == Pow2(p.model.shift) && v.id !in keys
    requires WalkAnims(p.fx.anims, ran, keys) && Steady(ran, v) && EnterFits(p, mode, v)
    ensures var key, fx := KeyOf(v, mode.theme.sig), StepFx(p, mode, v);
            var at := Find(p.model, v.id);
            && WalkAnims(fx.anims, ran, keys[v.id := key])
            && (Marked(p.fx, x, y) ==> Marked(fx, x, y))
            && (at < 0 && AtPixel(key, x, y) ==> Marked(fx, x, y))
            && (at >= 0 && p.model.slots[at].rn.key != key && AtPixel(key, x, y) ==> Marked(fx, x, y))
            && (at >= 0 && p.model.slots[at].rn.key != key && AtPixel(p.model.slots[at].rn.key, x, y) ==> Marked(fx, x, y))
  {
    var key := KeyOf(v, mode.theme.sig);
    var at := Find(p.model, v.id);
    StillSteady(p.fx.anims, ran, keys, v);
    if at < 0 {
      if mode.Animates() && key.Shown() {
        assert p.fx.anims[FirstIdle(p.fx.anims)] in p.fx.anims;
        EnterMarks(p.fx, v.id, v.rect);
        EnterKeepsWalk(p.fx, ran, keys, v, key);
      }
    } else {
      SteadyRetarget(p.fx, mode, v, key.Shown());
      MoveCovers(p.fx.damage, p.model.slots[at].rn.key, key, x, y);
    }
  }

  lemma StepFaithful(start: multiset<RNode>, p: Progress, bag: multiset<RNode>, keys: map<nat, Key>,
                     mode: Mode, v: Node, ran: seq<Anim>, x: int, y: int)
    returns (q: Progress, bag': multiset<RNode>, keys': map<nat, Key>)
    requires p.model.Valid() && bag == Bag(p.model.slots) && v.id !in keys
    requires Walking(start, bag, keys) && WalkAnims(p.fx.anims, ran, keys) && Steady(ran, v) && EnterFits(p, mode, v)
    requires !LostInGrowth(p.model, v.id)
    requires Faithful(start, bag, keys, p.fx, x, y)
    ensures q == DiffStep(p, mode, v) && q.model.Valid() && bag' == Bag(q.model.slots)
    ensures keys' == keys[v.id := KeyOf(v, mode.theme.sig)]
    ensures Walking(start, bag', keys') && WalkAnims(q.fx.anims, ran, keys')
    ensures Faithful(start, bag', keys', q.fx, x, y)
    ensures Marked(p.fx, x, y) ==> Marked(q.fx, x, y)
  {
    var sig := mode.theme.sig;
    q := DiffStep(p, mode, v);
    var was, now := StepTrades(p.model, v, sig);
    keys', bag' := keys[v.id := KeyOf(v, sig)], Bag(q.model.slots);
    TradeKeepsWalking(start, bag, keys, was, now, bag');
    StepMarks(p, mode, v, ran, keys, x, y);
    TradeFaithful(start, bag, keys, was, now, bag', p.fx, q.fx, x, y);
  }

  lemma TradeFaithful(start: multiset<RNode>, bag: multiset<RNode>, keys: map<nat, Key>,
                      was: set<RNode>, now: RNode, next: multiset<RNode>, fx: Fx, fx': Fx, x: int, y: int)
    requires Walking(start, bag, keys) && now.id !in keys && Trades(bag, was, now, next)
    requires Faithful(start, bag, keys, fx, x, y)
    requires Marked(fx, x, y) ==> Marked(fx', x, y)
    requires forall rn :: rn in was ==> rn in bag && rn.id == now.id && !rn.seen
    requires !Marked(fx', x, y) ==>
               (AtPixel(now.key, x, y) ==> exists rn :: rn in was && rn.key == now.key)
               && (forall rn :: rn in was && AtPixel(rn.key, x, y) ==> rn.key == now.key)
    ensures Faithful(start, next, keys[now.id := now.key], fx', x, y)
  {
    if !Marked(fx', x, y) {
      var keys' := keys[now.id := now.key];
      forall id | id in keys' && AtPixel(keys'[id], x, y) ensures Sourced(start, id, keys'[id]) {
        if id == now.id {
          var rn :| rn in was && rn.key == now.key;
          assert rn in start;
        } else {
          assert Sourced(start, id, keys[id]);
        }
      }
    }
  }

  /** Every enter of the walk's first k steps gets a slot. */
  ghost predicate WalkFits(p: Progress, mode: Mode, nodes: seq<Node>, k: nat)
    requires k <= |nodes| && |p.model.slots| == Pow2(p.model.shift)
  {
    k > 0 ==> WalkFits(p, mode, nodes, k - 1) && EnterFits(Walk(p, mode, nodes, k - 1), mode, nodes[k - 1])
  }

  lemma StepActive(p: Progress, mode: Mode, v: Node, bound: nat)
    requires |p.model.slots| == Pow2(p.model.shift) && Steady(p.fx.anims, v) && Active(p.fx.anims) <= bound
    requires Begins(p.model, mode, v) ==> bound < |p.fx.anims|
    ensures EnterFits(p, mode, v)
    ensures Active(StepFx(p, mode, v).anims) <= bound + if Begins(p.model, mode, v) then 1 else 0
  {
    ActiveRoom(p.fx.anims);
    if Begins(p.model, mode, v) {
      var j, f := FindAnim(p.fx.anims, v.id), Release(p.fx, v.id);
      if j >= 0 { ActiveDrop(p.fx.anims, j); }
      ActiveRoom(f.anims);
      ActiveFill(f.anims, FirstIdle(f.anims), Enter(v.id, 0, v.rect));
    } else {
      SteadyRetarget(p.fx, mode, v, KeyOf(v, mode.theme.sig).Shown());
    }
  }

  ghost predicate AllSteady(ran: seq<Anim>, nodes: seq<Node>) { forall k :: 0 <= k < |nodes| ==> Steady(ran, nodes[k]) }

  /** At most one enter per node begun, so with what runs already they fit when their number does. */
  lemma {:induction false} StartsFit(p: Progress, mode: Mode, nodes: seq<Node>, k: nat)
    returns (q: Progress, keys: map<nat, Key>)
    requires k <= |nodes| && Distinct(nodes) && |p.model.slots| == Pow2(p.model.shift)
    requires EntersMatch(p.fx.anims, map[]) && AllSteady(p.fx.anims, nodes)
    requires Active(p.fx.anims) + EnterStarts(p.model, nodes, k, mode) <= |p.fx.anims|
    ensures q == Walk(p, mode, nodes, k) && keys == Keys(nodes, k, mode.theme.sig)
    ensures WalkAnims(q.fx.anims, p.fx.anims, keys)
    ensures Active(q.fx.anims) <= Active(p.fx.anims) + EnterStarts(p.model, nodes, k, mode)
    ensures WalkFits(p, mode, nodes, k)
  {
    if k == 0 {
      q, keys := p, map[];
    } else {
      q, keys := StartsFit(p, mode, nodes, k - 1);
      var v, bound := nodes[k - 1], Active(p.fx.anims) + EnterStarts(p.model, nodes, k - 1, mode);
      FreshId(nodes, k - 1, mode.theme.sig);
      assert Steady(p.fx.anims, v);
      StillSteady(q.fx.anims, p.fx.anims, keys, v);
      StepActive(q, mode, v, bound);
      StepMarks(q, mode, v, p.fx.anims, keys, 0, 0);
      keys := keys[v.id := KeyOf(v, mode.theme.sig)];
      q := DiffStep(q, mode, v);
    }
  }

  lemma {:induction false} WalkFaithful(p: Progress, mode: Mode, nodes: seq<Node>, k: nat, x: int, y: int)
    returns (q: Progress, bag: multiset<RNode>, keys: map<nat, Key>)
    requires k <= |nodes| && Distinct(nodes) && p.model.Valid() && Unique(Bag(p.model.slots))
    requires forall rn :: rn in Bag(p.model.slots) ==> !rn.seen
    requires EntersMatch(p.fx.anims, map[]) && AllSteady(p.fx.anims, nodes)
    requires GrowsClean(p.model, nodes, k, mode.theme.sig) && WalkFits(p, mode, nodes, k)
    ensures q == Walk(p, mode, nodes, k) && q.model.Valid() && bag == Bag(q.model.slots)
    ensures keys == Keys(nodes, k, mode.theme.sig)
    ensures Walking(Bag(p.model.slots), bag, keys) && WalkAnims(q.fx.anims, p.fx.anims, keys)
    ensures Faithful(Bag(p.model.slots), bag, keys, q.fx, x, y)
    ensures Marked(p.fx, x, y) ==> Marked(q.fx, x, y)
  {
    if k == 0 {
      q, bag, keys := p, Bag(p.model.slots), map[];
    } else {
      q, bag, keys := WalkFaithful(p, mode, nodes, k - 1, x, y);
      FreshId(nodes, k - 1, mode.theme.sig);
      assert Steady(p.fx.anims, nodes[k - 1]);
      q, bag, keys := StepFaithful(Bag(p.model.slots), q, bag, keys, mode, nodes[k - 1], p.fx.anims, x, y);
    }
  }

  // ---- The sweep --------------------------------------------------------------

  /** Transitions during the sweep: enters aimed at their nodes, exits of entries before slot n,
      and exits of no entry the sweep will free. */
  ghost predicate SweepAnims(anims: seq<Anim>, slots: seq<Slot>, keys: map<nat, Key>, n: nat) {
    && EntersMatch(anims, keys)
    && forall a :: a in anims && a.Exit? ==> Freed(slots, a.id, n) || !Freed(slots, a.id, |slots|)
  }

  /** One of the first n slots is freed by the sweep and holds this id. */
  predicate Freed(slots: seq<Slot>, id: nat, n: nat) {
    exists i :: 0 <= i < n && i < |slots| && Gone(slots[i]) && slots[i].rn.id == id
  }

  /** Two different slots never hold unseen entries of the same id. */
  lemma GoneDiffer(slots: seq<Slot>, i: nat, j: nat)
    requires i < j < |slots| && Unique(Bag(slots)) && Gone(slots[i]) && Gone(slots[j])
    ensures slots[i].rn.id != slots[j].rn.id
  {
    BagHas(slots, slots[i].rn);
    BagHas(slots, slots[j].rn);
    if slots[i].rn.id == slots[j].rn.id {
      var rest := slots[i := Free];
      BagUpdate(slots, i, Free);
      assert rest[j] == slots[j];
      BagHas(rest, slots[j].rn);
    }
  }

  /** Starting an exit for a gone slot's id leaves enters of the walk and exits of gone slots. */
  lemma ExitKeepsAnims(fx: Fx, slots: seq<Slot>, keys: map<nat, Key>, n: nat, rect: Rect, look: Phantom)
    requires n < |slots| && Gone(slots[n]) && SweepAnims(fx.anims, slots, keys, n)
    ensures SweepAnims(StartExit(fx, slots[n].rn.id, rect, look).anims, slots, keys, n + 1)
  {
    var r := StartExit(fx, slots[n].rn.id, rect, look);
    forall a | a in r.anims && !a.Idle? && a !in fx.anims
      ensures a.Exit? && a.t < TICKS && a.id == slots[n].rn.id
    {
    }
  }

  lemma SweepStepMarks(fx: Fx, mode: Mode, slots: seq<Slot>, keys: map<nat, Key>, n: nat, x: int, y: int)
    requires n < |slots| && Unique(Bag(slots)) && SweepAnims(fx.anims, slots, keys, n)
    ensures var r := SweepFx(fx, mode, slots[n]);
            && SweepAnims(r.anims, slots, keys, n + 1)
            && (Marked(fx, x, y) ==> Marked(r, x, y))
            && (Gone(slots[n]) && AtPixel(slots[n].rn.key, x, y) ==> Marked(r, x, y))
  {
    var s := slots[n];
    if Gone(s) && s.rn.key.Shown() && mode.Animates() {
      forall a | a in fx.anims && !a.Idle? && a.id == s.rn.id ensures a.Enter? && a.t < TICKS {
        if a.Exit? {
          var i :| 0 <= i < n && i < |slots| && Gone(slots[i]) && slots[i].rn.id == a.id;
          GoneDiffer(slots, i, n);
        }
      }
      var look := ExitLook(mode.theme, s.rn);
      ExitMarks(fx, s.rn.id, s.rn.key.rect, look);
      ExitKeepsAnims(fx, slots, keys, n, s.rn.key.rect, look);
    }
  }

  /** One of the first n slots is freed by the sweep and was shown at this pixel. */
  predicate GoneAt(slots: seq<Slot>, n: nat, x: int, y: int)
    requires n <= |slots|
  {
    n > 0 && (GoneAt(slots, n - 1, x, y) || (Gone(slots[n - 1]) && AtPixel(slots[n - 1].rn.key, x, y)))
  }

  lemma {:induction false} GoneAtHas(slots: seq<Slot>, n: nat, x: int, y: int, i: nat)
    requires i < n <= |slots| && Gone(slots[i]) && AtPixel(slots[i].rn.key, x, y)
    ensures GoneAt(slots, n, x, y)
  {
    if i < n - 1 { GoneAtHas(slots, n - 1, x, y, i); }
  }

  lemma {:induction false} SweepMarks(p: Progress, mode: Mode, keys: map<nat, Key>, n: nat, x: int, y: int)
    returns (fx: Fx)
    requires n <= |p.model.slots| && Unique(Bag(p.model.slots)) && SweepAnims(p.fx.anims, p.model.slots, keys, 0)
    ensures fx == Sweep(p, mode, n).fx && SweepAnims(fx.anims, p.model.slots, keys, n)
    ensures Marked(p.fx, x, y) || GoneAt(p.model.slots, n, x, y) ==> Marked(fx, x, y)
  {
    if n == 0 {
      fx := p.fx;
    } else {
      var was := SweepMarks(p, mode, keys, n - 1, x, y);
      SweepStepMarks(was, mode, p.model.slots, keys, n - 1, x, y);
      fx := SweepNext(p, mode, n - 1);
    }
  }

  lemma SweepNext(p: Progress, mode: Mode, n: nat) returns (fx: Fx)
    requires n < |p.model.slots|
    ensures fx == Sweep(p, mode, n + 1).fx == SweepFx(Sweep(p, mode, n).fx, mode, p.model.slots[n])
  {
    fx := SweepFx(Sweep(p, mode, n).fx, mode, p.model.slots[n]);
  }

  // ---- The whole diff ---------------------------------------------------------

  /** The diff disturbs no running transition, starts no more enters than there are idle slots,
      and grows the table for no id whose entry a hole hides. */
  ghost predicate DiffOk(p: Progress, mode: Mode, nodes: seq<Node>) {
    && p.model.Valid() && Distinct(nodes) && Undisturbed(p.fx.anims, p.model.slots, nodes)
    && GrowsClean(p.model, nodes, |nodes|, mode.theme.sig)
    && Active(p.fx.anims) + EnterStarts(p.model, nodes, |nodes|, mode) <= |p.fx.anims|
  }

  /** An exit that ran before belongs to no entry the sweep frees. */
  lemma OldExits(start: multiset<RNode>, slots0: seq<Slot>, ran: seq<Anim>, nodes: seq<Node>, anims: seq<Anim>, slots: seq<Slot>,
                 keys: map<nat, Key>)
    requires start == Bag(slots0) && Undisturbed(ran, slots0, nodes) && WalkAnims(anims, ran, keys)
    requires Walking(start, Bag(slots), keys)
    ensures SweepAnims(anims, slots, keys, 0)
  {
    forall a, i | a in anims && a.Exit? && 0 <= i < |slots| && Gone(slots[i]) ensures slots[i].rn.id != a.id {
      BagHas(slots, slots[i].rn);
      BagHas(slots0, slots[i].rn);
    }
  }

  /** The damage list covers the old and the new rectangle of every visible change: at an
      unmarked pixel the nodes shown before and after are the same, state by state. */
  lemma DiffCovers(p: Progress, mode: Mode, painted: map<nat, Key>, nodes: seq<Node>, x: int, y: int)
    requires Models(p.model, painted) && DiffOk(p, mode, nodes) && EntersMatch(p.fx.anims, painted)
    ensures var r, keys := DiffLayer(p, mode, nodes), Keys(nodes, |nodes|, mode.theme.sig);
            && EntersMatch(r.fx.anims, keys)
            && (Marked(p.fx, x, y) ==> Marked(r.fx, x, y))
            && (!Marked(r.fx, x, y) ==> SameStates(painted, keys, x, y))
  {
    var _, _ := StartsFit(p, mode, nodes, |nodes|);
    var w, bag, keys := WalkFaithful(p, mode, nodes, |nodes|, x, y);
    OldExits(Bag(p.model.slots), p.model.slots, p.fx.anims, nodes, w.fx.anims, w.model.slots, keys);
    var fx := SweepMarks(w, mode, keys, |w.model.slots|, x, y);
    GoneMarked(w, bag, fx, x, y);
    UnmarkedSame(Bag(p.model.slots), painted, bag, keys, w.fx, fx, x, y);
  }

  /** The two states agree on everything shown at this pixel. */
  ghost predicate SameStates(a: map<nat, Key>, b: map<nat, Key>, x: int, y: int) {
    && (forall id :: id in a && AtPixel(a[id], x, y) ==> id in b && b[id] == a[id])
    && (forall id :: id in b && AtPixel(b[id], x, y) ==> id in a && a[id] == b[id])
  }

  lemma GoneMarked(w: Progress, bag: multiset<RNode>, fx: Fx, x: int, y: int)
    requires bag == Bag(w.model.slots)
    requires GoneAt(w.model.slots, |w.model.slots|, x, y) ==> Marked(fx, x, y)
    ensures forall rn :: rn in bag && !rn.seen && AtPixel(rn.key, x, y) ==> Marked(fx, x, y)
  {
    forall rn | rn in bag && !rn.seen && AtPixel(rn.key, x, y) ensures Marked(fx, x, y) {
      BagHas(w.model.slots, rn);
      var i :| 0 <= i < |w.model.slots| && w.model.slots[i] == Used(rn);
      GoneAtHas(w.model.slots, |w.model.slots|, x, y, i);
    }
  }

  lemma UnmarkedSame(start: multiset<RNode>, painted: map<nat, Key>, bag: multiset<RNode>, keys: map<nat, Key>,
                     mid: Fx, fx: Fx, x: int, y: int)
    requires Describes(start, painted) && Faithful(start, bag, keys, mid, x, y)
    requires Marked(mid, x, y) ==> Marked(fx, x, y)
    requires forall rn :: rn in bag && !rn.seen && AtPixel(rn.key, x, y) ==> Marked(fx, x, y)
    ensures !Marked(fx, x, y) ==> SameStates(painted, keys, x, y)
  {
    if !Marked(fx, x, y) {
      forall id | id in painted && AtPixel(painted[id], x, y) ensures id in keys && keys[id] == painted[id] {
        assert HasEntry(start, id, false);
        var rn :| rn in start && rn.id == id && !rn.seen;
      }
      forall id | id in keys && AtPixel(keys[id], x, y) ensures id in painted && painted[id] == keys[id] {
        assert Sourced(start, id, keys[id]);
      }
    }
  }
}
