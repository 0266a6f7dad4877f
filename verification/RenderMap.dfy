// The render model: an open-addressing table with linear probing that is swept
// without tombstones.  A hole left by the sweep can hide an entry from `Find`;
// nothing below assumes otherwise.  The table is abstracted to the multiset of
// its entries (`Bag`).
module RenderMap {
  import opened Probing
  import opened SceneModel

  datatype Slot = Free | Used(rn: RNode)

  /** slots is the array, shift its log size, used the code's running count. */
  datatype Map = Map(slots: seq<Slot>, shift: nat, used: nat) {
    ghost predicate Valid() {
      |slots| == Pow2(shift) && used == |Bag(slots)|
    }
  }

  // ---- Hashing ----------------------------------------------------------------

  function Pow2(k: nat): (p: nat)
    ensures p > 0
  {
    if k == 0 then 1 else 2 * Pow2(k - 1)
  }

  /** id * 2654435761 in 32-bit arithmetic. */
  function Scramble(id: nat): (x: nat)
    ensures x < 0x1_0000_0000
  {
    id * 2654435761 % 0x1_0000_0000
  }

  /** The multiplicative hash: the top `shift` bits of the scrambled id. */
  function HomeSlot(id: nat, shift: nat): (h: nat)
    ensures h < Pow2(shift)
  {
    if shift > 32 then 0 else TopBits(Scramble(id), shift)
  }

  function TopBits(x: nat, shift: nat): (h: nat)
    requires x < 0x1_0000_0000 && shift <= 32
    ensures h < Pow2(shift)
  {
    WordPower();
    ShiftBound(x, 32 - shift, shift);
    ShiftRight(x, 32 - shift)
  }

  function ShiftRight(x: nat, k: nat): nat {
    if k == 0 then x else ShiftRight(x / 2, k - 1)
  }

  lemma {:induction false} ShiftBound(x: nat, k: nat, n: nat)
    requires x < Pow2(n + k)
    ensures ShiftRight(x, k) < Pow2(n)
  {
    if k > 0 { ShiftBound(x / 2, k - 1, n); }
  }

  lemma Pow2Nibble(k: nat)
    ensures Pow2(k + 4) == 16 * Pow2(k)
  {
    assert Pow2(k + 2) == 4 * Pow2(k);
  }

  lemma WordPower()
    ensures Pow2(32) == 0x1_0000_0000
  {
    Pow2Nibble(0); Pow2Nibble(4); Pow2Nibble(8); Pow2Nibble(12);
    Pow2Nibble(16); Pow2Nibble(20); Pow2Nibble(24); Pow2Nibble(28);
  }

  // ---- The table as a multiset ------------------------------------------------

  function One(s: Slot): multiset<RNode> {
    if s.Used? then multiset{s.rn} else multiset{}
  }

  function Bag(slots: seq<Slot>): multiset<RNode> {
    if slots == [] then multiset{} else Bag(slots[..|slots| - 1]) + One(slots[|slots| - 1])
  }

  /** Overwriting a slot trades its old content for the new one. */
  lemma {:induction false} BagUpdate(slots: seq<Slot>, i: nat, s: Slot)
    requires i < |slots|
    ensures One(slots[i]) <= Bag(slots)
    ensures Bag(slots[i := s]) == Bag(slots) - One(slots[i]) + One(s)
  {
    var n := |slots| - 1;
    if i == n {
      assert slots[i := s][..n] == slots[..n];
    } else {
      assert slots[i := s][..n] == slots[..n][i := s];
      BagUpdate(slots[..n], i, s);
      TradeBeside(Bag(slots[..n]), One(slots[i]), One(s), One(slots[n]));
    }
  }

  lemma TradeBeside(a: multiset<RNode>, x: multiset<RNode>, y: multiset<RNode>, z: multiset<RNode>)
    requires x <= a
    ensures x <= a + z && a - x + y + z == a + z - x + y
  {
  }

  lemma {:induction false} BagHas(slots: seq<Slot>, rn: RNode)
    ensures rn in Bag(slots) <==> Used(rn) in slots
  {
    if slots != [] {
      var n := |slots| - 1;
      BagHas(slots[..n], rn);
      assert slots == slots[..n] + [slots[n]];
    }
  }

  lemma {:induction false} BagSize(slots: seq<Slot>)
    ensures |Bag(slots)| <= |slots|
    ensures |Bag(slots)| < |slots| ==> Free in slots
  {
    if slots != [] {
      var n := |slots| - 1;
      BagSize(slots[..n]);
      assert slots == slots[..n] + [slots[n]];
    }
  }

  function Blank(n: nat): (s: seq<Slot>)
    ensures |s| == n && forall i :: 0 <= i < n ==> s[i] == Free
  {
    seq(n, i => Free)
  }

  lemma {:induction false} BlankBag(slots: seq<Slot>)
    requires forall i :: 0 <= i < |slots| ==> slots[i] == Free
    ensures Bag(slots) == multiset{}
  {
    if slots != [] { BlankBag(slots[..|slots| - 1]); }
  }

  // ---- map_find ---------------------------------------------------------------

  /** The index `map_find` answers from probe i on, or -1: a free slot ends the search. */
  function FindFrom(slots: seq<Slot>, home: nat, id: nat, i: nat): (r: int)
    requires home < |slots|
    ensures r >= 0 ==> r < |slots| && slots[r].Used? && slots[r].rn.id == id
    decreases |slots| - i
  {
    if i >= |slots| then -1 else
      var s := Probe(home, i, |slots|);
      if slots[s].Free? then -1
      else if slots[s].rn.id == id then s
      else FindFrom(slots, home, id, i + 1)
  }

  function Find(m: Map, id: nat): (r: int)
    requires |m.slots| == Pow2(m.shift)
    ensures r >= 0 ==> r < |m.slots| && m.slots[r].Used? && m.slots[r].rn.id == id
  {
    FindFrom(m.slots, HomeSlot(id, m.shift), id, 0)
  }

  method MapFind(m: Map, id: nat) returns (r: int)
    requires |m.slots| == Pow2(m.shift)
    ensures r == Find(m, id)
  {
    var home := HomeSlot(id, m.shift);
    var i := 0;
    while i < |m.slots|
      invariant Find(m, id) == FindFrom(m.slots, home, id, i)
    {
      var s := Probe(home, i, |m.slots|);
      if m.slots[s].Free? { return -1; }
      if m.slots[s].rn.id == id { return s; }
      i := i + 1;
    }
    return -1;
  }

  // ---- map_grow ---------------------------------------------------------------

  /** The first slot from probe i on that is free, or (unless `anyId`) holds id; -1 if none. */
  function SpotFrom(slots: seq<Slot>, home: nat, id: nat, reuse: bool, i: nat): (r: int)
    requires home < |slots|
    ensures r >= 0 ==> r < |slots| && (slots[r].Free? || (reuse && slots[r].rn.id == id))
    decreases |slots| - i
  {
    if i >= |slots| then -1 else
      var s := Probe(home, i, |slots|);
      if slots[s].Free? || (reuse && slots[s].rn.id == id) then s
      else SpotFrom(slots, home, id, reuse, i + 1)
  }

  /** While a slot is free the probe path, which visits every slot, finds a spot. */
  lemma {:induction false} SpotExists(slots: seq<Slot>, home: nat, id: nat, reuse: bool, i: nat, k: nat)
    requires home < |slots| && i <= k < |slots|
    requires slots[Probe(home, k, |slots|)].Free?
    ensures SpotFrom(slots, home, id, reuse, i) >= 0
    decreases k - i
  {
    if i < k { SpotExists(slots, home, id, reuse, i + 1, k); }
  }

  lemma SpotFound(slots: seq<Slot>, home: nat, id: nat, reuse: bool)
    requires home < |slots| && |Bag(slots)| < |slots|
    ensures SpotFrom(slots, home, id, reuse, 0) >= 0
  {
    BagSize(slots);
    var j :| 0 <= j < |slots| && slots[j] == Free;
    var k := if j >= home then j - home else j - home + |slots|;
    assert Probe(home, k, |slots|) == j;
    SpotExists(slots, home, id, reuse, 0, k);
  }

  /** Put an entry into the first free slot of its probe path. */
  function Place(slots: seq<Slot>, shift: nat, rn: RNode): (r: seq<Slot>)
    requires |slots| == Pow2(shift)
    ensures |r| == |slots|
  {
    var s := SpotFrom(slots, HomeSlot(rn.id, shift), rn.id, false, 0);
    if s < 0 then slots else slots[s := Used(rn)]
  }

  lemma PlaceAdds(slots: seq<Slot>, shift: nat, rn: RNode)
    requires |slots| == Pow2(shift) && |Bag(slots)| < |slots|
    ensures Bag(Place(slots, shift, rn)) == Bag(slots) + multiset{rn}
  {
    var home := HomeSlot(rn.id, shift);
    SpotFound(slots, home, rn.id, false);
    BagUpdate(slots, SpotFrom(slots, home, rn.id, false, 0), Used(rn));
  }

  /** The rehash of the first n old slots into a blank table of twice the size. */
  function Rehash(src: seq<Slot>, shift: nat, n: nat): (r: seq<Slot>)
    requires n <= |src|
    ensures |r| == Pow2(shift)
  {
    if n == 0 then Blank(Pow2(shift))
    else
      var r := Rehash(src, shift, n - 1);
      if src[n - 1].Used? then Place(r, shift, src[n - 1].rn) else r
  }

  function Grow(m: Map): Map
  {
    Map(Rehash(m.slots, m.shift + 1, |m.slots|), m.shift + 1, m.used)
  }

  /** Growing moves entries, duplicates included, and loses none. */
  lemma {:induction false} RehashKeeps(src: seq<Slot>, shift: nat, n: nat) returns (r: seq<Slot>, bag: multiset<RNode>)
    requires n <= |src| < Pow2(shift)
    ensures r == Rehash(src, shift, n) && bag == Bag(r) == Bag(src[..n])
  {
    if n == 0 {
      r, bag := Rehash(src, shift, 0), multiset{};
      BlankBag(r);
    } else {
      r, bag := RehashKeeps(src, shift, n - 1);
      var last := src[n - 1];
      RehashStep(src, n, r, bag, shift);
      r, bag := if last.Used? then Place(r, shift, last.rn) else r, bag + One(last);
    }
  }

  lemma RehashStep(src: seq<Slot>, n: nat, r: seq<Slot>, bag: multiset<RNode>, shift: nat)
    requires 0 < n <= |src| < Pow2(shift) == |r| && bag == Bag(r) == Bag(src[..n - 1])
    ensures Bag(src[..n]) == bag + One(src[n - 1])
    ensures Bag(if src[n - 1].Used? then Place(r, shift, src[n - 1].rn) else r) == bag + One(src[n - 1])
  {
    BagPrefix(src, n);
    BagSize(src[..n - 1]);
    if src[n - 1].Used? { PlaceAdds(r, shift, src[n - 1].rn); }
  }

  lemma BagPrefix(src: seq<Slot>, n: nat)
    requires 0 < n <= |src|
    ensures Bag(src[..n]) == Bag(src[..n - 1]) + One(src[n - 1])
  {
    assert src[..n][..n - 1] == src[..n - 1];
  }

  lemma GrowKeeps(m: Map)
    requires m.Valid()
    ensures Grow(m).Valid() && Bag(Grow(m).slots) == Bag(m.slots)
    ensures |Grow(m).slots| == 2 * |m.slots|
  {
    var _, _ := RehashKeeps(m.slots, m.shift + 1, |m.slots|);
    assert m.slots[..|m.slots|] == m.slots;
  }

  /** The probing loop of map_grow and map_insert. */
  method FindSpot(slots: seq<Slot>, home: nat, id: nat, reuse: bool) returns (s: int)
    requires home < |slots|
    ensures s == SpotFrom(slots, home, id, reuse, 0)
  {
    var i := 0;
    while i < |slots|
      invariant SpotFrom(slots, home, id, reuse, 0) == SpotFrom(slots, home, id, reuse, i)
    {
      s := Probe(home, i, |slots|);
      if slots[s].Free? || (reuse && slots[s].rn.id == id) { return; }
      i := i + 1;
    }
    s := -1;
  }

  method MapGrow(m: Map) returns (r: Map)
    requires |m.slots| == Pow2(m.shift)
    ensures r == Grow(m)
  {
    var shift := m.shift + 1;
    var nmap := Blank(Pow2(shift));
    for i := 0 to |m.slots|
      invariant nmap == Rehash(m.slots, shift, i)
    {
      if m.slots[i].Used? {
        var rn := m.slots[i].rn;
        var s := FindSpot(nmap, HomeSlot(rn.id, shift), rn.id, false);
        if s >= 0 { nmap := nmap[s := Used(rn)]; }
      }
    }
    r := Map(nmap, shift, m.used);
  }

  // ---- map_insert -------------------------------------------------------------

  /** Seven tenths full: the next insert grows first. */
  predicate Crowded(m: Map) { m.used * 10 >= |m.slots| * 7 }

  function Roomy(m: Map): Map { if Crowded(m) then Grow(m) else m }

  /** The slot `map_insert` settles on, in the table it returns. */
  function InsertSpot(m: Map, id: nat): (s: int)
    requires |m.slots| == Pow2(m.shift)
  {
    SpotFrom(Roomy(m).slots, HomeSlot(id, Roomy(m).shift), id, true, 0)
  }

  /** The insert lands on an entry of the same id instead of a free slot. */
  predicate Refinds(m: Map, id: nat)
    requires |m.slots| == Pow2(m.shift)
  {
    InsertSpot(m, id) >= 0 && Roomy(m).slots[InsertSpot(m, id)].Used?
  }

  /** map_insert followed by filling the slot it returned. */
  function Insert(m: Map, rn: RNode): (r: Map)
    requires |m.slots| == Pow2(m.shift)
    ensures |r.slots| == Pow2(r.shift)
  {
    var g, s := Roomy(m), InsertSpot(m, rn.id);
    if s < 0 then g
    else Map(g.slots[s := Used(rn)], g.shift, if g.slots[s].Free? then g.used + 1 else g.used)
  }

  lemma RoomyKeeps(m: Map)
    requires m.Valid()
    ensures Roomy(m).Valid() && Bag(Roomy(m).slots) == Bag(m.slots) && Roomy(m).used < |Roomy(m).slots|
  {
    BagSize(m.slots);
    if Crowded(m) { GrowKeeps(m); }
  }

  /** An insert always finds a slot. */
  lemma InsertFindsSpot(m: Map, id: nat)
    requires m.Valid()
    ensures InsertSpot(m, id) >= 0
  {
    RoomyKeeps(m);
    SpotFound(Roomy(m).slots, HomeSlot(id, Roomy(m).shift), id, true);
  }

  /** The insert adds one entry, or overwrites one of the same id; the latter only
      when it grew the table and so healed the broken probe path. */
  lemma InsertAdds(m: Map, rn: RNode)
    requires m.Valid()
    ensures Insert(m, rn).Valid()
    ensures !Refinds(m, rn.id) ==> Bag(Insert(m, rn).slots) == Bag(m.slots) + multiset{rn}
    ensures Refinds(m, rn.id) ==>
      var was := Roomy(m).slots[InsertSpot(m, rn.id)].rn;
      was.id == rn.id && was in Bag(m.slots)
      && Bag(Insert(m, rn).slots) == Bag(m.slots) - multiset{was} + multiset{rn}
  {
    RoomyKeeps(m);
    InsertFindsSpot(m, rn.id);
    var g, s := Roomy(m), InsertSpot(m, rn.id);
    BagUpdate(g.slots, s, Used(rn));
    if g.slots[s].Used? { BagHas(g.slots, g.slots[s].rn); }
  }

  /** After a failed find, overwriting an entry takes a growing insert. */
  lemma {:induction false} MissMeansFree(slots: seq<Slot>, home: nat, id: nat, i: nat)
    requires home < |slots| && FindFrom(slots, home, id, i) < 0
    ensures SpotFrom(slots, home, id, true, i) >= 0 ==> slots[SpotFrom(slots, home, id, true, i)].Free?
    decreases |slots| - i
  {
    if i < |slots| && slots[Probe(home, i, |slots|)].Used? { MissMeansFree(slots, home, id, i + 1); }
  }

  /** Some slot holds an entry of this id. */
  predicate Holds(slots: seq<Slot>, id: nat) {
    slots != [] &&
    var n := |slots| - 1;
    (slots[n].Used? && slots[n].rn.id == id) || Holds(slots[..n], id)
  }

  lemma {:induction false} HoldsIff(slots: seq<Slot>, id: nat)
    ensures Holds(slots, id) <==> exists rn :: rn in Bag(slots) && rn.id == id
  {
    if slots != [] {
      var n := |slots| - 1;
      HoldsIff(slots[..n], id);
      if slots[n].Used? { assert slots[n].rn in Bag(slots); }
      assert forall rn :: rn in Bag(slots[..n]) ==> rn in Bag(slots);
    }
  }

  /** The table holds an entry of this id, but a hole hides it from `Find`. */
  predicate Lost(m: Map, id: nat)
    requires |m.slots| == Pow2(m.shift)
  {
    Find(m, id) < 0 && Holds(m.slots, id)
  }

  lemma RefindNeedsGrowth(m: Map, id: nat)
    requires m.Valid() && Find(m, id) < 0 && Refinds(m, id)
    ensures Crowded(m) && Holds(m.slots, id)
  {
    if !Crowded(m) { MissMeansFree(m.slots, HomeSlot(id, m.shift), id, 0); }
    RoomyKeeps(m);
    var rn := Roomy(m).slots[InsertSpot(m, id)].rn;
    BagHas(Roomy(m).slots, rn);
    HoldsIff(m.slots, id);
  }

  method MapInsert(m: Map, rn: RNode) returns (r: Map)
    requires |m.slots| == Pow2(m.shift)
    ensures r == Insert(m, rn)
  {
    r := m;
    if m.used * 10 >= |m.slots| * 7 { r := MapGrow(m); }
    var s := FindSpot(r.slots, HomeSlot(rn.id, r.shift), rn.id, true);
    if s >= 0 {
      r := Map(r.slots[s := Used(rn)], r.shift, if r.slots[s].Free? then r.used + 1 else r.used);
    }
  }
}
