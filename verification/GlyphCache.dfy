// The glyph cache (scene_fontcache.c): a fixed open-addressing table that evicts
// without tombstones and is an exact LRU all the same, because it evicts only
// when it is full and refills the hole at once.
module GlyphCache {
  import opened Probing
  import Wire

  const CAP: nat := 1024
  const CLOCK_END: nat := 0xFFFF_FFFF

  datatype Slot<G> = Vacant | Held(cp: nat, lru: nat, glyph: G)

  type SlotNo = n: nat | n < CAP

  /** fc_hash, shifted down to a slot number.  The table works with any such hash. */
  function HashSlot(cp: nat): SlotNo {
    Wire.Xor(Wire.FNV_START, cp, 32) * Wire.FNV_PRIME % 0x1_0000_0000 / 0x40_0000
  }

  // ---- Exact LRU, as a list ---------------------------------------------------

  function Without(s: seq<nat>, cp: nat): (r: seq<nat>)
    ensures cp !in r && forall x :: x in r ==> x in s
  {
    if s == [] then []
    else Without(s[..|s| - 1], cp) + if s[|s| - 1] == cp then [] else [s[|s| - 1]]
  }

  /** The last n of s. */
  function LastOf(s: seq<nat>, n: nat): (r: seq<nat>)
    ensures |r| == if |s| <= n then |s| else n
  {
    if |s| <= n then s else s[|s| - n..]
  }

  /** All codepoints ever requested, by their latest request, newest last. */
  function ByRecency(requests: seq<nat>): seq<nat> {
    if requests == [] then []
    else
      var cp := requests[|requests| - 1];
      Without(ByRecency(requests[..|requests| - 1]), cp) + [cp]
  }

  predicate NoDups(s: seq<nat>) {
    s == [] || (s[|s| - 1] !in s[..|s| - 1] && NoDups(s[..|s| - 1]))
  }

  /** One request to an LRU list that keeps CAP codepoints. */
  function Touch(recent: seq<nat>, cp: nat): seq<nat> {
    if cp in recent then Without(recent, cp) + [cp]
    else if |recent| >= CAP then recent[1..] + [cp]
    else recent + [cp]
  }

  lemma {:induction false} WithoutAbsent(s: seq<nat>, cp: nat)
    requires cp !in s
    ensures Without(s, cp) == s
  {
    if s != [] { WithoutAbsent(s[..|s| - 1], cp); }
  }

  lemma {:induction false} WithoutAt(s: seq<nat>, k: nat)
    requires k < |s| && NoDups(s)
    ensures Without(s, s[k]) == s[..k] + s[k + 1..]
  {
    var n := |s| - 1;
    if k == n {
      WithoutAbsent(s[..n], s[k]);
    } else {
      WithoutAt(s[..n], k);
      assert s[..n][k] in s[..n];
      assert s[..n][..k] == s[..k] && s[..k] + s[k + 1..] == s[..k] + s[k + 1..n] + [s[n]];
    }
  }

  lemma {:induction false} WithoutKeepsNoDups(s: seq<nat>, cp: nat)
    requires NoDups(s)
    ensures NoDups(Without(s, cp))
  {
    if s != [] {
      var front, last := s[..|s| - 1], s[|s| - 1];
      WithoutKeepsNoDups(front, cp);
      if last != cp { NoDupsAppend(Without(front, cp), last); } else { assert Without(front, cp) + [] == Without(front, cp); }
    }
  }

  lemma NoDupsAppend(s: seq<nat>, x: nat)
    requires NoDups(s) && x !in s
    ensures NoDups(s + [x])
  {
    assert (s + [x])[..|s|] == s;
  }

  lemma {:induction false} ByRecencyNoDups(requests: seq<nat>)
    ensures NoDups(ByRecency(requests))
  {
    if requests != [] {
      var front, cp := requests[..|requests| - 1], requests[|requests| - 1];
      ByRecencyNoDups(front);
      WithoutKeepsNoDups(ByRecency(front), cp);
      NoDupsAppend(Without(ByRecency(front), cp), cp);
    }
  }

  /** When a codepoint was last requested, or -1. */
  function LastRequest(requests: seq<nat>, cp: nat): (i: int)
    ensures -1 <= i < |requests| && (i >= 0 ==> requests[i] == cp) && forall k :: i < k < |requests| ==> requests[k] != cp
  {
    if requests == [] then -1
    else if requests[|requests| - 1] == cp then |requests| - 1 else LastRequest(requests[..|requests| - 1], cp)
  }

  /** Each was requested, and after all before it. */
  predicate InOrder(s: seq<nat>, requests: seq<nat>) {
    s == [] || (&& InOrder(s[..|s| - 1], requests) && s[|s| - 1] in requests
                && forall x :: x in s[..|s| - 1] ==> LastRequest(requests, x) < LastRequest(requests, s[|s| - 1]))
  }

  lemma {:induction false} InOrderWithout(s: seq<nat>, requests: seq<nat>, cp: nat)
    requires InOrder(s, requests)
    ensures InOrder(Without(s, cp), requests + [cp])
  {
    if s != [] {
      var front, last := s[..|s| - 1], s[|s| - 1];
      InOrderWithout(front, requests, cp);
      var r, now := Without(front, cp), requests + [cp];
      assert now[..|requests|] == requests;
      if last == cp {
        assert r + [] == r;
      } else {
        assert (r + [last])[..|r|] == r && last in now;
        forall x | x in r ensures LastRequest(now, x) < LastRequest(now, last) {}
      }
    }
  }

  /** The list by recency holds exactly what was requested, each before what was last requested
      after it. */
  lemma {:induction false} NewestLast(requests: seq<nat>)
    ensures InOrder(ByRecency(requests), requests) && forall x :: x in requests <==> x in ByRecency(requests)
  {
    if requests != [] {
      var front, cp := requests[..|requests| - 1], requests[|requests| - 1];
      NewestLast(front);
      InOrderWithout(ByRecency(front), front, cp);
      assert front + [cp] == requests;
      var r := Without(ByRecency(front), cp);
      assert (r + [cp])[..|r|] == r;
      forall x | x in r ensures LastRequest(requests, x) < LastRequest(requests, cp) { assert x != cp; }
      forall x | x in ByRecency(front) && x != cp ensures x in r { WithoutHas(ByRecency(front), cp, x); }
    }
  }

  lemma {:induction false} WithoutHas(s: seq<nat>, cp: nat, x: nat)
    requires x in s && x != cp
    ensures x in Without(s, cp)
  {
    if s[|s| - 1] != x { WithoutHas(s[..|s| - 1], cp, x); }
  }

  /** Keeping the newest CAP distinct codepoints is what one LRU step does. */
  lemma RequestOne(requests: seq<nat>, cp: nat)
    ensures Touch(LastOf(ByRecency(requests), 1024), cp) == LastOf(ByRecency(requests + [cp]), 1024)
  {
    assert (requests + [cp])[..|requests|] == requests;
    ByRecencyNoDups(requests);
    var p, recent := LastSplit(ByRecency(requests));
    TouchNewest(p, recent, cp);
  }

  /** A list split before its last CAP elements. */
  lemma LastSplit(all: seq<nat>) returns (p: seq<nat>, recent: seq<nat>)
    ensures all == p + recent && recent == LastOf(all, CAP) && |recent| <= CAP && (p == [] || |recent| == CAP)
  {
    if |all| <= CAP {
      p, recent := [], all;
    } else {
      p, recent := all[..|all| - CAP], all[|all| - CAP..];
    }
  }

  lemma TouchNewest(p: seq<nat>, recent: seq<nat>, cp: nat)
    requires NoDups(p + recent) && |recent| <= CAP && (p == [] || |recent| == CAP)
    ensures Touch(recent, cp) == LastOf(Without(p + recent, cp) + [cp], CAP)
  {
    if cp in recent {
      TouchResident(p, recent, cp);
    } else {
      WithoutConcat(p, recent, cp);
      WithoutAbsent(recent, cp);
      TouchFresh(Without(p, cp), recent, cp);
    }
  }

  /** A resident codepoint moves to the end. */
  lemma TouchResident(p: seq<nat>, recent: seq<nat>, cp: nat)
    requires NoDups(p + recent) && cp in recent && |recent| <= CAP && (p == [] || |recent| == CAP)
    ensures Touch(recent, cp) == LastOf(Without(p + recent, cp) + [cp], CAP)
  {
    var rest := Without(recent, cp);
    assert Without(p + recent, cp) == p + rest by {
      WithoutConcat(p, recent, cp);
      Apart(p, recent, cp);
      WithoutAbsent(p, cp);
    }
    assert |rest| == |recent| - 1 by {
      PartNoDups(p, recent);
      WithoutSize(recent, cp);
    }
    LastOfTail(p, rest + [cp]);
    assert p + rest + [cp] == p + (rest + [cp]);
  }

  /** A codepoint that is not resident pushes out the oldest one of a full list. */
  lemma TouchFresh(p: seq<nat>, recent: seq<nat>, cp: nat)
    requires |recent| <= CAP && (p == [] || |recent| == CAP) && cp !in recent
    ensures Touch(recent, cp) == LastOf(p + recent + [cp], CAP)
  {
    if |recent| < CAP {
      LastOfTail([], recent + [cp]);
      assert p + recent + [cp] == [] + (recent + [cp]);
    } else {
      LastOfTail(p + [recent[0]], recent[1..] + [cp]);
      assert p + recent + [cp] == (p + [recent[0]]) + (recent[1..] + [cp]);
    }
  }

  lemma {:induction false} WithoutConcat(a: seq<nat>, b: seq<nat>, cp: nat)
    ensures Without(a + b, cp) == Without(a, cp) + Without(b, cp)
  {
    if b == [] {
      assert a + b == a;
    } else {
      var n := |b| - 1;
      WithoutConcat(a, b[..n], cp);
      assert (a + b)[..|a + b| - 1] == a + b[..n];
    }
  }

  lemma {:induction false} Apart(a: seq<nat>, b: seq<nat>, x: nat)
    requires NoDups(a + b) && x in b
    ensures x !in a
  {
    var n := |b| - 1;
    assert (a + b)[..|a + b| - 1] == a + b[..n];
    if b[n] != x { Apart(a, b[..n], x); }
  }

  lemma {:induction false} PartNoDups(a: seq<nat>, b: seq<nat>)
    requires NoDups(a + b)
    ensures NoDups(b)
  {
    if b != [] {
      assert (a + b)[..|a + b| - 1] == a + b[..|b| - 1];
      PartNoDups(a, b[..|b| - 1]);
    }
  }

  lemma WithoutSize(s: seq<nat>, cp: nat)
    requires NoDups(s) && cp in s
    ensures |Without(s, cp)| == |s| - 1
  {
    var k :| 0 <= k < |s| && s[k] == cp;
    WithoutAt(s, k);
  }

  lemma LastOfTail(p: seq<nat>, t: seq<nat>)
    requires |t| <= CAP && (p == [] || |t| == CAP)
    ensures LastOf(p + t, CAP) == t
  {
  }

  // ---- The table --------------------------------------------------------------

  function Load<G>(s: seq<Slot<G>>): (n: nat)
    ensures n <= |s|
    ensures n == |s| ==> forall i :: 0 <= i < |s| ==> s[i].Held?
    ensures n < |s| ==> exists i :: 0 <= i < |s| && s[i].Vacant?
  {
    if s == [] then 0 else
      var front := s[..|s| - 1];
      Load(front) + if s[|s| - 1].Held? then 1 else 0
  }

  lemma {:induction false} LoadUpdate<G>(s: seq<Slot<G>>, i: nat, v: Slot<G>)
    requires i < |s|
    ensures Load(s[i := v]) == Load(s) - (if s[i].Held? then 1 else 0) + (if v.Held? then 1 else 0)
  {
    var n := |s| - 1;
    if i == n {
      assert s[i := v][..n] == s[..n];
    } else {
      assert s[i := v][..n] == s[..n][i := v];
      LoadUpdate(s[..n], i, v);
    }
  }

  /** No vacant slot comes before slot j on the path of its codepoint. */
  predicate Open<G>(s: seq<Slot<G>>, home: nat -> SlotNo, j: nat)
    requires |s| == CAP && j < CAP && s[j].Held?
  {
    forall i :: 0 <= i < Distance(home(s[j].cp), j, CAP) ==> s[Probe(home(s[j].cp), i, CAP)].Held?
  }

  ghost predicate AllOpen<G>(s: seq<Slot<G>>, home: nat -> SlotNo)
    requires |s| == CAP
  {
    forall j :: 0 <= j < CAP && s[j].Held? ==> Open(s, home, j)
  }

  /** The table holds exactly the listed codepoints, in the slots `at`: the last one is its
      newest entry, holds its glyph and has no twin, and the rest lists the table without it. */
  ghost predicate Lists<G>(s: seq<Slot<G>>, raster: nat -> G, recent: seq<nat>, at: seq<nat>)
    decreases |at|
  {
    |at| == |recent| &&
    if at == [] then forall j :: 0 <= j < |s| ==> s[j].Vacant?
    else
      var n := |at| - 1;
      && at[n] < |s| && Newest(s, raster, at[n], recent[n])
      && Lists(s[at[n] := Vacant], raster, recent[..n], at[..n])
  }

  predicate Newest<G(==)>(s: seq<Slot<G>>, raster: nat -> G, r: nat, cp: nat)
    requires r < |s|
  {
    && s[r].Held? && s[r].cp == cp && s[r].glyph == raster(cp)
    && forall j :: 0 <= j < |s| && j != r && s[j].Held? ==> s[j].lru < s[r].lru && s[j].cp != cp
  }

  function Drop(s: seq<nat>, k: nat): (r: seq<nat>)
    requires k < |s|
    ensures |r| == |s| - 1
  {
    s[..k] + s[k + 1..]
  }

  lemma DropFront(s: seq<nat>, k: nat)
    requires k < |s| - 1
    ensures Drop(s, k)[..|s| - 2] == Drop(s[..|s| - 1], k) && Drop(s, k)[|s| - 2] == s[|s| - 1]
  {
  }

  /** Every listed codepoint has its slot. */
  lemma {:induction false} ListedAt<G>(s: seq<Slot<G>>, raster: nat -> G, recent: seq<nat>, at: seq<nat>, k: nat)
    requires Lists(s, raster, recent, at) && k < |at|
    ensures at[k] < |s| && s[at[k]].Held? && s[at[k]].cp == recent[k] && s[at[k]].glyph == raster(recent[k])
    decreases |at|
  {
    var n := |at| - 1;
    if k < n { ListedAt(s[at[n] := Vacant], raster, recent[..n], at[..n], k); }
  }

  /** Every entry is listed. */
  lemma {:induction false} EntryListed<G>(s: seq<Slot<G>>, raster: nat -> G, recent: seq<nat>, at: seq<nat>, r: nat)
    returns (k: nat)
    requires Lists(s, raster, recent, at) && r < |s| && s[r].Held?
    ensures k < |at| && at[k] == r && recent[k] == s[r].cp
    decreases |at|
  {
    var n := |at| - 1;
    if at[n] == r { k := n; } else { k := EntryListed(s[at[n] := Vacant], raster, recent[..n], at[..n], r); }
  }

  /** No codepoint has two entries. */
  lemma {:induction false} OneEach<G>(s: seq<Slot<G>>, raster: nat -> G, recent: seq<nat>, at: seq<nat>, i: nat, j: nat)
    requires Lists(s, raster, recent, at) && i < |s| && j < |s| && s[i].Held? && s[j].Held? && s[i].cp == s[j].cp
    ensures i == j
    decreases |at|
  {
    var n := |at| - 1;
    if i != at[n] && j != at[n] { OneEach(s[at[n] := Vacant], raster, recent[..n], at[..n], i, j); }
  }

  /** Taking any entry out takes it out of the list. */
  lemma {:induction false} TakeOut<G>(s: seq<Slot<G>>, raster: nat -> G, recent: seq<nat>, at: seq<nat>, k: nat)
    requires Lists(s, raster, recent, at) && k < |at|
    ensures at[k] < |s| && Lists(s[at[k] := Vacant], raster, Drop(recent, k), Drop(at, k))
    decreases |at|
  {
    var n := |at| - 1;
    if k == n {
      assert Drop(recent, n) == recent[..n] && Drop(at, n) == at[..n];
    } else {
      var t := s[at[n] := Vacant];
      TakeOut(t, raster, recent[..n], at[..n], k);
      ListedAt(t, raster, recent[..n], at[..n], k);
      var s' := s[at[k] := Vacant];
      assert s'[at[n] := Vacant] == t[at[k] := Vacant];
      DropFront(recent, k);
      DropFront(at, k);
      assert Newest(s', raster, at[n], recent[n]);
    }
  }

  /** The front of the list is the oldest entry. */
  lemma {:induction false} FrontOldest<G>(s: seq<Slot<G>>, raster: nat -> G, recent: seq<nat>, at: seq<nat>, j: nat)
    requires Lists(s, raster, recent, at) && at != [] && j < |s| && s[j].Held? && j != at[0]
    ensures at[0] < |s| && s[at[0]].Held? && s[at[0]].lru < s[j].lru
    decreases |at|
  {
    var n := |at| - 1;
    ListedAt(s, raster, recent, at, 0);
    var k := EntryListed(s, raster, recent, at, j);
    if k > 0 {
      var t := s[at[n] := Vacant];
      ListedAt(t, raster, recent[..n], at[..n], 0);
      if j != at[n] { FrontOldest(t, raster, recent[..n], at[..n], j); }
    }
  }

  /** A newest entry goes to the end of the list. */
  lemma PutIn<G>(s: seq<Slot<G>>, raster: nat -> G, recent: seq<nat>, at: seq<nat>, r: nat, e: Slot<G>)
    requires Lists(s, raster, recent, at) && r < |s| && s[r].Vacant? && e.Held? && e.glyph == raster(e.cp)
    requires e.cp !in recent && forall j :: 0 <= j < |s| && s[j].Held? ==> s[j].lru < e.lru
    ensures Lists(s[r := e], raster, recent + [e.cp], at + [r])
  {
    var s' := s[r := e];
    forall j | 0 <= j < |s'| && j != r && s'[j].Held? ensures s'[j].cp != e.cp {
      var k := EntryListed(s, raster, recent, at, j);
      assert recent[k] in recent;
    }
    assert s'[r := Vacant] == s;
    assert (recent + [e.cp])[..|recent|] == recent && (at + [r])[..|at|] == at;
  }

  /** Restamping moves nothing. */
  lemma SamePlaces<G>(s: seq<Slot<G>>, home: nat -> SlotNo, r: nat, e: Slot<G>)
    requires |s| == CAP && r < CAP && s[r].Held? && e.Held? && e.cp == s[r].cp
    ensures AllOpen(s, home) ==> AllOpen(s[r := e], home)
  {
    var s' := s[r := e];
    if AllOpen(s, home) {
      forall j | 0 <= j < CAP && s'[j].Held? ensures Open(s', home, j) {
        assert Open(s, home, j);
      }
    }
  }

  /** The whole table: its list, its load, its newest stamp. */
  ghost predicate Sound<G>(s: seq<Slot<G>>, raster: nat -> G, recent: seq<nat>, at: seq<nat>, clock: nat) {
    && |s| == CAP && |recent| == Load(s) && Lists(s, raster, recent, at) && NoDups(recent)
    && forall j :: 0 <= j < |s| && s[j].Held? ==> s[j].lru <= clock
  }

  lemma Evict<G>(s: seq<Slot<G>>, raster: nat -> G, recent: seq<nat>, at: seq<nat>, clock: nat, k: nat)
    requires Sound(s, raster, recent, at, clock) && k < |at|
    ensures at[k] < |s| && s[at[k]].Held? && Drop(recent, k) == Without(recent, recent[k])
    ensures Sound(s[at[k] := Vacant], raster, Drop(recent, k), Drop(at, k), clock)
  {
    ListedAt(s, raster, recent, at, k);
    LoadUpdate(s, at[k], Vacant);
    TakeOut(s, raster, recent, at, k);
    WithoutAt(recent, k);
    WithoutKeepsNoDups(recent, recent[k]);
  }

  lemma Fill<G>(s: seq<Slot<G>>, raster: nat -> G, recent: seq<nat>, at: seq<nat>, clock: nat, r: nat, cp: nat)
    requires Sound(s, raster, recent, at, clock) && r < |s| && s[r].Vacant? && cp !in recent
    ensures Sound(s[r := Held(cp, clock + 1, raster(cp))], raster, recent + [cp], at + [r], clock + 1)
  {
    var e := Held(cp, clock + 1, raster(cp));
    LoadUpdate(s, r, e);
    NoDupsAppend(recent, cp);
    PutIn(s, raster, recent, at, r, e);
  }

  /** Restamping an entry is taking it out and putting it back as the newest. */
  lemma Restamp<G>(s: seq<Slot<G>>, raster: nat -> G, recent: seq<nat>, at: seq<nat>, clock: nat, k: nat)
    requires Sound(s, raster, recent, at, clock) && k < |at|
    ensures at[k] < |s| && s[at[k]].Held? && s[at[k]].glyph == raster(recent[k])
    ensures Sound(s[at[k] := s[at[k]].(lru := clock + 1)], raster, Without(recent, recent[k]) + [recent[k]],
                  Drop(at, k) + [at[k]], clock + 1)
  {
    ListedAt(s, raster, recent, at, k);
    Evict(s, raster, recent, at, clock, k);
    Fill(s[at[k] := Vacant], raster, Drop(recent, k), Drop(at, k), clock, at[k], recent[k]);
    assert s[at[k] := Vacant][at[k] := s[at[k]].(lru := clock + 1)] == s[at[k] := s[at[k]].(lru := clock + 1)];
  }

  class GlyphCache<G> {
    const raster: nat -> G     // the rasteriser
    const home: nat -> SlotNo
    const entries: array<Slot<G>>
    var clock: nat
    var count: nat
    ghost var recent: seq<nat>
    ghost var at: seq<nat>     // the slot of each codepoint in `recent`
    ghost var requests: seq<nat>

    ghost predicate Valid()
      reads this, entries
    {
      entries.Length == CAP && count == |recent| && Sound(entries[..], raster, recent, at, clock)
    }

    /** What is resident is the newest distinct codepoints requested, at most CAP of them. */
    ghost predicate Exact()
      reads this
    {
      recent == LastOf(ByRecency(requests), CAP)
    }

    constructor (raster: nat -> G)
      ensures Valid() && Exact() && AllOpen(entries[..], home) && fresh(entries) && this.raster == raster && home == HashSlot
      ensures requests == [] && clock == 1
    {
      this.raster, home := raster, HashSlot;
      entries := new Slot<G>[CAP](i => Vacant);
      clock, count, recent, at, requests := 1, 0, [], [], [];
      new;
      AllVacant(entries[..]);
    }

    /** fc_find */
    method Find(cp: nat) returns (r: int)
      requires Valid() && AllOpen(entries[..], home)
      ensures cp in recent ==> 0 <= r < CAP && entries[r].Held? && entries[r].cp == cp
      ensures cp !in recent ==> r < 0
    {
      var start := home(cp);
      for i := 0 to CAP
        invariant forall k :: 0 <= k < i ==>
          entries[Probe(start, k, CAP)].Held? && entries[Probe(start, k, CAP)].cp != cp
      {
        var e := Probe(start, i, CAP);
        if entries[e].Vacant? {
          Missed(cp, i);
          return -1;
        }
        if entries[e].cp == cp {
          ghost var k := EntryListed(entries[..], raster, recent, at, e);
          assert recent[k] in recent;
          return e;
        }
      }
      Missed(cp, CAP);
      return -1;
    }

    lemma Missed(cp: nat, n: nat)
      requires Valid() && AllOpen(entries[..], home) && n <= CAP
      requires forall k :: 0 <= k < n ==>
        entries[Probe(home(cp), k, CAP)].Held? && entries[Probe(home(cp), k, CAP)].cp != cp
      requires n < CAP ==> entries[Probe(home(cp), n, CAP)].Vacant?
      ensures cp !in recent
    {
      if cp in recent {
        var k :| 0 <= k < |recent| && recent[k] == cp;
        var j := at[k];
        ListedAt(entries[..], raster, recent, at, k);
        assert entries[..][j].Held? && Open(entries[..], home, j);
        var d := Distance(home(cp), j, CAP);
      }
    }

    /** A hit: the entry's stamp becomes the newest. */
    method Stamp(r: nat, cp: nat)
      requires Valid() && r < CAP && entries[r].Held? && entries[r].cp == cp
      modifies this, entries
      ensures Valid() && recent == Without(old(recent), cp) + [cp] && clock == old(clock) + 1 && requests == old(requests)
      ensures entries[r].Held? && entries[r].glyph == raster(cp)
      ensures AllOpen(old(entries[..]), home) ==> AllOpen(entries[..], home)
    {
      ghost var s := entries[..];
      ghost var k := EntryListed(s, raster, recent, at, r);
      Restamp(s, raster, recent, at, clock, k);
      SamePlaces(s, home, r, s[r].(lru := clock + 1));
      clock := clock + 1;
      entries[r] := entries[r].(lru := clock);
      recent, at := Without(recent, cp) + [cp], Drop(at, k) + [r];
      assert entries[..] == s[r := s[r].(lru := clock)];
    }

    /** fc_evict_lru: the loop finds the oldest stamp, which is the front of the list. */
    method EvictLru()
      requires Valid() && count > 0 && clock < CLOCK_END
      modifies this, entries
      ensures Valid() && recent == old(recent)[1..] && clock == old(clock) && requests == old(requests)
      ensures forall i, j :: 0 <= i < j < CAP && old(entries[i]).Held? && old(entries[j]).Held? ==> entries[i].Held? || entries[j].Held?
    {
      ghost var s := entries[..];
      var oldest, stamp := 0, CLOCK_END;
      for i := 0 to CAP
        invariant 0 <= oldest < CAP
        invariant stamp < CLOCK_END ==> entries[oldest].Held? && entries[oldest].lru == stamp
        invariant forall j :: 0 <= j < i && entries[j].Held? ==> stamp <= entries[j].lru
      {
        if entries[i].Held? && entries[i].lru < stamp {
          oldest, stamp := i, entries[i].lru;
        }
      }
      Evict(s, raster, recent, at, clock, 0);
      assert stamp <= s[at[0]].lru;
      if oldest != at[0] { FrontOldest(s, raster, recent, at, oldest); }
      entries[oldest] := Vacant;
      count := count - 1;
      recent, at := Drop(recent, 0), Drop(at, 0);
      assert entries[..] == s[oldest := Vacant];
    }

    /** The probing loop of fc_insert; some slot is vacant. */
    method FindVacant(start: SlotNo, ghost j: nat) returns (r: nat)
      requires entries.Length == CAP && j < CAP && entries[j].Vacant?
      ensures r < CAP && entries[r].Vacant?
      ensures forall k :: 0 <= k < Distance(start, r, CAP) ==> entries[Probe(start, k, CAP)].Held?
    {
      var i := 0;
      while entries[Probe(start, i, CAP)].Held?
        invariant i <= Distance(start, j, CAP)
        invariant forall k :: 0 <= k < i ==> entries[Probe(start, k, CAP)].Held?
        decreases CAP - i
      {
        i := i + 1;
      }
      r := Probe(start, i, CAP);
      DistanceOf(start, i);
    }

    /** fc_insert and the fill that follows it. */
    method Insert(cp: nat) returns (r: nat)
      requires Valid() && count < CAP && cp !in recent
      modifies this, entries
      ensures Valid() && recent == old(recent) + [cp] && clock == old(clock) + 1 && requests == old(requests)
      ensures r < CAP && old(entries[r]).Vacant? && entries[..] == old(entries[..])[r := Held(cp, clock, raster(cp))]
      ensures Open(entries[..], home, r)
    {
      ghost var s := entries[..];
      var start := home(cp);
      ghost var j :| 0 <= j < CAP && s[j].Vacant?;
      r := FindVacant(start, j);
      Fill(s, raster, recent, at, clock, r, cp);
      clock := clock + 1;
      entries[r] := Held(cp, clock, raster(cp));
      count := count + 1;
      recent, at := recent + [cp], at + [r];
      assert entries[..] == s[r := Held(cp, clock, raster(cp))];
    }

    /** Make room if the cache is full, then insert. */
    method Add(cp: nat) returns (r: nat)
      requires Valid() && AllOpen(entries[..], home) && clock + 1 < CLOCK_END && cp !in recent
      modifies this, entries
      ensures Valid() && AllOpen(entries[..], home) && clock == old(clock) + 1 && requests == old(requests)
      ensures recent == Touch(old(recent), cp) && r < CAP && entries[r].Held? && entries[r].glyph == raster(cp)
    {
      if count >= CAP {
        EvictLru();
        r := Insert(cp);
        assert forall j :: 0 <= j < CAP ==> entries[..][j].Held?;
        return;
      }
      ghost var s := entries[..];
      r := Insert(cp);
      FilledOpen(s, entries[..], home, r);
    }

    /** scene_fontcache_glyph: the glyph is the rasteriser's, and the cache stays the exact
        LRU of all requests so far. */
    method Glyph(cp: nat) returns (g: G)
      requires Valid() && Exact() && AllOpen(entries[..], home) && clock + 1 < CLOCK_END
      modifies this, entries
      ensures Valid() && Exact() && AllOpen(entries[..], home) && clock == old(clock) + 1
      ensures requests == old(requests) + [cp] && g == raster(cp)
    {
      RequestOne(requests, cp);
      var e := Find(cp);
      if e >= 0 {
        Stamp(e, cp);
        g := entries[e].glyph;
      } else {
        var r := Add(cp);
        g := entries[r].glyph;
      }
      requests := requests + [cp];
    }
  }

  lemma {:induction false} AllVacant<G>(s: seq<Slot<G>>)
    requires forall i :: 0 <= i < |s| ==> s[i].Vacant?
    ensures Load(s) == 0
  {
    if s != [] { AllVacant(s[..|s| - 1]); }
  }

  lemma DistanceOf(start: nat, i: nat)
    requires start < CAP && i < CAP
    ensures Distance(start, Probe(start, i, CAP), CAP) == i
  {
  }

  /** Filling one vacant slot, itself reachable, leaves every slot reachable. */
  lemma FilledOpen<G>(s: seq<Slot<G>>, s': seq<Slot<G>>, home: nat -> SlotNo, r: nat)
    requires |s| == |s'| == CAP && r < CAP && s[r].Vacant? && s'[r].Held? && s' == s[r := s'[r]]
    requires AllOpen(s, home) && Open(s', home, r)
    ensures AllOpen(s', home)
  {
    forall j | 0 <= j < CAP && s'[j].Held? ensures Open(s', home, j) {
      if j != r { assert Open(s, home, j); }
    }
  }
}
