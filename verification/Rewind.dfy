// The rewind service (scene_rewind.c): a cursor over the op log, and the diff
// between two points of it, which is an exact patch from one scene to the other.
module Rewind {

  /** A node as the diff compares it; `rect` is x, y, w, h. */
  datatype Snap = Snap(id: nat, role: nat, flags: nat, rect: (int, int, int, int), textHash: nat)

  // ---- Snapshots sorted by id -------------------------------------------------

  /** Ids strictly ascending. */
  predicate Sorted(s: seq<Snap>) {
    forall i, j :: 0 <= i < j < |s| ==> s[i].id < s[j].id
  }

  predicate Unique(s: seq<Snap>) {
    forall i, j :: 0 <= i < j < |s| ==> s[i].id != s[j].id
  }

  function Place(s: seq<Snap>, x: Snap): (r: seq<Snap>)
    ensures multiset(r) == multiset(s) + multiset{x}
  {
    if s == [] then [x]
    else if x.id <= s[0].id then [x] + s
    else
      assert s == [s[0]] + s[1..];
      [s[0]] + Place(s[1..], x)
  }

  /** What qsort by id leaves. */
  function SortById(s: seq<Snap>): (r: seq<Snap>)
    ensures multiset(r) == multiset(s)
  {
    if s == [] then []
    else
      assert s == [s[0]] + s[1..];
      Place(SortById(s[1..]), s[0])
  }

  lemma {:induction false} PlaceSorted(s: seq<Snap>, x: Snap)
    requires Sorted(s) && forall y :: y in s ==> y.id != x.id
    ensures Sorted(Place(s, x))
  {
    if s != [] && x.id > s[0].id {
      PlaceSorted(s[1..], x);
      var r := Place(s[1..], x);
      forall j | 0 <= j < |r| ensures s[0].id < r[j].id {
        assert r[j] in multiset(r);
        assert r[j] in multiset(s[1..]) + multiset{x};
      }
    }
  }

  /** A snapshot without repeated ids sorts strictly. */
  lemma {:induction false} SortByIdSorted(s: seq<Snap>)
    requires Unique(s)
    ensures Sorted(SortById(s))
  {
    if s != [] {
      SortByIdSorted(s[1..]);
      forall y | y in SortById(s[1..]) ensures y.id != s[0].id {
        assert y in multiset(SortById(s[1..]));
        assert y in s[1..];
      }
      PlaceSorted(SortById(s[1..]), s[0]);
    }
  }

  // ---- The diff ---------------------------------------------------------------

  datatype Delta = Delta(created: seq<Snap>, destroyed: seq<Snap>, modified: seq<Snap>)

  /** The merge of two sorted snapshots. */
  function DiffOf(c: seq<Snap>, o: seq<Snap>): (d: Delta)
    ensures |d.created| <= |o| && |d.destroyed| <= |c| && |d.modified| <= |c|
    decreases |c| + |o|
  {
    if c == [] then Delta(o, [], [])
    else if o == [] then Delta([], c, [])
    else if c[0].id == o[0].id then
      var d := DiffOf(c[1..], o[1..]);
      if c[0] != o[0] then d.(modified := [o[0]] + d.modified) else d
    else if c[0].id < o[0].id then
      var d := DiffOf(c[1..], o);
      d.(destroyed := [c[0]] + d.destroyed)
    else
      var d := DiffOf(c, o[1..]);
      d.(created := [o[0]] + d.created)
  }

  /** A snapshot as a map from ids. */
  function ById(s: seq<Snap>): map<nat, Snap> {
    if s == [] then map[] else ById(s[1..])[s[0].id := s[0]]
  }

  lemma {:induction false} ByIdIs(s: seq<Snap>)
    requires Sorted(s)
    ensures forall x :: x in s ==> x.id in ById(s) && ById(s)[x.id] == x
    ensures forall id :: id in ById(s) ==> ById(s)[id] in s && ById(s)[id].id == id
  {
    if s != [] {
      ByIdIs(s[1..]);
      assert s == [s[0]] + s[1..];
    }
  }

  /** Every id of s is above `id`. */
  predicate Above(s: seq<Snap>, id: nat) { forall x :: x in s ==> x.id > id }

  lemma SortedTail(s: seq<Snap>)
    requires Sorted(s) && s != []
    ensures Sorted(s[1..]) && Above(s[1..], s[0].id) && ById(s) == ById(s[1..])[s[0].id := s[0]]
    ensures s[0].id !in ById(s[1..])
  {
    ByIdIs(s[1..]);
    forall x | x in s[1..] ensures x.id > s[0].id {
      var i :| 0 <= i < |s| - 1 && s[1..][i] == x;
    }
  }

  lemma AboveAbsent(s: seq<Snap>, id: nat)
    requires Sorted(s) && (s == [] || s[0].id > id)
    ensures id !in ById(s)
  {
    ByIdIs(s);
    forall x | x in s ensures x.id > id {
      var i :| 0 <= i < |s| && s[i] == x;
      assert i == 0 || s[0].id < s[i].id;
    }
  }

  /** Exactly what each part of the diff holds, id by id. */
  ghost predicate Exact(a: map<nat, Snap>, b: map<nat, Snap>, created: map<nat, Snap>, destroyed: map<nat, Snap>,
                        modified: map<nat, Snap>) {
    && (forall id :: id in created <==> id in b && id !in a)
    && (forall id :: id in destroyed <==> id in a && id !in b)
    && (forall id :: id in modified <==> id in a && id in b && a[id] != b[id])
    && (forall id :: id in created ==> created[id] == b[id])
    && (forall id :: id in destroyed ==> destroyed[id] == a[id])
    && (forall id :: id in modified ==> modified[id] == b[id])
  }

  lemma {:induction false} DiffExact(c: seq<Snap>, o: seq<Snap>)
    requires Sorted(c) && Sorted(o)
    ensures var d := DiffOf(c, o); Exact(ById(c), ById(o), ById(d.created), ById(d.destroyed), ById(d.modified))
    decreases |c| + |o|
  {
    if c != [] && o != [] {
      SortedTail(c);
      SortedTail(o);
      if c[0].id == o[0].id {
        DiffExact(c[1..], o[1..]);
        var d := DiffOf(c[1..], o[1..]);
        assert ([o[0]] + d.modified)[1..] == d.modified;
      } else if c[0].id < o[0].id {
        DiffExact(c[1..], o);
        AboveAbsent(o, c[0].id);
        var d := DiffOf(c[1..], o);
        assert ([c[0]] + d.destroyed)[1..] == d.destroyed;
      } else {
        DiffExact(c, o[1..]);
        AboveAbsent(c, o[0].id);
        var d := DiffOf(c, o[1..]);
        assert ([o[0]] + d.created)[1..] == d.created;
      }
    }
  }

  /** Apply a diff: drop the destroyed, add the created, overwrite the modified. */
  function Patched(a: map<nat, Snap>, d: Delta): map<nat, Snap> {
    a - ById(d.destroyed).Keys + ById(d.created) + ById(d.modified)
  }

  /** The diff is a correct patch from one snapshot to the other, its three id sets are
      disjoint, and it is empty exactly when nothing differs. */
  lemma DiffPatches(c: seq<Snap>, o: seq<Snap>)
    requires Sorted(c) && Sorted(o)
    ensures var d := DiffOf(c, o);
            && Patched(ById(c), d) == ById(o)
            && ById(d.created).Keys !! ById(d.destroyed).Keys !! ById(d.modified).Keys
            && (d == Delta([], [], []) <==> c == o)
  {
    DiffExact(c, o);
    var d := DiffOf(c, o);
    assert Patched(ById(c), d).Keys == ById(o).Keys;
    assert ById(d.created).Keys !! ById(d.destroyed).Keys;
    assert (ById(d.created).Keys + ById(d.destroyed).Keys) !! ById(d.modified).Keys;
    EmptyDiff(c, o);
  }

  lemma {:induction false} EmptyDiff(c: seq<Snap>, o: seq<Snap>)
    ensures DiffOf(c, o) == Delta([], [], []) <==> c == o
    decreases |c|
  {
    if c != [] && o != [] {
      if c[0].id == o[0].id {
        EmptyDiff(c[1..], o[1..]);
        assert c == [c[0]] + c[1..] && o == [o[0]] + o[1..];
      } else {
        assert c[0] != o[0];
      }
    }
  }

  /** The diff the other way destroys what this one creates, and modifies the same ids. */
  lemma {:induction false} DiffReversed(c: seq<Snap>, o: seq<Snap>)
    requires Sorted(c) && Sorted(o)
    ensures DiffOf(o, c).created == DiffOf(c, o).destroyed && DiffOf(o, c).destroyed == DiffOf(c, o).created
    ensures ById(DiffOf(o, c).modified).Keys == ById(DiffOf(c, o).modified).Keys
    decreases |c| + |o|
  {
    DiffExact(c, o);
    DiffExact(o, c);
    if c != [] && o != [] {
      if c[0].id == o[0].id { DiffReversed(c[1..], o[1..]); }
      else if c[0].id < o[0].id { DiffReversed(c[1..], o); }
      else { DiffReversed(c, o[1..]); }
    }
  }

  // ---- Snapshots that stop short ----------------------------------------------

  /** What fits a snapshot array of `cap` entries. */
  function First(s: seq<Snap>, cap: nat): seq<Snap> { if |s| <= cap then s else s[..cap] }

  /** A walk as a map from ids, whatever its order. */
  function Scene(s: seq<Snap>): map<nat, Snap> { ById(SortById(s)) }

  lemma SceneIs(s: seq<Snap>)
    requires Unique(s)
    ensures Sorted(SortById(s))
    ensures forall x :: x in s ==> x.id in Scene(s) && Scene(s)[x.id] == x
    ensures forall id :: id in Scene(s) ==> Scene(s)[id] in s && Scene(s)[id].id == id
  {
    var t := SortById(s);
    SortByIdSorted(s);
    ByIdIs(t);
    forall x ensures x in s <==> x in t { assert x in multiset(s) <==> x in multiset(t); }
  }

  /** m is part of a. */
  predicate Part(m: map<nat, Snap>, a: map<nat, Snap>) { forall id :: id in m ==> id in a && m[id] == a[id] }

  lemma FirstIsPart(s: seq<Snap>, cap: nat)
    requires Unique(s)
    ensures Unique(First(s, cap)) && Part(Scene(First(s, cap)), Scene(s))
  {
    var t := First(s, cap);
    assert forall i :: 0 <= i < |t| ==> t[i] == s[i];
    SceneIs(s);
    SceneIs(t);
    forall x | x in t ensures x in s {
      var i :| 0 <= i < |t| && t[i] == x;
    }
  }

  ghost predicate ExactFor(a: map<nat, Snap>, b: map<nat, Snap>, d: Delta) {
    Exact(a, b, ById(d.created), ById(d.destroyed), ById(d.modified))
  }

  /** What m leaves out of a, and n out of b, is left out of both and is the same in both. */
  ghost predicate LostAlike(a: map<nat, Snap>, m: map<nat, Snap>, b: map<nat, Snap>, n: map<nat, Snap>) {
    forall id :: (id in a && id !in m) || (id in b && id !in n) ==>
      id !in m && id !in n && id in a && id in b && a[id] == b[id]
  }

  /** What n leaves out of b is left out of both and the same in both; what m leaves out of a
      is the same in both, or is in n. */
  ghost predicate LostHarmless(a: map<nat, Snap>, m: map<nat, Snap>, b: map<nat, Snap>, n: map<nat, Snap>) {
    && (forall id :: id in b && id !in n ==> id !in m && id in a && a[id] == b[id])
    && (forall id :: id in a && id !in m && id !in n ==> id in b && a[id] == b[id])
  }

  /** The diff of parts says exactly what changed between the wholes if and only if what they
      leave out is left out of both and unchanged. */
  lemma PartsExactIff(a: map<nat, Snap>, m: map<nat, Snap>, b: map<nat, Snap>, n: map<nat, Snap>, d: Delta)
    requires Part(m, a) && Part(n, b) && ExactFor(m, n, d)
    ensures ExactFor(a, b, d) <==> LostAlike(a, m, b, n)
  {
    var c, x, y := ById(d.created), ById(d.destroyed), ById(d.modified);
    if ExactFor(a, b, d) {
      forall id | (id in a && id !in m) || (id in b && id !in n)
        ensures id !in m && id !in n && id in a && id in b && a[id] == b[id]
      {
        assert id in c <==> id in n && id !in m;
        assert id in x <==> id in m && id !in n;
        assert id in y ==> id in m && id in n;
      }
    }
  }

  /** The patch of the whole, id by id. */
  lemma PatchedAt(a: map<nat, Snap>, m: map<nat, Snap>, n: map<nat, Snap>, d: Delta, id: nat)
    requires Part(m, a) && ExactFor(m, n, d)
    ensures id in Patched(a, d) <==> id in n || (id in a && id !in m)
    ensures id in Patched(a, d) ==> Patched(a, d)[id] == if id in n then n[id] else a[id]
  {
  }

  /** It is a patch between the wholes if and only if what they leave out does no harm. */
  lemma PartsPatchIff(a: map<nat, Snap>, m: map<nat, Snap>, b: map<nat, Snap>, n: map<nat, Snap>, d: Delta)
    requires Part(m, a) && Part(n, b) && ExactFor(m, n, d)
    ensures Patched(a, d) == b <==> LostHarmless(a, m, b, n)
  {
    var p := Patched(a, d);
    forall id ensures (id in p <==> id in n || (id in a && id !in m)) && (id in p ==> p[id] == if id in n then n[id] else a[id]) {
      PatchedAt(a, m, n, d, id);
    }
    PatchSame(a, m, b, n, p);
  }

  lemma PatchSame(a: map<nat, Snap>, m: map<nat, Snap>, b: map<nat, Snap>, n: map<nat, Snap>, p: map<nat, Snap>)
    requires Part(m, a) && Part(n, b)
    requires forall id :: id in p <==> id in n || (id in a && id !in m)
    requires forall id :: id in p ==> p[id] == if id in n then n[id] else a[id]
    ensures p == b <==> LostHarmless(a, m, b, n)
  {
    if p == b {
      forall id | id in b && id !in n ensures id !in m && id in a && a[id] == b[id] { assert id in p; }
      forall id | id in a && id !in m && id !in n ensures id in b && a[id] == b[id] { assert id in p; }
    } else if LostHarmless(a, m, b, n) {
      assert forall id :: id in p <==> id in b;
    }
  }

  /** The diff of two walks of which only the first `cap` nodes were taken. */
  lemma ShortDiff(a: seq<Snap>, b: seq<Snap>, cap: nat) returns (d: Delta)
    requires Unique(a) && Unique(b)
    ensures d == DiffOf(SortById(First(a, cap)), SortById(First(b, cap)))
    ensures ExactFor(Scene(a), Scene(b), d) <==> LostAlike(Scene(a), Scene(First(a, cap)), Scene(b), Scene(First(b, cap)))
    ensures Patched(Scene(a), d) == Scene(b) <==> LostHarmless(Scene(a), Scene(First(a, cap)), Scene(b), Scene(First(b, cap)))
    ensures |a| <= cap && |b| <= cap ==> ExactFor(Scene(a), Scene(b), d) && Patched(Scene(a), d) == Scene(b)
  {
    var m, n := First(a, cap), First(b, cap);
    d := DiffOf(SortById(m), SortById(n));
    FirstIsPart(a, cap);
    FirstIsPart(b, cap);
    SceneIs(m);
    SceneIs(n);
    DiffExact(SortById(m), SortById(n));
    PartsExactIff(Scene(a), Scene(m), Scene(b), Scene(n), d);
    PartsPatchIff(Scene(a), Scene(m), Scene(b), Scene(n), d);
  }

  // ---- The service ------------------------------------------------------------

  /** The spare entries of a snapshot array. */
  const SPARE: nat := 16

  /** scene_store_seek_to's clamp: at least 1, at most the last number of the log. */
  function Clamp(target: nat, last: nat): (n: nat)
    ensures n <= last
  {
    var t := if target < 1 then 1 else target;
    if t > last then last else t
  }

  /** Every number of the log is its own place; 0 goes to 1 and all behind the end to the end. */
  lemma ClampIs(target: nat, last: nat)
    ensures 1 <= target <= last ==> Clamp(target, last) == target
    ensures target > last ==> Clamp(target, last) == last
    ensures target == 0 && last > 0 ==> Clamp(target, last) == 1
  {
  }

  /** `history` is the scene after each op, as the replay arena walks it, and `built` says which
      of them the log can be replayed to.  `last` is the last number of the log, `committed`
      the live scene's, `live` the live scene's node count; they rest while in replay.  `arena`
      is what the replay arena was last built for, which is not always `pos`. */
  class Rewind {
    const history: nat -> seq<Snap>
    const built: nat -> bool
    const last: nat
    const committed: nat
    const live: nat
    var pos: nat
    var arena: nat
    var inReplay: bool

    ghost predicate Valid()
      reads this
    {
      history(0) == [] && (forall n: nat :: n <= last ==> Unique(history(n))) && arena <= last
      && (Sound() && inReplay ==> Placed())
    }

    /** The arena is where the last seek, or the entry into replay, put it. */
    predicate Placed()
      reads this
    {
      arena == Clamp(pos, last) || (pos == 0 && arena == 0)
    }

    /** The log replays to every number. */
    ghost predicate Sound() { forall n: nat :: n <= last ==> built(n) }

    /** The scene the cursor's number stands for: 0 is the empty scene. */
    function At(n: nat): seq<Snap> { history(if n > last then last else n) }

    /** What is shown: the arena's scene. */
    function Shown(): seq<Snap>
      reads this
    {
      history(arena)
    }

    function Cap(): nat { live + SPARE }

    constructor (history: nat -> seq<Snap>, built: nat -> bool, last: nat, committed: nat, live: nat)
      requires history(0) == [] && forall n: nat :: n <= last ==> Unique(history(n))
      ensures Valid() && this.history == history && this.built == built && !inReplay
      ensures this.last == last && this.committed == committed && this.live == live
    {
      this.history, this.built, this.last, this.committed, this.live := history, built, last, committed, live;
      pos, arena, inReplay := 0, 0, false;
    }

    method EnterReplay() returns (ok: bool)
      requires Valid()
      modifies this
      ensures Valid() && ok == (!old(inReplay) && built(0)) && inReplay == (old(inReplay) || ok)
      ensures pos == (if ok then 0 else old(pos)) && (inReplay ==> arena == if old(inReplay) then old(arena) else 0)
    {
      if inReplay { return false; }
      arena := 0;
      if !built(0) { return false; }
      inReplay, pos := true, 0;
      ok := true;
    }

    method ExitReplay() returns (ok: bool)
      requires Valid()
      modifies this`inReplay
      ensures Valid() && ok == old(inReplay) && !inReplay
    {
      ok := inReplay;
      inReplay := false;
    }

    /** A target out of range is not refused: the arena goes to the nearest end, the cursor to
        the target.  If the log cannot be replayed so far, the cursor alone stays. */
    method Seek(target: nat) returns (ok: bool)
      requires Valid()
      modifies this`pos, this`arena
      ensures Valid() && ok == (inReplay && built(Clamp(target, last)))
      ensures pos == (if ok then target else old(pos)) && arena == if inReplay then Clamp(target, last) else old(arena)
    {
      if !inReplay { return false; }
      arena := Clamp(target, last);
      if !built(arena) { return false; }
      pos := target;
      ok := true;
    }

    method StepForward(n: nat) returns (ok: bool)
      requires Valid()
      modifies this`pos, this`arena
      ensures var target := if old(pos) + n > committed then committed else old(pos) + n;
              && Valid() && ok == (inReplay && built(Clamp(target, last)))
              && pos == (if ok then target else old(pos)) && arena == if inReplay then Clamp(target, last) else old(arena)
    {
      if !inReplay { return false; }
      var target := pos + n;
      if target > committed { target := committed; }
      ok := Seek(target);
    }

    /** Stepping back stops at 1, even over an empty log. */
    method StepBackward(n: nat) returns (ok: bool)
      requires Valid()
      modifies this`pos, this`arena
      ensures var target := if old(pos) > n then old(pos) - n else 1;
              && Valid() && ok == (inReplay && built(Clamp(target, last)))
              && pos == (if ok then target else old(pos)) && arena == if inReplay then Clamp(target, last) else old(arena)
    {
      if !inReplay { return false; }
      var target := if pos > n then pos - n else 1;
      ok := Seek(target);
    }

    /** collect_arena_snaps, sorted: the array is sized by the live scene, the walk is the arena's. */
    method Collect() returns (snaps: seq<Snap>)
      requires Valid()
      ensures snaps == SortById(First(Shown(), Cap()))
    {
      var walk := history(arena);
      snaps := [];
      for i := 0 to |walk|
        invariant snaps == First(walk[..i], Cap())
      {
        if |snaps| < Cap() { snaps := snaps + [walk[i]]; }
        assert walk[..i + 1] == walk[..i] + [walk[i]];
      }
      assert walk[..|walk|] == walk;
      snaps := SortById(snaps);
    }

    /** Both numbers are at least 1, or the first op leaves nothing to see, or 0 is compared with
        itself and the arena has left it. */
    predicate Addressed(other: nat)
      reads this
    {
      (pos >= 1 && other >= 1) || history(Clamp(0, last)) == [] || (pos == 0 && other == 0 && arena != 0)
    }

    /** The nodes that do not fit the arrays are the same in both scenes, and fit neither. */
    ghost predicate Lossless(other: nat)
      reads this
    {
      LostAlike(Scene(At(pos)), Scene(First(At(pos), Cap())), Scene(At(other)), Scene(First(At(other), Cap())))
    }

    /** The diff from the arena as it is to another number. */
    function Told(other: nat): Delta
      reads this
    {
      DiffOf(SortById(First(Shown(), Cap())), SortById(First(history(Clamp(other, last)), Cap())))
    }

    /** A diff says exactly what changed between the scenes its two numbers stand for, and the
        arena goes back to what it showed, if and only if the numbers are addressed and no
        node that mattered was left out. */
    lemma ToldIff(other: nat)
      requires Valid() && Placed()
      ensures ExactFor(Scene(At(pos)), Scene(At(other)), Told(other)) && history(Clamp(pos, last)) == Shown()
         <==> Addressed(other) && Lossless(other)
      ensures |At(pos)| <= Cap() && |At(other)| <= Cap() ==> Lossless(other)
    {
      if Addressed(other) {
        ToldRight(other);
      } else if pos == 0 && arena == 0 {
        assert Shown() != history(Clamp(0, last));
      } else {
        ToldWrong(other);
      }
    }

    /** Between numbers of at least 1, it is a patch if and only if what was left out does no harm. */
    lemma ToldPatchIff(other: nat)
      requires Valid() && Placed() && pos >= 1 && other >= 1
      ensures Patched(Scene(At(pos)), Told(other)) == Scene(At(other))
         <==> LostHarmless(Scene(At(pos)), Scene(First(At(pos), Cap())), Scene(At(other)), Scene(First(At(other), Cap())))
    {
      var d := ShortDiff(At(pos), At(other), Cap());
    }

    lemma ToldRight(other: nat)
      requires Valid() && Placed() && Addressed(other)
      ensures history(Clamp(pos, last)) == Shown()
      ensures ExactFor(Scene(At(pos)), Scene(At(other)), Told(other)) <==> Lossless(other)
    {
      if Shown() == At(pos) && history(Clamp(other, last)) == At(other) {
        var d := ShortDiff(At(pos), At(other), Cap());
      } else {
        assert pos == 0 && other == 0 && arena == Clamp(0, last);
        NothingTold();
      }
    }

    /** 0 against 0, once the arena has left it, compares the scene after op 1 with itself. */
    lemma NothingTold()
      requires history(0) == [] && arena == Clamp(0, last)
      ensures ExactFor(Scene(At(0)), Scene(At(0)), Told(0)) && At(0) == []
    {
      var t := SortById(First(Shown(), Cap()));
      EmptyDiff(t, t);
    }

    /** What the first op shows is missing from, or added to, the comparison with 0. */
    lemma ToldWrong(other: nat)
      requires Valid() && Placed() && !Addressed(other) && arena != 0
      ensures !ExactFor(Scene(At(pos)), Scene(At(other)), Told(other))
    {
      var m, n := First(Shown(), Cap()), First(history(Clamp(other, last)), Cap());
      var first := history(Clamp(0, last));
      var x := first[0];
      assert x in First(first, Cap()) by { assert First(first, Cap())[0] == x; }
      FirstIsPart(Shown(), Cap());
      FirstIsPart(history(Clamp(other, last)), Cap());
      SceneIs(m);
      SceneIs(n);
      DiffExact(SortById(m), SortById(n));
      assert ExactFor(Scene(m), Scene(n), Told(other));
    }

    /** scene_rewind_diff, from any state: what it compares, and where it leaves cursor and arena. */
    method Diff(other: nat) returns (ok: bool, d: Delta)
      requires Valid()
      modifies this`pos, this`arena
      ensures Valid() && ok == (inReplay && other <= committed && built(Clamp(other, last)))
      ensures pos == if ok && !built(Clamp(old(pos), last)) then other else old(pos)
      ensures arena == if ok then Clamp(old(pos), last) else if inReplay && other <= committed then Clamp(other, last) else old(arena)
      ensures ok ==> d == old(Told(other))
      ensures ok && Sound() ==>
        pos == old(pos) && (ExactFor(Scene(At(pos)), Scene(At(other)), d) && Shown() == old(Shown()) <==> old(Addressed(other) && Lossless(other)))
    {
      d := Delta([], [], []);
      if !inReplay || other > committed { return false, d; }
      if Placed() { ToldIff(other); }
      var cur := Collect();
      var saved := pos;
      ok := Seek(other);
      if !ok { return; }
      var there := Collect();
      var _ := Seek(saved);
      d := Merge(cur, there);
    }
  }

  // ---- Runs that go wrong -----------------------------------------------------

  /** The diff to an empty scene destroys what fits the array, and no more. */
  lemma DeletedShort(a: seq<Snap>, cap: nat) returns (d: Delta)
    requires Unique(a)
    ensures d == DiffOf(SortById(First(a, cap)), SortById(First([], cap)))
    ensures d.created == d.modified == [] && |d.destroyed| == |First(a, cap)| && (Patched(Scene(a), d) == Scene([]) <==> |a| <= cap)
  {
    d := ShortDiff(a, [], cap);
    var m := First(a, cap);
    assert |SortById(m)| == |m| by { assert |multiset(SortById(m))| == |multiset(m)|; }
    if |a| > cap {
      var x := a[cap];
      SceneIs(a);
      FirstIsPart(a, cap);
      SceneIs(m);
      assert x in a && x.id in Scene(a);
      assert x.id !in Scene(m);
    }
  }

  /** n nodes, each visible. */
  function Boxes(n: nat): (s: seq<Snap>)
    ensures |s| == n && Unique(s)
  {
    seq(n, i requires i >= 0 => Snap(i + 1, 0, 1, (0, 0, 1, 1), 0))
  }

  /** As many ops create boxes and then as many destroy them, the last first. */
  function UpAndDown(top: nat): nat -> seq<Snap> {
    (n: nat) => if n <= top then Boxes(n) else if n <= 2 * top then Boxes(2 * top - n) else []
  }

  /** Back where all the boxes were. */
  method GoBack(top: nat) returns (rw: Rewind)
    ensures fresh(rw) && rw.Valid() && rw.inReplay && rw.live == 0 && rw.last == rw.committed == 2 * top && rw.built(2 * top)
    ensures rw.Shown() == Boxes(top) && rw.history(2 * top) == []
  {
    rw := new Rewind(UpAndDown(top), n => true, 2 * top, 2 * top, 0);
    var _ := rw.EnterReplay();
    var _ := rw.Seek(top);
  }

  /** More than sixteen boxes created, then all destroyed.  Back where they all were, the diff
      to the head lists sixteen of them: it is no patch. */
  method ScrubBack(top: nat) returns (d: Delta)
    requires top > 16
    ensures |d.destroyed| == 16 && d.created == d.modified == [] && Patched(Scene(Boxes(top)), d) != Scene([])
  {
    var rw := GoBack(top);
    ghost var e := DeletedShort(Boxes(top), SPARE);
    var _, delta := rw.Diff(2 * top);
    d := delta;
  }

  /** Whatever the log, if its first op shows something: the same diff asked twice after entering
      replay says first that op 1's nodes are created, then that nothing differs. */
  method AskTwice(history: nat -> seq<Snap>, last: nat, committed: nat, live: nat) returns (first: Delta, second: Delta)
    requires history(0) == [] && (forall n: nat :: n <= last ==> Unique(history(n)))
    requires last >= 1 && committed >= 1 && history(1) != []
    ensures first == Delta(SortById(First(history(1), live + 16)), [], []) && second == Delta([], [], []) && first != second
  {
    var rw := new Rewind(history, n => true, last, committed, live);
    var _ := rw.EnterReplay();
    var _, d := rw.Diff(1);
    var _, e := rw.Diff(1);
    first, second := d, e;
    ghost var t := SortById(First(history(1), live + SPARE));
    EmptyDiff(t, t);
    assert t != [] by { assert |multiset(t)| == |multiset(First(history(1), live + SPARE))|; }
  }

  /** What is collected so far, followed by the diff of what is left. */
  function Joined(done: Delta, d: Delta): Delta {
    Delta(done.created + d.created, done.destroyed + d.destroyed, done.modified + d.modified)
  }

  lemma Create(done: Delta, c: seq<Snap>, o: seq<Snap>)
    requires o != [] && (c == [] || c[0].id > o[0].id)
    ensures Joined(done.(created := done.created + [o[0]]), DiffOf(c, o[1..])) == Joined(done, DiffOf(c, o))
  {
    assert o == [o[0]] + o[1..];
    assert c == [] ==> DiffOf(c, o[1..]) == Delta(o[1..], [], []);
    var r := DiffOf(c, o[1..]).created;
    assert done.created + [o[0]] + r == done.created + ([o[0]] + r);
  }

  lemma Destroy(done: Delta, c: seq<Snap>, o: seq<Snap>)
    requires c != [] && (o == [] || c[0].id < o[0].id)
    ensures Joined(done.(destroyed := done.destroyed + [c[0]]), DiffOf(c[1..], o)) == Joined(done, DiffOf(c, o))
  {
    assert c == [c[0]] + c[1..];
    assert o == [] ==> DiffOf(c[1..], o) == Delta([], c[1..], []);
    var r := DiffOf(c[1..], o).destroyed;
    assert done.destroyed + [c[0]] + r == done.destroyed + ([c[0]] + r);
  }

  lemma Modify(done: Delta, c: seq<Snap>, o: seq<Snap>)
    requires c != [] && o != [] && c[0].id == o[0].id && c[0] != o[0]
    ensures Joined(done.(modified := done.modified + [o[0]]), DiffOf(c[1..], o[1..])) == Joined(done, DiffOf(c, o))
  {
    var r := DiffOf(c[1..], o[1..]).modified;
    assert done.modified + [o[0]] + r == done.modified + ([o[0]] + r);
  }

  method Append(a: array<Snap>, n: nat, x: Snap)
    requires n < a.Length
    modifies a
    ensures a[..n + 1] == old(a[..n]) + [x]
  {
    a[n] := x;
  }

  /** The merge loop.  No array is indexed past its estimated size. */
  method Merge(cur: seq<Snap>, other: seq<Snap>) returns (d: Delta)
    ensures d == DiffOf(cur, other)
  {
    var size := |cur| + |other|;
    var blank := Snap(0, 0, 0, (0, 0, 0, 0), 0);
    var created := new Snap[size](i => blank);
    var destroyed := new Snap[size](i => blank);
    var modified := new Snap[size](i => blank);
    var ci, oi, nc, nd, nm := 0, 0, 0, 0, 0;
    ghost var c, o := cur, other;
    while ci < |cur| || oi < |other|
      invariant ci <= |cur| && oi <= |other| && nc <= oi && nd <= ci && nm <= ci
      invariant c == cur[ci..] && o == other[oi..]
      invariant Joined(Delta(created[..nc], destroyed[..nd], modified[..nm]), DiffOf(c, o)) == DiffOf(cur, other)
      decreases |cur| + |other| - ci - oi
    {
      ghost var done := Delta(created[..nc], destroyed[..nd], modified[..nm]);
      if ci >= |cur| || (oi < |other| && cur[ci].id > other[oi].id) {
        Create(done, c, o);
        Append(created, nc, other[oi]);
        nc, oi, o := nc + 1, oi + 1, o[1..];
      } else if oi >= |other| || cur[ci].id < other[oi].id {
        Destroy(done, c, o);
        Append(destroyed, nd, cur[ci]);
        nd, ci, c := nd + 1, ci + 1, c[1..];
      } else {
        if cur[ci] != other[oi] {
          Modify(done, c, o);
          Append(modified, nm, other[oi]);
          nm := nm + 1;
        }
        ci, oi, c, o := ci + 1, oi + 1, c[1..], o[1..];
      }
    }
    d := Delta(created[..nc], destroyed[..nd], modified[..nm]);
  }
}
