// The launcher (scene_launcher.c) as a slot machine over arbitrary network
// outcomes: the compositor's layers and the joined slots stay matched by server
// identity, and every joined session is reported gone exactly once.
module Launcher {

  const MAX_SESSIONS: nat := 16
  const SHELL: nat := 0

  /** A session slot; `sv` is the server's identity, 0 until the app has joined. */
  datatype Slot = Slot(pid: nat, listening: bool, sv: nat, layer: nat, spawnedAt: int, dead: bool) {
    predicate Joined() { sv > 0 }
  }

  /** The slots, the compositor's layers by server identity with the shell at the bottom,
      the focused layer, and the servers and pids reported to session_exited so far. */
  datatype Desk = Desk(slots: seq<Slot>, layers: seq<nat>, focus: nat, exited: seq<nat>, pids: seq<nat>, nextSv: nat)

  // ---- Counting ---------------------------------------------------------------

  /** How often x occurs in s. */
  function Times(s: seq<nat>, x: nat): nat {
    if s == [] then 0 else Times(s[..|s| - 1], x) + Is(s[|s| - 1], x)
  }

  function Is(y: nat, x: nat): nat { if y == x then 1 else 0 }

  /** The servers of the slots, 0 where none has joined. */
  function Servers(slots: seq<Slot>): (r: seq<nat>)
    ensures |r| == |slots| && forall i :: 0 <= i < |slots| ==> r[i] == slots[i].sv
  {
    seq(|slots|, i requires 0 <= i < |slots| => slots[i].sv)
  }

  function Without<T>(s: seq<T>, i: nat): (r: seq<T>)
    requires i < |s|
    ensures |r| == |s| - 1
  {
    s[..i] + s[i + 1..]
  }

  lemma TimesAppend(s: seq<nat>, y: nat, x: nat)
    ensures Times(s + [y], x) == Times(s, x) + Is(y, x)
  {
    assert (s + [y])[..|s|] == s;
  }

  lemma {:induction false} TimesUpdate(s: seq<nat>, i: nat, y: nat, x: nat)
    requires i < |s|
    ensures Times(s, x) >= Is(s[i], x) && Times(s[i := y], x) == Times(s, x) - Is(s[i], x) + Is(y, x)
  {
    var n := |s| - 1;
    if i == n {
      assert s[i := y][..n] == s[..n];
    } else {
      assert s[i := y][..n] == s[..n][i := y];
      TimesUpdate(s[..n], i, y, x);
    }
  }

  lemma {:induction false} TimesWithout(s: seq<nat>, i: nat, x: nat)
    requires i < |s|
    ensures Times(s, x) == Times(Without(s, i), x) + Is(s[i], x)
  {
    var n := |s| - 1;
    if i == n {
      assert Without(s, n) == s[..n];
    } else {
      assert Without(s, i)[..n - 1] == Without(s[..n], i) && Without(s, i)[n - 1] == s[n];
      TimesWithout(s[..n], i, x);
    }
  }

  lemma {:induction false} TimesIn(s: seq<nat>, x: nat)
    ensures Times(s, x) > 0 <==> x in s
  {
    if s != [] {
      TimesIn(s[..|s| - 1], x);
      assert s == s[..|s| - 1] + [s[|s| - 1]];
    }
  }

  lemma {:induction false} TimesTwice(s: seq<nat>, i: nat, j: nat)
    requires i < j < |s| && s[i] == s[j]
    ensures Times(s, s[i]) >= 2
  {
    var n := |s| - 1;
    if j == n {
      assert s[..n][i] in s[..n];
      TimesIn(s[..n], s[i]);
    } else {
      TimesTwice(s[..n], i, j);
    }
  }

  // ---- One event --------------------------------------------------------------

  /** A spawn takes the next slot. */
  function Spawned(d: Desk, pid: nat, now: int): Desk {
    if |d.slots| >= MAX_SESSIONS then d else d.(slots := d.slots + [Slot(pid, true, 0, 0, now, false)])
  }

  /** join_session: a new server becomes the top layer. */
  function Join(d: Desk, i: nat): Desk
    requires i < |d.slots|
  {
    d.(slots := d.slots[i := d.slots[i].(listening := false, sv := d.nextSv, layer := |d.layers|)],
       layers := d.layers + [d.nextSv], nextSv := d.nextSv + 1)
  }

  /** Phase 1 for a slot: drop a spawn that never connects, or accept it. */
  function Greet(d: Desk, i: nat, now: int, timeout: int, connects: bool): (r: Desk)
    requires i < |d.slots|
    ensures |r.slots| == |d.slots| && |r.layers| >= |d.layers|
  {
    var s := d.slots[i];
    if !s.listening || s.dead then d
    else if now - s.spawnedAt >= timeout then d.(slots := d.slots[i := s.(listening := false, dead := true)])
    else if connects then Join(d, i)
    else d
  }

  /** Phase 2 for a slot: a closed connection or a protocol violation kills it. */
  function Serve(d: Desk, i: nat, fails: bool): (r: Desk)
    requires i < |d.slots|
    ensures |r.slots| == |d.slots|
  {
    var s := d.slots[i];
    if !s.Joined() || s.dead || !fails then d else d.(slots := d.slots[i := s.(dead := true)])
  }

  /** The layer above the shell that a server has, or the layer count. */
  function LayerOf(layers: seq<nat>, sv: nat, from: nat): (i: nat)
    requires from <= |layers|
    ensures from <= i <= |layers| && (i < |layers| ==> layers[i] == sv)
    ensures forall j :: from <= j < i ==> layers[j] != sv
    decreases |layers| - from
  {
    if from == |layers| || layers[from] == sv then from else LayerOf(layers, sv, from + 1)
  }

  /** scene_compositor_remove_session */
  function RemoveLayer(d: Desk, sv: nat): Desk
    requires |d.layers| > 0
  {
    var i := LayerOf(d.layers, sv, 1);
    if i == |d.layers| then d
    else d.(layers := Without(d.layers, i), focus := if d.focus < |d.layers| - 1 then d.focus else 0)
  }

  /** Phase 3 for a dead slot: its layer goes, session_exited fires if it had joined, and
      the slots behind move up. */
  function Reap(d: Desk, i: nat): (r: Desk)
    requires i < |d.slots| && |d.layers| > 0
    ensures r.slots == Without(d.slots, i) && |r.layers| > 0
  {
    var s := d.slots[i];
    var e := if s.Joined() then RemoveLayer(d, s.sv).(exited := d.exited + [s.sv], pids := d.pids + [s.pid]) else d;
    e.(slots := Without(d.slots, i))
  }

  // ---- The invariant ----------------------------------------------------------

  /** A server has a layer exactly when it has a slot; and each one there ever was has one
      of these, or has exited, once. */
  ghost predicate Ledger(layers: seq<nat>, live: seq<nat>, exited: seq<nat>, nextSv: nat) {
    forall sv :: sv > 0 ==>
      Times(layers, sv) == Times(live, sv) && Times(live, sv) + Times(exited, sv) == if sv < nextSv then 1 else 0
  }

  /** A slot listens until its app has joined or it is dead. */
  predicate Tidy(slots: seq<Slot>) {
    forall i :: 0 <= i < |slots| ==>
      (slots[i].Joined() ==> !slots[i].listening) && (slots[i].dead || slots[i].Joined() || slots[i].listening)
  }

  ghost predicate Inv(d: Desk) {
    && |d.layers| > 0 && d.layers[0] == SHELL && d.focus < |d.layers| && |d.slots| <= MAX_SESSIONS && d.nextSv > 0
    && Ledger(d.layers, Servers(d.slots), d.exited, d.nextSv)
    && Tidy(d.slots)
  }

  lemma SpawnKeeps(d: Desk, pid: nat, now: int)
    requires Inv(d)
    ensures Inv(Spawned(d, pid, now))
  {
    var s := Slot(pid, true, 0, 0, now, false);
    assert Servers(d.slots + [s]) == Servers(d.slots) + [0];
    forall sv | sv > 0 ensures Times(Servers(d.slots + [s]), sv) == Times(Servers(d.slots), sv) {
      TimesAppend(Servers(d.slots), 0, sv);
    }
  }

  lemma LedgerJoin(layers: seq<nat>, live: seq<nat>, exited: seq<nat>, n: nat, i: nat)
    requires Ledger(layers, live, exited, n) && n > 0 && i < |live| && live[i] == 0
    ensures Ledger(layers + [n], live[i := n], exited, n + 1)
  {
    forall sv | sv > 0
      ensures Times(layers + [n], sv) == Times(layers, sv) + Is(n, sv)
           && Times(live[i := n], sv) == Times(live, sv) + Is(n, sv)
    {
      TimesAppend(layers, n, sv);
      TimesUpdate(live, i, n, sv);
    }
  }

  lemma LedgerExit(layers: seq<nat>, live: seq<nat>, exited: seq<nat>, n: nat, i: nat, k: nat)
    requires Ledger(layers, live, exited, n) && i < |live| && live[i] > 0 && k < |layers| && layers[k] == live[i]
    ensures Ledger(Without(layers, k), Without(live, i), exited + [live[i]], n)
  {
    forall sv | sv > 0
      ensures Times(Without(layers, k), sv) == Times(layers, sv) - Is(live[i], sv)
           && Times(Without(live, i), sv) == Times(live, sv) - Is(live[i], sv)
           && Times(exited + [live[i]], sv) == Times(exited, sv) + Is(live[i], sv)
    {
      TimesWithout(layers, k, sv);
      TimesWithout(live, i, sv);
      TimesAppend(exited, live[i], sv);
    }
  }

  lemma LedgerIdle(layers: seq<nat>, live: seq<nat>, exited: seq<nat>, n: nat, i: nat)
    requires Ledger(layers, live, exited, n) && i < |live| && live[i] == 0
    ensures Ledger(layers, Without(live, i), exited, n)
  {
    forall sv | sv > 0 ensures Times(Without(live, i), sv) == Times(live, sv) {
      TimesWithout(live, i, sv);
    }
  }

  lemma GreetKeeps(d: Desk, i: nat, now: int, timeout: int, connects: bool)
    requires Inv(d) && i < |d.slots|
    ensures Inv(Greet(d, i, now, timeout, connects))
  {
    var s := d.slots[i];
    if s.listening && !s.dead {
      if now - s.spawnedAt >= timeout {
        assert Servers(d.slots[i := s.(listening := false, dead := true)]) == Servers(d.slots);
      } else if connects {
        assert Servers(Join(d, i).slots) == Servers(d.slots)[i := d.nextSv];
        LedgerJoin(d.layers, Servers(d.slots), d.exited, d.nextSv, i);
      }
    }
  }

  lemma ServeKeeps(d: Desk, i: nat, fails: bool)
    requires Inv(d) && i < |d.slots|
    ensures Inv(Serve(d, i, fails))
  {
    assert Servers(d.slots[i := d.slots[i].(dead := true)]) == Servers(d.slots);
  }

  /** A joined slot's server has its layer above the shell. */
  lemma JoinedLayer(d: Desk, i: nat) returns (k: nat)
    requires Inv(d) && i < |d.slots| && d.slots[i].Joined()
    ensures k == LayerOf(d.layers, d.slots[i].sv, 1) && 1 <= k < |d.layers|
  {
    var sv := d.slots[i].sv;
    assert Servers(d.slots)[i] == sv;
    TimesIn(Servers(d.slots), sv);
    TimesIn(d.layers, sv);
    k := LayerOf(d.layers, sv, 1);
  }

  lemma ReapKeeps(d: Desk, i: nat)
    requires Inv(d) && i < |d.slots|
    ensures Inv(Reap(d, i))
  {
    var s := d.slots[i];
    assert Servers(Without(d.slots, i)) == Without(Servers(d.slots), i);
    if s.Joined() {
      var k := JoinedLayer(d, i);
      LedgerExit(d.layers, Servers(d.slots), d.exited, d.nextSv, i, k);
    } else {
      LedgerIdle(d.layers, Servers(d.slots), d.exited, d.nextSv, i);
    }
  }

  // ---- What the invariant means -----------------------------------------------

  /** Layers above the shell and joined slots are in one-to-one correspondence by server:
      each has exactly one of either until it is reported exited, which happens once. */
  lemma Matched(d: Desk, sv: nat)
    requires Inv(d) && 0 < sv < d.nextSv
    ensures Times(d.layers, sv) == Times(Servers(d.slots), sv) <= 1
    ensures sv in d.layers <==> sv in Servers(d.slots)
    ensures sv in d.layers <==> sv !in d.exited
    ensures Times(d.exited, sv) <= 1
  {
    TimesIn(d.layers, sv);
    TimesIn(Servers(d.slots), sv);
    TimesIn(d.exited, sv);
  }

  /** session_exited never fires for a server that did not join, or is still there. */
  lemma NeverUnjoined(d: Desk, sv: nat)
    requires Inv(d) && sv in d.exited && sv > 0
    ensures sv < d.nextSv && sv !in d.layers && sv !in Servers(d.slots)
  {
    TimesIn(d.exited, sv);
    TimesIn(d.layers, sv);
    TimesIn(Servers(d.slots), sv);
  }

  /** Two joined slots never share a server, nor do two layers. */
  lemma NoSharing(d: Desk, i: nat, j: nat)
    requires Inv(d) && i < j
    ensures j < |d.slots| && d.slots[i].Joined() ==> d.slots[i].sv != d.slots[j].sv
    ensures j < |d.layers| && d.layers[i] > 0 ==> d.layers[i] != d.layers[j]
  {
    if j < |d.slots| && d.slots[i].Joined() && d.slots[i].sv == d.slots[j].sv { TimesTwice(Servers(d.slots), i, j); }
    if j < |d.layers| && d.layers[i] > 0 && d.layers[i] == d.layers[j] { TimesTwice(d.layers, i, j); }
  }

  // ---- A pump -----------------------------------------------------------------

  function GreetAll(d: Desk, now: int, timeout: int, connects: nat -> bool, n: nat): (r: Desk)
    requires n <= |d.slots|
    ensures |r.slots| == |d.slots| && |r.layers| >= |d.layers|
  {
    if n == 0 then d else Greet(GreetAll(d, now, timeout, connects, n - 1), n - 1, now, timeout, connects(n - 1))
  }

  function ServeAll(d: Desk, fails: nat -> bool, n: nat): (r: Desk)
    requires n <= |d.slots|
    ensures |r.slots| == |d.slots| && r.layers == d.layers && r.nextSv == d.nextSv && r.exited == d.exited && r.pids == d.pids
  {
    if n == 0 then d else Serve(ServeAll(d, fails, n - 1), n - 1, fails(n - 1))
  }

  function ReapAll(d: Desk, i: nat): Desk
    requires i <= |d.slots| && |d.layers| > 0
    decreases |d.slots| - i
  {
    if i == |d.slots| then d
    else if d.slots[i].dead then ReapAll(Reap(d, i), i)
    else ReapAll(d, i + 1)
  }

  lemma {:induction false} GreetAllKeeps(d: Desk, now: int, timeout: int, connects: nat -> bool, n: nat) returns (r: Desk)
    requires Inv(d) && n <= |d.slots|
    ensures r == GreetAll(d, now, timeout, connects, n) && Inv(r)
  {
    if n == 0 {
      r := d;
    } else {
      var e := GreetAllKeeps(d, now, timeout, connects, n - 1);
      GreetKeeps(e, n - 1, now, timeout, connects(n - 1));
      r := Greet(e, n - 1, now, timeout, connects(n - 1));
    }
  }

  lemma {:induction false} ServeAllKeeps(d: Desk, fails: nat -> bool, n: nat) returns (r: Desk)
    requires Inv(d) && n <= |d.slots|
    ensures r == ServeAll(d, fails, n) && Inv(r)
  {
    if n == 0 {
      r := d;
    } else {
      var e := ServeAllKeeps(d, fails, n - 1);
      ServeKeeps(e, n - 1, fails(n - 1));
      r := Serve(e, n - 1, fails(n - 1));
    }
  }

  /** Still waiting for its app when its time was up, or met by it in time. */
  predicate Late(s: Slot, now: int, timeout: int) { s.listening && !s.dead && now >= s.spawnedAt + timeout }

  predicate Met(s: Slot, now: int, timeout: int, connects: bool) {
    s.listening && !s.dead && now < s.spawnedAt + timeout && connects
  }

  lemma {:induction false} GreetFate(d: Desk, now: int, timeout: int, connects: nat -> bool, n: nat, k: nat) returns (r: Desk)
    requires d.nextSv > 0 && n <= |d.slots| && k < |d.slots|
    ensures r == GreetAll(d, now, timeout, connects, n) && r.nextSv >= d.nextSv && d.layers <= r.layers
    ensures k >= n ==> r.slots[k] == d.slots[k]
    ensures k < n ==>
      var s, g := d.slots[k], r.slots[k];
      && g.pid == s.pid && g.spawnedAt == s.spawnedAt && g.dead == (s.dead || Late(s, now, timeout))
      && if Met(s, now, timeout, connects(k))
         then !g.listening && g.sv >= d.nextSv && |d.layers| <= g.layer < |r.layers| && r.layers[g.layer] == g.sv
         else g.listening == (s.listening && !Late(s, now, timeout)) && g.sv == s.sv && g.layer == s.layer
  {
    if n == 0 {
      r := d;
    } else {
      r := GreetFate(d, now, timeout, connects, n - 1, k);
      r := Greet(r, n - 1, now, timeout, connects(n - 1));
    }
  }

  lemma {:induction false} ServeFate(d: Desk, fails: nat -> bool, n: nat, k: nat)
    requires n <= |d.slots| && k < |d.slots|
    ensures var s := d.slots[k];
            ServeAll(d, fails, n).slots[k] == s.(dead := s.dead || (k < n && s.sv > 0 && fails(k)))
  {
    if n > 0 { ServeFate(d, fails, n - 1, k); }
  }

  /** What a pump makes of each slot: it is given up, and only then, when the app did not connect
      within the timeout or when it is joined, from before or just now, and its connection fails;
      an app that connects in time gets a server of its own and the layer on top. */
  lemma SlotFate(d: Desk, now: int, timeout: int, connects: nat -> bool, fails: nat -> bool, k: nat)
    requires d.nextSv > 0 && k < |d.slots|
    ensures var e, s := ServeAll(GreetAll(d, now, timeout, connects, |d.slots|), fails, |d.slots|), d.slots[k];
            var r := e.slots[k];
            && r.pid == s.pid
            && (r.dead <==> s.dead || Late(s, now, timeout) || ((s.sv > 0 || Met(s, now, timeout, connects(k))) && fails(k)))
            && if Met(s, now, timeout, connects(k))
               then r.sv >= d.nextSv && |d.layers| <= r.layer < |e.layers| && e.layers[r.layer] == r.sv
               else r.sv == s.sv && r.layer == s.layer && (r.listening <==> s.listening && !Late(s, now, timeout))
  {
    var g := GreetFate(d, now, timeout, connects, |d.slots|, k);
    ServeFate(g, fails, |d.slots|, k);
  }

  lemma {:induction false} ReapAllKeeps(d: Desk, i: nat)
    requires Inv(d) && i <= |d.slots|
    ensures Inv(ReapAll(d, i))
    decreases |d.slots| - i
  {
    if i < |d.slots| {
      if d.slots[i].dead {
        ReapKeeps(d, i);
        ReapAllKeeps(Reap(d, i), i);
      } else {
        ReapAllKeeps(d, i + 1);
      }
    }
  }

  function Survivors(slots: seq<Slot>): seq<Slot> {
    if slots == [] then []
    else (if slots[0].dead then [] else [slots[0]]) + Survivors(slots[1..])
  }

  /** The joined dead slots, in order: their servers and their pids. */
  function Departed(slots: seq<Slot>): (r: (seq<nat>, seq<nat>))
    ensures |r.0| == |r.1|
  {
    if slots == [] then ([], [])
    else
      var s, r := slots[0], Departed(slots[1..]);
      if s.dead && s.Joined() then ([s.sv] + r.0, [s.pid] + r.1) else r
  }

  /** The compacting loop keeps exactly the living slots, in order, and reports exactly the
      joined dead ones, each once, in order. */
  lemma {:induction false} ReapAllExact(d: Desk, i: nat)
    requires i <= |d.slots| && |d.layers| > 0
    ensures ReapAll(d, i).slots == d.slots[..i] + Survivors(d.slots[i..])
    ensures ReapAll(d, i).exited == d.exited + Departed(d.slots[i..]).0
    ensures ReapAll(d, i).pids == d.pids + Departed(d.slots[i..]).1
    decreases |d.slots| - i
  {
    if i < |d.slots| {
      var rest := d.slots[i..];
      assert rest[1..] == d.slots[i + 1..];
      if d.slots[i].dead {
        var r := Reap(d, i);
        assert r.slots[i..] == rest[1..] && r.slots[..i] == d.slots[..i];
        ReapAllExact(r, i);
        assert r.exited + Departed(rest[1..]).0 == d.exited + Departed(rest).0;
        assert r.pids + Departed(rest[1..]).1 == d.pids + Departed(rest).1;
      } else {
        ReapAllExact(d, i + 1);
        assert d.slots[..i + 1] + Survivors(rest[1..]) == d.slots[..i] + Survivors(rest);
      }
    }
  }

  lemma Reaped(d: Desk)
    requires |d.layers| > 0
    ensures var r := ReapAll(d, 0);
            r.slots == Survivors(d.slots) && r.exited == d.exited + Departed(d.slots).0 && r.pids == d.pids + Departed(d.slots).1
  {
    ReapAllExact(d, 0);
    assert d.slots[0..] == d.slots && d.slots[..0] + Survivors(d.slots) == Survivors(d.slots);
  }

  lemma Cancel(a: seq<nat>, b: seq<nat>, c: seq<nat>)
    requires a + b == a + c
    ensures b == c
  {
    assert b == (a + b)[|a|..] && c == (a + c)[|a|..];
  }

  function Pids(reports: seq<(int, nat)>): seq<nat> {
    if reports == [] then [] else Pids(reports[..|reports| - 1]) + [reports[|reports| - 1].1]
  }

  lemma PidsAppend(reports: seq<(int, nat)>, r: (int, nat))
    ensures Pids(reports + [r]) == Pids(reports) + [r.1]
  {
    assert (reports + [r])[..|reports|] == reports;
  }

  class Launcher {
    const sessions: array<Slot>
    var count: nat
    var layers: seq<nat>       // the compositor's, by server identity
    var focus: nat
    var nextSv: nat
    var timeout: int
    ghost var exited: seq<nat>
    ghost var pids: seq<nat>

    ghost predicate Valid()
      reads this, sessions
    {
      sessions.Length == MAX_SESSIONS && count <= MAX_SESSIONS && |layers| > 0
    }

    ghost function View(): Desk
      reads this, sessions
      requires Valid()
    {
      Desk(sessions[..count], layers, focus, exited, pids, nextSv)
    }

    constructor ()
      ensures Valid() && fresh(sessions) && Inv(View()) && View() == Desk([], [SHELL], 0, [], [], 1) && timeout == 10
    {
      sessions := new Slot[MAX_SESSIONS](i => Slot(0, false, 0, 0, 0, false));
      count, layers, focus, nextSv, timeout, exited, pids := 0, [SHELL], 0, 1, 10, [], [];
    }

    /** scene_launcher_spawn; `started` says that listener and process came up. */
    method Spawn(pid: nat, now: int, started: bool) returns (ok: bool)
      requires Valid() && Inv(View())
      modifies this`count, sessions
      ensures Valid() && Inv(View()) && ok == (started && old(count) < 16)
      ensures ok ==> count == old(count) + 1 && sessions[old(count)] == Slot(pid, true, 0, 0, now, false)
      ensures View() == if ok then Spawned(old(View()), pid, now) else old(View())
    {
      if count >= MAX_SESSIONS || !started { return false; }
      SpawnKeeps(View(), pid, now);
      sessions[count] := Slot(pid, true, 0, 0, now, false);
      count := count + 1;
      assert sessions[..count] == old(sessions[..count]) + [Slot(pid, true, 0, 0, now, false)];
      ok := true;
    }

    method Set(i: nat, s: Slot)
      requires Valid() && i < count
      modifies sessions
      ensures Valid() && sessions[..count] == old(sessions[..count])[i := s]
    {
      sessions[i] := s;
    }

    method GreetSlots(now: int, connects: nat -> bool)
      requires Valid()
      modifies this`layers, this`nextSv, sessions
      ensures Valid() && View() == GreetAll(old(View()), now, timeout, connects, count)
    {
      for i := 0 to count
        invariant Valid() && View() == GreetAll(old(View()), now, timeout, connects, i)
      {
        var s := sessions[i];
        assert s == View().slots[i];
        if s.listening && !s.dead {
          if now - s.spawnedAt >= timeout {
            Set(i, s.(listening := false, dead := true));
          } else if connects(i) {
            Set(i, s.(listening := false, sv := nextSv, layer := |layers|));
            layers, nextSv := layers + [nextSv], nextSv + 1;
          }
        }
      }
    }

    method ServeSlots(fails: nat -> bool)
      requires Valid()
      modifies sessions
      ensures Valid() && View() == ServeAll(old(View()), fails, count)
    {
      for i := 0 to count
        invariant Valid() && View() == ServeAll(old(View()), fails, i)
      {
        var s := sessions[i];
        assert s == View().slots[i];
        if s.sv > 0 && !s.dead && fails(i) { Set(i, s.(dead := true)); }
      }
    }

    /** The memmove that closes the gap at i. */
    method Compact(i: nat)
      requires Valid() && i < count
      modifies this`count, sessions
      ensures Valid() && count == old(count) - 1 && sessions[..count] == Without(old(sessions[..count]), i)
    {
      for k := i to count - 1
        invariant count == old(count)
        invariant forall j :: 0 <= j < count ==> sessions[j] == old(sessions[if i <= j < k then j + 1 else j])
      {
        sessions[k] := sessions[k + 1];
      }
      count := count - 1;
    }

    method Remove(sv: nat) returns (layer: int)
      requires Valid()
      modifies this`layers, this`focus
      ensures Valid() && View() == RemoveLayer(old(View()), sv)
      ensures layer == if LayerOf(old(layers), sv, 1) < |old(layers)| then LayerOf(old(layers), sv, 1) else -1
    {
      var i := 1;
      while i < |layers| && layers[i] != sv
        invariant 1 <= i <= |layers| && LayerOf(layers, sv, 1) == LayerOf(layers, sv, i)
      {
        i := i + 1;
      }
      if i == |layers| { return -1; }
      layers := layers[..i] + layers[i + 1..];
      if focus >= |layers| { focus := 0; }
      layer := i;
    }

    /** scene_compositor_set_focus_layer */
    method SetFocus(layer: int) returns (ok: bool)
      requires Valid() && Inv(View())
      modifies this`focus
      ensures Valid() && Inv(View()) && ok == (0 <= layer < |layers|)
      ensures View() == if layer < 0 then old(View()) else Focused(old(View()), layer)
    {
      if layer < 0 || layer >= |layers| { return false; }
      focus := layer;
      return true;
    }

    /** The reaping loop; `reports` are its session_exited calls, as (layer, pid). */
    method ReapSlots() returns (reports: seq<(int, nat)>)
      requires Valid() && Inv(View())
      modifies this`count, this`layers, this`focus, this`exited, this`pids, sessions
      ensures Valid() && View() == ReapAll(old(View()), 0)
      ensures pids == old(pids) + Pids(reports) && forall k :: 0 <= k < |reports| ==> reports[k].0 >= 1
    {
      reports := [];
      var i := 0;
      while i < count
        invariant Valid() && Inv(View()) && i <= count && ReapAll(View(), i) == ReapAll(old(View()), 0)
        invariant pids == old(pids) + Pids(reports) && forall k :: 0 <= k < |reports| ==> reports[k].0 >= 1
        decreases count - i
      {
        var s := sessions[i];
        assert s == View().slots[i];
        if !s.dead {
          i := i + 1;
          continue;
        }
        ghost var d := View();
        ReapKeeps(d, i);
        if s.sv > 0 {
          ghost var k := JoinedLayer(d, i);
          var layer := Remove(s.sv);
          PidsAppend(reports, (layer, s.pid));
          reports := reports + [(layer, s.pid)];
          exited, pids := exited + [s.sv], pids + [s.pid];
        }
        Compact(i);
        assert View() == Reap(d, i);
      }
    }

    /** scene_launcher_pump against arbitrary clock, connection and failure outcomes. */
    method Pump(now: int, connects: nat -> bool, fails: nat -> bool) returns (reports: seq<(int, nat)>)
      requires Valid() && Inv(View())
      modifies this`count, this`layers, this`focus, this`nextSv, this`exited, this`pids, sessions
      ensures Valid() && Inv(View())
      ensures var d := ServeAll(GreetAll(old(View()), now, timeout, connects, old(count)), fails, old(count));
              sessions[..count] == Survivors(d.slots) && exited == old(exited) + Departed(d.slots).0
              && Pids(reports) == Departed(d.slots).1
      ensures forall k :: 0 <= k < |reports| ==> reports[k].0 >= 1
    {
      ghost var d0 := View();
      ghost var _ := GreetAllKeeps(d0, now, timeout, connects, count);
      GreetSlots(now, connects);
      ghost var d1 := View();
      ghost var _ := ServeAllKeeps(d1, fails, count);
      ServeSlots(fails);
      ghost var d2 := View();
      ReapAllKeeps(d2, 0);
      Reaped(d2);
      GreetReportsNothing(d0, now, timeout, connects, count);
      reports := ReapSlots();
      Cancel(old(pids), Pids(reports), Departed(d2.slots).1);
    }
  }

  lemma {:induction false} GreetReportsNothing(d: Desk, now: int, timeout: int, connects: nat -> bool, n: nat)
    requires n <= |d.slots|
    ensures GreetAll(d, now, timeout, connects, n).exited == d.exited && GreetAll(d, now, timeout, connects, n).pids == d.pids
  {
    if n > 0 { GreetReportsNothing(d, now, timeout, connects, n - 1); }
  }

  // ---- The layer number stored in a slot --------------------------------------

  /** The layer number a slot stored at its join still names its server's layer. */
  predicate Right(d: Desk, j: nat)
    requires j < |d.slots|
  {
    d.slots[j].layer < |d.layers| && d.layers[d.slots[j].layer] == d.slots[j].sv
  }

  /** Servers join in order, so layers lie in the order of their servers. */
  ghost predicate Rising(layers: seq<nat>, n: nat) {
    (forall a, b :: 0 <= a < b < |layers| ==> layers[a] < layers[b]) && forall a :: 0 <= a < |layers| ==> layers[a] < n
  }

  lemma RisingJoin(layers: seq<nat>, n: nat)
    requires Rising(layers, n)
    ensures Rising(layers + [n], n + 1)
  {
  }

  lemma RisingWithout(layers: seq<nat>, n: nat, k: nat) returns (r: seq<nat>)
    requires Rising(layers, n) && k < |layers|
    ensures r == Without(layers, k) && Rising(r, n)
    ensures forall a :: 0 <= a < |layers| - 1 ==> r[a] == layers[if a < k then a else a + 1]
  {
    r := Without(layers, k);
  }

  /** In rising layers a server's layer is where it is seen. */
  lemma LayerIs(layers: seq<nat>, n: nat, k: nat)
    requires Rising(layers, n) && 1 <= k < |layers|
    ensures LayerOf(layers, layers[k], 1) == k
  {
    assert forall a :: 1 <= a < k ==> layers[a] < layers[k];
  }

  /** Where a server's layer is once the layer at k has gone. */
  lemma LayerAfter(layers: seq<nat>, n: nat, k: nat, j: nat)
    requires Rising(layers, n) && 1 <= k < |layers| && 1 <= j < |layers| && j != k
    ensures LayerOf(Without(layers, k), layers[j], 1) == (if k < j then j - 1 else j)
    ensures layers[k] < layers[j] <==> k < j
  {
    var r := RisingWithout(layers, n, k);
    var j' := if k < j then j - 1 else j;
    LayerIs(r, n, j');
    if j < k { assert layers[j] < layers[k]; } else { assert layers[k] < layers[j]; }
  }

  /** The servers below `sv` that exited from the n-th exit on. */
  function GoneBelow(exited: seq<nat>, n: nat, sv: nat): nat {
    if |exited| <= n then 0
    else GoneBelow(exited[..|exited| - 1], n, sv) + if exited[|exited| - 1] < sv then 1 else 0
  }

  lemma GoneNext(exited: seq<nat>, x: nat, n: nat, sv: nat)
    requires n <= |exited|
    ensures GoneBelow(exited + [x], n, sv) == GoneBelow(exited, n, sv) + if x < sv then 1 else 0
  {
    assert (exited + [x])[..|exited|] == exited;
  }

  /** What can happen to the slots and layers. */
  datatype Event =
    | Spawn(pid: nat, now: int)
    | Meet(i: nat, now: int, timeout: int, connects: bool)
    | Service(i: nat, fails: bool)
    | Bury(i: nat)
    | Focus(i: nat)

  /** scene_compositor_set_focus_layer */
  function Focused(d: Desk, i: nat): Desk { if i < |d.layers| then d.(focus := i) else d }

  function Happen(d: Desk, ev: Event): Desk
    requires |d.layers| > 0
  {
    match ev
    case Spawn(pid, now) => Spawned(d, pid, now)
    case Meet(i, now, timeout, connects) => if i < |d.slots| then Greet(d, i, now, timeout, connects) else d
    case Service(i, fails) => if i < |d.slots| then Serve(d, i, fails) else d
    case Bury(i) => if i < |d.slots| && d.slots[i].dead then Reap(d, i) else d
    case Focus(i) => Focused(d, i)
  }

  /** A desk and, by server, how many sessions had exited when it joined. */
  datatype Story = Story(d: Desk, born: seq<nat>)

  function Told(s: Story, ev: Event): Story
    requires |s.d.layers| > 0
  {
    var d := Happen(s.d, ev);
    Story(d, if d.nextSv == s.d.nextSv then s.born else s.born + [|s.d.exited|])
  }

  const FIRST := Story(Desk([], [SHELL], 0, [], [], 1), [0])

  function Tell(events: seq<Event>): (s: Story)
    ensures |s.d.layers| > 0
  {
    if events == [] then FIRST else HappenKeepsShell(Tell(events[..|events| - 1]), events[|events| - 1])
  }

  function HappenKeepsShell(s: Story, ev: Event): (r: Story)
    requires |s.d.layers| > 0
    ensures r == Told(s, ev) && |r.d.layers| > 0
  {
    Told(s, ev)
  }

  /** A joined slot's stored layer is too high by the lower layers gone since it joined. */
  predicate Dated(s: Slot, layers: seq<nat>, exited: seq<nat>, born: seq<nat>)
    requires |layers| > 0
  {
    s.Joined() ==>
      && s.sv < |born| && born[s.sv] <= |exited|
      && s.layer == LayerOf(layers, s.sv, 1) + GoneBelow(exited, born[s.sv], s.sv)
  }

  ghost predicate StoryOk(s: Story) {
    && Inv(s.d) && Rising(s.d.layers, s.d.nextSv) && |s.born| == s.d.nextSv
    && forall i :: 0 <= i < |s.d.slots| ==> Dated(s.d.slots[i], s.d.layers, s.d.exited, s.born)
  }

  lemma FirstOk()
    ensures StoryOk(FIRST)
  {
    assert Servers([]) == [];
  }

  lemma FocusKeeps(d: Desk, i: nat)
    requires Inv(d)
    ensures Inv(Focused(d, i))
  {
  }

  /** A join leaves every other slot's layer where it was. */
  lemma JoinDates(s: Story, i: nat, j: nat)
    requires StoryOk(s) && i < |s.d.slots| && j < |s.d.slots| && s.d.slots[i].sv == 0
    ensures Dated(Join(s.d, i).slots[j], s.d.layers + [s.d.nextSv], s.d.exited, s.born + [|s.d.exited|])
  {
    var d, n := s.d, s.d.nextSv;
    RisingJoin(d.layers, n);
    if j == i {
      assert (d.layers + [n])[|d.layers|] == n;
      LayerIs(d.layers + [n], n + 1, |d.layers|);
    } else if d.slots[j].Joined() {
      var k := JoinedLayer(d, j);
      assert (d.layers + [n])[k] == d.slots[j].sv;
      LayerIs(d.layers + [n], n + 1, k);
      assert Dated(d.slots[j], d.layers, d.exited, s.born);
    }
  }

  /** A burial moves the layers above down by one, and is counted by the slots it moves. */
  lemma ReapDates(s: Story, i: nat, j: nat)
    requires StoryOk(s) && i < |s.d.slots| && j < |s.d.slots| && j != i
    ensures Dated(s.d.slots[j], Reap(s.d, i).layers, Reap(s.d, i).exited, s.born)
  {
    var d := s.d;
    assert Dated(d.slots[j], d.layers, d.exited, s.born);
    if d.slots[i].Joined() && d.slots[j].Joined() {
      var k := JoinedLayer(d, i);
      var l := JoinedLayer(d, j);
      if i < j { NoSharing(d, i, j); } else { NoSharing(d, j, i); }
      LayerAfter(d.layers, d.nextSv, k, l);
      GoneNext(d.exited, d.slots[i].sv, s.born[d.slots[j].sv], d.slots[j].sv);
    }
  }

  lemma MeetKeeps(s: Story, i: nat, now: int, timeout: int, connects: bool)
    requires StoryOk(s) && i < |s.d.slots|
    ensures StoryOk(Told(s, Meet(i, now, timeout, connects)))
  {
    var r := Told(s, Meet(i, now, timeout, connects));
    GreetKeeps(s.d, i, now, timeout, connects);
    if r.d.nextSv != s.d.nextSv {
      RisingJoin(s.d.layers, s.d.nextSv);
      forall j | 0 <= j < |r.d.slots| ensures Dated(r.d.slots[j], r.d.layers, r.d.exited, r.born) { JoinDates(s, i, j); }
    } else {
      forall j | 0 <= j < |r.d.slots| ensures Dated(r.d.slots[j], r.d.layers, r.d.exited, r.born) {
        assert Dated(s.d.slots[j], s.d.layers, s.d.exited, s.born);
      }
    }
  }

  lemma BuryKeeps(s: Story, i: nat)
    requires StoryOk(s) && i < |s.d.slots| && s.d.slots[i].dead
    ensures StoryOk(Told(s, Bury(i)))
  {
    var r := Told(s, Bury(i));
    ReapKeeps(s.d, i);
    if s.d.slots[i].Joined() {
      var k := JoinedLayer(s.d, i);
      var _ := RisingWithout(s.d.layers, s.d.nextSv, k);
    }
    forall j | 0 <= j < |r.d.slots| ensures Dated(r.d.slots[j], r.d.layers, r.d.exited, r.born) {
      ReapDates(s, i, if j < i then j else j + 1);
    }
  }

  lemma ToldOk(s: Story, ev: Event)
    requires StoryOk(s)
    ensures StoryOk(Told(s, ev))
  {
    match ev
    case Spawn(pid, now) => SpawnKeeps(s.d, pid, now);
    case Meet(i, now, timeout, connects) => if i < |s.d.slots| { MeetKeeps(s, i, now, timeout, connects); }
    case Service(i, fails) =>
      if i < |s.d.slots| {
        ServeKeeps(s.d, i, fails);
        assert Dated(s.d.slots[i], s.d.layers, s.d.exited, s.born);
      }
    case Bury(i) => if i < |s.d.slots| && s.d.slots[i].dead { BuryKeeps(s, i); }
    case Focus(i) => FocusKeeps(s.d, i);
  }

  lemma {:induction false} TellOk(events: seq<Event>)
    ensures StoryOk(Tell(events))
  {
    if events == [] {
      FirstOk();
    } else {
      TellOk(events[..|events| - 1]);
      ToldOk(Tell(events[..|events| - 1]), events[|events| - 1]);
    }
  }

  lemma TellOne(events: seq<Event>, ev: Event) returns (longer: seq<Event>)
    ensures longer == events + [ev] && Tell(longer) == Told(Tell(events), ev)
  {
    longer := events + [ev];
    assert longer[..|longer| - 1] == events;
  }

  lemma {:induction false} GreetAllTold(events: seq<Event>, now: int, timeout: int, connects: nat -> bool, n: nat)
    returns (longer: seq<Event>)
    requires n <= |Tell(events).d.slots|
    ensures Tell(longer).d == GreetAll(Tell(events).d, now, timeout, connects, n)
  {
    longer := events;
    if n > 0 {
      longer := GreetAllTold(events, now, timeout, connects, n - 1);
      longer := TellOne(longer, Meet(n - 1, now, timeout, connects(n - 1)));
    }
  }

  lemma {:induction false} ServeAllTold(events: seq<Event>, fails: nat -> bool, n: nat) returns (longer: seq<Event>)
    requires n <= |Tell(events).d.slots|
    ensures Tell(longer).d == ServeAll(Tell(events).d, fails, n)
  {
    longer := events;
    if n > 0 {
      longer := ServeAllTold(events, fails, n - 1);
      longer := TellOne(longer, Service(n - 1, fails(n - 1)));
    }
  }

  lemma {:induction false} ReapAllTold(events: seq<Event>, i: nat) returns (longer: seq<Event>)
    requires i <= |Tell(events).d.slots|
    ensures Tell(longer).d == ReapAll(Tell(events).d, i)
    decreases |Tell(events).d.slots| - i
  {
    var d := Tell(events).d;
    if i == |d.slots| {
      longer := events;
    } else if d.slots[i].dead {
      longer := TellOne(events, Bury(i));
      longer := ReapAllTold(longer, i);
    } else {
      longer := ReapAllTold(events, i + 1);
    }
  }

  /** A pump is a run of these events, so what holds over runs holds from pump to pump. */
  lemma PumpIsRun(events: seq<Event>, now: int, timeout: int, connects: nat -> bool, fails: nat -> bool)
    returns (longer: seq<Event>)
    ensures var d := Tell(events).d; var g := GreetAll(d, now, timeout, connects, |d.slots|);
            Tell(longer).d == ReapAll(ServeAll(g, fails, |d.slots|), 0)
  {
    longer := GreetAllTold(events, now, timeout, connects, |Tell(events).d.slots|);
    longer := ServeAllTold(longer, fails, |Tell(longer).d.slots|);
    longer := ReapAllTold(longer, 0);
  }

  /** Over any run, the layer number stored in a joined slot is right if and only if no lower
      layer has gone since it joined; it is too high by as many as have. */
  lemma StoredLayerRightIff(events: seq<Event>, j: nat)
    requires j < |Tell(events).d.slots| && Tell(events).d.slots[j].Joined()
    ensures var s := Tell(events); var slot := s.d.slots[j];
            && slot.sv < |s.born| && slot.layer == LayerOf(s.d.layers, slot.sv, 1) + GoneBelow(s.d.exited, s.born[slot.sv], slot.sv)
            && (Right(s.d, j) <==> GoneBelow(s.d.exited, s.born[slot.sv], slot.sv) == 0)
  {
    TellOk(events);
    var s := Tell(events);
    assert Dated(s.d.slots[j], s.d.layers, s.d.exited, s.born);
    var k := JoinedLayer(s.d, j);
    if Right(s.d, j) { LayerIs(s.d.layers, s.d.nextSv, s.d.slots[j].layer); }
  }

  /** One burial: a stored layer that was right becomes wrong if and only if the slot buried
      had joined and its server's layer lay below. */
  lemma ReapStales(s: Story, i: nat, j: nat)
    requires StoryOk(s) && i < |s.d.slots| && j < |s.d.slots| && i != j && s.d.slots[j].Joined() && Right(s.d, j)
    ensures var j' := if j < i then j else j - 1;
            && Reap(s.d, i).slots[j'] == s.d.slots[j]
            && (!Right(Reap(s.d, i), j') <==> s.d.slots[i].Joined() && LayerOf(s.d.layers, s.d.slots[i].sv, 1) < s.d.slots[j].layer)
  {
    var d, l := s.d, s.d.slots[j].layer;
    assert l > 0 by { assert d.layers[0] == SHELL; }
    if d.slots[i].Joined() {
      var k := JoinedLayer(d, i);
      if i < j { NoSharing(d, i, j); } else { NoSharing(d, j, i); }
      var r := RisingWithout(d.layers, d.nextSv, k);
      if k < l && l < |r| { assert r[l] == d.layers[l + 1] && d.layers[l] < d.layers[l + 1]; }
    }
  }

  /** The focus is not moved down with the layers: after a burial it is on the same server
      as before if and only if it was below the layer that went. */
  lemma FocusSlips(s: Story, i: nat)
    requires StoryOk(s) && i < |s.d.slots| && s.d.slots[i].Joined()
    ensures var r := Reap(s.d, i);
            && r.focus < |r.layers|
            && (r.layers[r.focus] == s.d.layers[s.d.focus] <==> s.d.focus < LayerOf(s.d.layers, s.d.slots[i].sv, 1))
  {
    var d := s.d;
    var k := JoinedLayer(d, i);
    var r := RisingWithout(d.layers, d.nextSv, k);
    if k <= d.focus && d.focus < |r| { assert r[d.focus] == d.layers[d.focus + 1]; }
  }

  /** Two apps join, the first one's connection ends: the second slot still says layer 2,
      and its app is on layer 1. */
  lemma StoredLayerGoesStale()
    ensures var d0 := Desk([], [SHELL], 0, [], [], 1);
            var d1 := Join(Join(Spawned(Spawned(d0, 7, 0), 8, 0), 0), 1);
            var d2 := Reap(Serve(d1, 0, true), 0);
            Inv(d1) && d1.layers[d1.slots[1].layer] == d1.slots[1].sv
            && |d2.slots| == 1 && d2.slots[0].layer == 2 && |d2.layers| == 2 && d2.layers[1] == d2.slots[0].sv
  {
    var d0 := Desk([], [SHELL], 0, [], [], 1);
    SpawnKeeps(d0, 7, 0);
    var d := Spawned(d0, 7, 0);
    SpawnKeeps(d, 8, 0);
    var e := Spawned(d, 8, 0);
    GreetKeeps(e, 0, 0, 10, true);
    GreetKeeps(Join(e, 0), 1, 0, 10, true);
    var d1 := Join(Join(e, 0), 1);
    assert d1.layers == [0, 1, 2];
    assert LayerOf(d1.layers, 1, 1) == 1;
  }
}
