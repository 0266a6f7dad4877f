// Client and server over a link that can be cut between frames: the sequence
// numbers the two ends keep always fit, so a ghost rejoin is never refused and no
// op arrives out of turn.
module Rejoin {
  import opened Pixels
  import opened Wire
  import opened Feed
  import opened Client

  /** What matters here of a store: the number it expects next, whether it is in a mode other than live,
      and whether it ever refused a rejoin or met a wrong number. */
  datatype Seqs = Seqs(expected: nat, paused: bool, refused: bool, gapped: bool)

  /** The store as its header describes it: strictly consecutive numbers from 1, rejoin at or
      past the current one and in live mode only.  `accepts` and `imports` stand for
      everything else that can end a session. */
  function SeqEngine(maxRecord: nat, accepts: (nat, seq<Byte>) -> bool, imports: seq<Byte> -> bool, stray: nat): Engine<Seqs> {
    Engine(
      maxRecord,
      (s: Seqs, fault: Fault) => if fault == RejoinRefused then s.(refused := true) else s,
      (s: Seqs, n: nat) => if s.paused || n < s.expected then (s, false) else (s.(expected := n), true),
      (s: Seqs, payload: seq<Byte>) => (s, imports(payload)),
      (s: Seqs, opcode: nat, payload: seq<Byte>) =>
        if opcode == OP_ACK then (s, accepts(opcode, payload))
        else if |payload| < 8 || Get(payload[..8]) != s.expected then (s.(gapped := true), false)
        else (s.(expected := s.expected + 1), accepts(opcode, payload)),
      (s: Seqs) => s,
      stray)
  }

  /** Client, link, server.  `up`: the client's connection is the one the server reads;
      `heard`: the WELCOME of the server's current attachment reached the client; `head`:
      the number of the next sequenced record on the link. */
  datatype System = System(c: State, link: seq<Record>, up: bool, srv: Session<Seqs>, attached: bool,
                           heard: bool, scene: nat, head: nat)

  datatype Event =
    | Dial(up: bool)                      // scene_client_connect, again or for the first time
    | Say(e: Entry, logIt: bool)
    | SayAck(body: seq<Byte>)
    | Push(sent: bool)                    // the client flushes; without a live link the bytes are lost
    | Deliver                             // the server takes the next record
    | Cut                                 // the server sees the end of the connection and detaches
    | Hangup                              // the client sees the end of the connection
    | Abort                               // a server error or violation ends the session for the client
    | Redial(up: bool)                    // scene_client_reconnect
    | Attach(heard: bool, sent: bool)     // scene_server_attach; the WELCOME arrives or is lost
    | Restart(scene: nat)                 // a new server under a new scene id
    | Pause(on: bool)                     // the server's store leaves live mode, or comes back

  function Sequenced(r: Record): bool { r.opcode != OP_ACK }

  function Step(e: Engine<Seqs>, s: System, ev: Event): System {
    match ev
    case Dial(up) => s.(c := Connected(s.c, up), up := false)
    case Say(entry, logIt) => s.(c := Emitted(s.c, entry, logIt))
    case SayAck(body) => s.(c := Acked(s.c, body))
    case Push(sent) => s.(c := Flushed(s.c, sent),
                          link := if s.up && s.c.open && sent then s.link + s.c.out else s.link)
    case Deliver =>
      if s.link == [] then s
      else
        var r := s.link[0];
        s.(link := s.link[1..], head := if Sequenced(r) then s.head + 1 else s.head,
           srv := if s.srv.dead then s.srv else Accept(e, s.srv, r.opcode, r.payload))
    case Cut => Detached(s)
    case Hangup => s.(c := s.c.(open := false))
    case Abort => s.(c := s.c.(fatal := true))
    case Redial(up) => if s.c.fatal then s else s.(c := Reconnected(s.c, up), up := false)
    case Attach(heard, sent) =>
      if s.attached || !s.c.open || s.c.welcomed then s
      else if !heard then s.(attached := true)
      else
        var w := Welcome(s.c, s.scene);
        s.(attached := true, heard := true, up := true, head := Resume(s.c, s.scene),
           c := if w.log == [] then w else Flushed(w, sent), link := if w.log == [] || !sent then [] else w.out)
    case Restart(scene) =>
      if s.c.hadSession && scene == s.c.prevScene then s
      else s.(srv := FRESH_SERVER, attached := false, heard := false, up := false, link := [], scene := scene)
    case Pause(on) => s.(srv := s.srv.(store := s.srv.store.(paused := on)))
  }

  const FRESH_SERVER := Session(Seqs(1, false, false, false), false, false)

  function Detached(s: System): System {
    if !s.attached then s
    else s.(srv := s.srv.(ghosted := true), attached := false, heard := false, up := false, link := [])
  }

  /** A new client, and a server it has not met. */
  function Opening(scene: nat): System {
    System(NEW_CLIENT, [], false, FRESH_SERVER, false, false, scene, 1)
  }

  /** The store, record by record: of an attached session the next number is taken and any other
      ends it; a detached one takes any number from the expected on, in live mode only. */
  lemma StoreIs(maxRecord: nat, accepts: (nat, seq<Byte>) -> bool, imports: seq<Byte> -> bool, stray: nat,
                s: Session<Seqs>, opcode: nat, n: nat, body: seq<Byte>)
    requires !s.dead && opcode != 0x13 && opcode != 0x17 && n < 0x1_0000_0000_0000_0000
    ensures var payload := Put(n, 8) + body;
            var r := Accept(SeqEngine(maxRecord, accepts, imports, stray), s, opcode, payload);
            if !s.ghosted then
              if n == s.store.expected then r == Session(s.store.(expected := n + 1), false, !accepts(opcode, payload))
              else r == Session(s.store.(gapped := true), false, true)
            else if s.store.paused || n < s.store.expected then r == Session(s.store.(refused := true), true, true)
            else r == Session(s.store.(expected := n + 1), false, !accepts(opcode, payload))
  {
    NumberedIs(Entry(opcode, body), n);
  }

  /** A server started under a scene id the client has not met has met no client. */
  lemma RestartIs(e: Engine<Seqs>, s: System, scene: nat)
    requires !s.c.hadSession || scene != s.c.prevScene
    ensures var r := Step(e, s, Restart(scene));
            r.c == s.c && r.scene == scene && r.srv == Session(Seqs(1, false, false, false), false, false)
            && !r.attached && !r.up && r.link == []
  {
  }

  // ---- Numbers in flight ------------------------------------------------------

  function Count(recs: seq<Record>): nat {
    if recs == [] then 0 else (if Sequenced(recs[0]) then 1 else 0) + Count(recs[1..])
  }

  /** The sequenced records carry consecutive numbers from n on. */
  predicate Chain(recs: seq<Record>, n: nat) {
    recs == [] ||
    if Sequenced(recs[0]) then |recs[0].payload| >= 8 && Get(recs[0].payload[..8]) == n && Chain(recs[1..], n + 1)
    else Chain(recs[1..], n)
  }

  lemma {:induction false} ChainConcat(a: seq<Record>, b: seq<Record>, n: nat)
    ensures Count(a + b) == Count(a) + Count(b)
    ensures Chain(a + b, n) <==> Chain(a, n) && Chain(b, n + Count(a))
  {
    if a == [] {
      assert a + b == b;
    } else {
      assert (a + b)[1..] == a[1..] + b;
      ChainConcat(a[1..], b, if Sequenced(a[0]) then n + 1 else n);
    }
  }

  lemma ChainOne(e: Entry, n: nat)
    requires e.opcode != OP_ACK && n < Radix(8)
    ensures Chain([Numbered(e, n)], n) && Count([Numbered(e, n)]) == 1
  {
    var r := Numbered(e, n);
    assert r.payload[..8] == Put(n, 8);
    GetPut(n, 8);
    assert [r][1..] == [];
  }

  lemma {:induction false} ChainReissue(log: seq<Entry>, n: nat)
    requires (forall e :: e in log ==> e.opcode != OP_ACK) && n + |log| <= Radix(8)
    ensures Chain(Reissue(log, n), n) && Count(Reissue(log, n)) == |log|
  {
    if log != [] {
      ChainReissue(log[1..], n + 1);
      ChainOne(log[0], n);
      ChainConcat([Numbered(log[0], n)], Reissue(log[1..], n + 1), n);
      assert Reissue(log, n) == [Numbered(log[0], n)] + Reissue(log[1..], n + 1);
    }
  }

  // ---- The invariant ----------------------------------------------------------

  predicate ClientOk(c: State) {
    c.nextSeq <= c.sentSeq + 1 && forall e :: e in c.log ==> e.opcode != OP_ACK
  }

  predicate Met(s: System) { s.c.hadSession && s.c.prevScene == s.scene }

  /** While the client is on the server's books, the records in flight continue its count. */
  predicate Flowing(s: System) {
    && Met(s) && s.srv.store.expected <= s.head && (!s.srv.ghosted ==> s.srv.store.expected == s.head)
    && Chain(s.link, s.head) && s.head + Count(s.link) <= s.c.sentSeq + 1
    && (s.up ==> Chain(s.link + s.c.out, s.head) && s.head + Count(s.link + s.c.out) == s.c.nextSeq)
  }

  /** Between attachments the server expects nothing beyond where the client would resume. */
  predicate Apart(s: System) {
    && s.srv.store.expected <= (if Met(s) then s.c.sentSeq + 1 else 1)
    && (Met(s) && s.c.welcomed ==> s.srv.store.expected <= s.c.nextSeq)
    && (!s.srv.ghosted ==> !Met(s) && s.srv.store.expected == 1)
  }

  predicate Inv(s: System) {
    && ClientOk(s.c) && !s.srv.store.refused && !s.srv.store.gapped
    && (s.heard ==> s.attached) && (s.up ==> s.heard && s.c.welcomed) && (s.heard && !s.up ==> !s.c.welcomed)
    && (!s.heard ==> s.link == [])
    && (!s.srv.dead ==> if s.heard then Flowing(s) else Apart(s))
  }

  /** The next record would rejoin a store that is not in live mode. */
  predicate MeetsPaused(s: System) {
    s.link != [] && Sequenced(s.link[0]) && !s.srv.dead && s.srv.ghosted && s.srv.store.paused
  }

  /** The server has not counted, and no link carries, anything of this client: a connect
      forgets nothing that matters. */
  predicate Unspoken(s: System) {
    s.srv.dead || if s.heard then s.head + Count(s.link) <= 1 else s.srv.store.expected <= 1
  }

  /** What a run must avoid, and all it must avoid: see `DeliverRefusedIff` and
      `ConnectRefusedIff`. */
  predicate Fitting(s: System, ev: Event) {
    && (ev.Say? ==> ev.e.opcode != OP_ACK)
    && (ev.Dial? ==> Unspoken(s))
    && (ev.Deliver? ==> !MeetsPaused(s))
  }

  lemma AcceptInTurn(e: Engine<Seqs>, accepts: (nat, seq<Byte>) -> bool, imports: seq<Byte> -> bool, s: Session<Seqs>, r: Record, n: nat)
    requires e == SeqEngine(e.maxRecord, accepts, imports, e.stray)
    requires !s.dead && !s.store.refused && !s.store.gapped && (s.ghosted && Sequenced(r) ==> !s.store.paused)
    requires s.store.expected <= n && (!s.ghosted ==> s.store.expected == n)
    requires Sequenced(r) ==> |r.payload| >= 8 && Get(r.payload[..8]) == n
    ensures var a := Accept(e, s, r.opcode, r.payload);
            && !a.store.refused && !a.store.gapped
            && (!a.dead ==> if Sequenced(r) then a.store.expected == n + 1 && !a.ghosted
                            else a.store == s.store && a.ghosted == s.ghosted)
  {
  }

  lemma DeliverKeeps(e: Engine<Seqs>, accepts: (nat, seq<Byte>) -> bool, imports: seq<Byte> -> bool, s: System)
    requires e == SeqEngine(e.maxRecord, accepts, imports, e.stray) && Inv(s) && !MeetsPaused(s)
    ensures Inv(Step(e, s, Deliver))
  {
    if s.link != [] && !s.srv.dead {
      var r := s.link[0];
      AcceptInTurn(e, accepts, imports, s.srv, r, s.head);
      assert s.link == [r] + s.link[1..] && s.link + s.c.out == [r] + (s.link[1..] + s.c.out);
      assert Count([r]) == if Sequenced(r) then 1 else 0 by { assert [r][1..] == []; }
      ChainConcat([r], s.link[1..], s.head);
      ChainConcat([r], s.link[1..] + s.c.out, s.head);
    }
  }

  lemma SayKeeps(e: Engine<Seqs>, s: System, ev: Event)
    requires Inv(s) && (ev.Say? || ev.SayAck?) && (ev.Say? ==> ev.e.opcode != OP_ACK)
    requires Step(e, s, ev).c.nextSeq <= Radix(8)
    ensures Inv(Step(e, s, ev))
  {
    if s.c.CanEmit() {
      var r := if ev.Say? then Numbered(ev.e, s.c.nextSeq) else Record(OP_ACK, ev.body);
      if ev.Say? { ChainOne(ev.e, s.c.nextSeq); } else { assert [r][1..] == []; }
      assert s.link + (s.c.out + [r]) == (s.link + s.c.out) + [r];
      ChainConcat(s.link + s.c.out, [r], s.head);
      ChainConcat(s.link, s.c.out, s.head);
    }
  }

  lemma PushKeeps(e: Engine<Seqs>, s: System, sent: bool)
    requires Inv(s)
    ensures Inv(Step(e, s, Push(sent)))
  {
    assert s.link + s.c.out + [] == s.link + s.c.out;
    if s.heard && !s.srv.dead { ChainConcat(s.link, s.c.out, s.head); }
    assert s.c.out == [] ==> s.link + s.c.out == s.link;
  }

  lemma CutKeeps(e: Engine<Seqs>, s: System)
    requires Inv(s)
    ensures Inv(Step(e, s, Cut))
  {
  }

  lemma AttachKeeps(e: Engine<Seqs>, s: System, heard: bool, sent: bool)
    requires Inv(s) && Step(e, s, Attach(heard, sent)).c.nextSeq <= Radix(8)
    requires Quiet(s)
    ensures Inv(Step(e, s, Attach(heard, sent)))
  {
    if heard && !s.attached && s.c.open && !s.c.welcomed {
      var w := Welcome(s.c, s.scene);
      WelcomeReissuesLog(s.c, s.scene);
      ChainReissue(s.c.log, Resume(s.c, s.scene));
      var t := Step(e, s, Attach(heard, sent));
      assert w.out == Reissue(s.c.log, Resume(s.c, s.scene)) by { assert s.c.out == []; }
      assert t.link + t.c.out == w.out;
      ChainConcat(t.link, t.c.out, t.head);
    }
  }

  /** Unwelcomed clients have written nothing. */
  predicate Quiet(s: System) { !s.c.welcomed ==> s.c.out == [] }

  /** Every step keeps the numbers of the two ends in agreement. */
  lemma StepKeeps(e: Engine<Seqs>, accepts: (nat, seq<Byte>) -> bool, imports: seq<Byte> -> bool, s: System, ev: Event)
    requires e == SeqEngine(e.maxRecord, accepts, imports, e.stray)
    requires Inv(s) && Quiet(s) && Fitting(s, ev)
    requires Step(e, s, ev).c.nextSeq <= Radix(8)
    ensures Inv(Step(e, s, ev)) && Quiet(Step(e, s, ev))
  {
    match ev
    case Dial(_) => {}
    case Pause(_) => {}
    case Say(_, _) => SayKeeps(e, s, ev);
    case SayAck(_) => SayKeeps(e, s, ev);
    case Push(sent) => PushKeeps(e, s, sent);
    case Deliver => DeliverKeeps(e, accepts, imports, s);
    case Cut => CutKeeps(e, s);
    case Attach(heard, sent) => AttachKeeps(e, s, heard, sent);
    case Hangup => {}
    case Abort => {}
    case Redial(_) => {}
    case Restart(_) => {}
  }

  // ---- Runs -------------------------------------------------------------------

  function RunSystem(e: Engine<Seqs>, scene: nat, events: seq<Event>): System {
    if events == [] then Opening(scene)
    else Step(e, RunSystem(e, scene, events[..|events| - 1]), events[|events| - 1])
  }

  /** A run of fitting events in which no stream reaches 2^64 ops. */
  predicate Proper(e: Engine<Seqs>, scene: nat, events: seq<Event>) {
    events == [] ||
    (Proper(e, scene, events[..|events| - 1]) && RunSystem(e, scene, events).c.nextSeq <= Radix(8)
     && Fitting(RunSystem(e, scene, events[..|events| - 1]), events[|events| - 1]))
  }

  /** Over any run of emits, flushes, deliveries, cuts, reconnects, lost and heard WELCOMEs
      and server restarts: no rejoin is ever refused, every sequenced record arrives with
      exactly the number the store expects, and whenever a connection could be made the
      store expects no more than the number the client would resume at. */
  lemma {:induction false} NeverRefused(e: Engine<Seqs>, accepts: (nat, seq<Byte>) -> bool, imports: seq<Byte> -> bool,
                                        scene: nat, events: seq<Event>)
    requires e == SeqEngine(e.maxRecord, accepts, imports, e.stray) && Proper(e, scene, events)
    ensures var s := RunSystem(e, scene, events);
            && !s.srv.store.refused && !s.srv.store.gapped
            && (!s.attached && !s.srv.dead ==> s.srv.store.expected <= Resume(s.c, s.scene))
            && Inv(s) && Quiet(s)
  {
    if events != [] {
      NeverRefused(e, accepts, imports, scene, events[..|events| - 1]);
      StepKeeps(e, accepts, imports, RunSystem(e, scene, events[..|events| - 1]), events[|events| - 1]);
    }
  }

  // ---- Exactly when a rejoin is refused ----------------------------------------

  /** In any state the runs above reach, the next record is refused if and only if it would
      rejoin a store that is not in live mode. */
  lemma DeliverRefusedIff(e: Engine<Seqs>, accepts: (nat, seq<Byte>) -> bool, imports: seq<Byte> -> bool, s: System)
    requires e == SeqEngine(e.maxRecord, accepts, imports, e.stray) && Inv(s)
    ensures Step(e, s, Deliver).srv.store.refused <==> MeetsPaused(s)
  {
    if !MeetsPaused(s) { DeliverKeeps(e, accepts, imports, s); }
  }

  /** The server after a connect, the WELCOME of its retained session, and the first record
      the client sends again. */
  function ConnectedAgain(e: Engine<Seqs>, s: System): System {
    Step(e, Step(e, Step(e, s, Dial(true)), Attach(true, true)), Deliver)
  }

  /** A connect makes the client resume at 1 whatever it has sent: against a session that
      outlived its link, the first op sent again is refused if and only if the store has
      counted any op (or is not in live mode). */
  lemma ConnectRefusedIff(e: Engine<Seqs>, accepts: (nat, seq<Byte>) -> bool, imports: seq<Byte> -> bool, s: System)
    requires e == SeqEngine(e.maxRecord, accepts, imports, e.stray)
    requires s.c.log != [] && s.c.log[0].opcode != OP_ACK
    requires s.srv.ghosted && !s.srv.dead && !s.srv.store.refused && !s.attached
    ensures ConnectedAgain(e, s).srv.store.refused <==> s.srv.store.expected > 1 || s.srv.store.paused
  {
    var c := Connected(s.c, true);
    WelcomeReissuesLog(c, s.scene);
    var t := Step(e, Step(e, s, Dial(true)), Attach(true, true));
    var r := Numbered(s.c.log[0], 1);
    assert t.link[0] == r;
    assert r.payload[..8] == Put(1, 8);
    GetPut(1, 8);
  }

  lemma RunStep(e: Engine<Seqs>, scene: nat, events: seq<Event>, ev: Event) returns (longer: seq<Event>)
    ensures longer == events + [ev] && RunSystem(e, scene, longer) == Step(e, RunSystem(e, scene, events), ev)
  {
    longer := events + [ev];
    assert longer[..|longer| - 1] == events;
  }

  /** One op delivered, the link cut: a system in which a second connect will be refused. */
  lemma OneOpThenCut(e: Engine<Seqs>, accepts: (nat, seq<Byte>) -> bool, imports: seq<Byte> -> bool, scene: nat, op: Entry)
    returns (events: seq<Event>)
    requires e == SeqEngine(e.maxRecord, accepts, imports, e.stray)
    requires op.opcode != OP_ACK && op.opcode != OP_IMPORT_TEXTURE && accepts(op.opcode, Numbered(op, 1).payload)
    ensures var s := RunSystem(e, scene, events);
            && s.c.log == [op] && s.srv == Session(Seqs(2, false, false, false), true, false) && !s.attached
            && s.c.sentSeq == 1 && s.c.hadSession && s.c.prevScene == s.scene == scene && !s.c.fatal
  {
    var c0 := Connected(NEW_CLIENT, true);
    WelcomeReissuesLog(c0, scene);
    var r := Numbered(op, 1);
    assert r.payload[..8] == Put(1, 8);
    GetPut(1, 8);
    events := RunStep(e, scene, [], Dial(true));
    events := RunStep(e, scene, events, Attach(true, true));
    events := RunStep(e, scene, events, Say(op, true));
    ghost var s := RunSystem(e, scene, events);
    assert s.c.out == [r] && s.c.log == [op] && s.link == [] && s.up;
    events := RunStep(e, scene, events, Push(true));
    s := RunSystem(e, scene, events);
    assert s.link == [r] && s.srv == FRESH_SERVER;
    assert Accept(e, FRESH_SERVER, r.opcode, r.payload) == Session(Seqs(2, false, false, false), false, false);
    events := RunStep(e, scene, events, Deliver);
    events := RunStep(e, scene, events, Cut);
  }

  /** The same run goes on with a reconnect in place of the connect: the op is sent again as number
      2, taken, and nothing is refused. */
  lemma RedialTaken(e: Engine<Seqs>, accepts: (nat, seq<Byte>) -> bool, imports: seq<Byte> -> bool, scene: nat, op: Entry)
    returns (events: seq<Event>)
    requires e == SeqEngine(e.maxRecord, accepts, imports, e.stray)
    requires op.opcode != OP_ACK && op.opcode != OP_IMPORT_TEXTURE
    requires accepts(op.opcode, Numbered(op, 1).payload) && accepts(op.opcode, Numbered(op, 2).payload)
    ensures RunSystem(e, scene, events).srv == Session(Seqs(3, false, false, false), false, false)
  {
    events := OneOpThenCut(e, accepts, imports, scene, op);
    var c := Reconnected(RunSystem(e, scene, events).c, true);
    WelcomeReissuesLog(c, scene);
    var r := Numbered(op, 2);
    assert r.payload[..8] == Put(2, 8);
    GetPut(2, 8);
    events := RunStep(e, scene, events, Redial(true));
    events := RunStep(e, scene, events, Attach(true, true));
    assert RunSystem(e, scene, events).link[0] == r;
    assert Accept(e, Session(Seqs(2, false, false, false), true, false), r.opcode, r.payload) == Session(Seqs(3, false, false, false), false, false);
    events := RunStep(e, scene, events, Deliver);
  }

  /** A run in which the second connect of a client is refused. */
  lemma ConnectTwiceRefused(e: Engine<Seqs>, accepts: (nat, seq<Byte>) -> bool, imports: seq<Byte> -> bool, scene: nat, op: Entry)
    returns (events: seq<Event>)
    requires e == SeqEngine(e.maxRecord, accepts, imports, e.stray)
    requires op.opcode != OP_ACK && op.opcode != OP_IMPORT_TEXTURE && accepts(op.opcode, Numbered(op, 1).payload)
    ensures RunSystem(e, scene, events).srv.store.refused
  {
    events := OneOpThenCut(e, accepts, imports, scene, op);
    ConnectRefusedIff(e, accepts, imports, RunSystem(e, scene, events));
    events := RunStep(e, scene, events, Dial(true));
    events := RunStep(e, scene, events, Attach(true, true));
    events := RunStep(e, scene, events, Deliver);
  }
}
