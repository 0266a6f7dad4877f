// Frame reassembly on the server (scene_server.c): raw bytes in any pieces become
// the same records, and the session dies at the same byte.
module Feed {
  import opened Pixels
  import opened Wire

  const OP_ACK: nat := 0x0013
  const OP_IMPORT_TEXTURE: nat := 0x0017

  datatype Fault = RecordTooLong | BadFrame | RejoinRefused | BadImport

  /** The store and host behind the adapter.  `ingest`, `rejoin` and `imported` answer
      the new state and whether the session goes on; `stray` is the number found where
      a payload is too short to hold its sequence number. */
  datatype Engine<!S> = Engine(
    maxRecord: nat,
    fail: (S, Fault) -> S,
    rejoin: (S, nat) -> (S, bool),
    imported: (S, seq<Byte>) -> (S, bool),
    ingest: (S, nat, seq<Byte>) -> (S, bool),
    ghostMark: S -> S,
    stray: nat)

  /** A session: its store, and the adapter's flags. */
  datatype Session<S> = Session(store: S, ghosted: bool, dead: bool)

  function SeqOf<S>(e: Engine<S>, payload: seq<Byte>): nat {
    if |payload| >= 8 then Get(payload[..8]) else e.stray
  }

  // ---- One frame --------------------------------------------------------------

  function Die<S>(e: Engine<S>, s: Session<S>, fault: Fault): Session<S> {
    s.(store := e.fail(s.store, fault), dead := true)
  }

  /** A detached session is rebased by its first sequenced record. */
  function Rejoined<S>(e: Engine<S>, s: Session<S>, opcode: nat, payload: seq<Byte>): Session<S> {
    if !s.ghosted || opcode == OP_ACK then s
    else
      var (store, ok) := e.rejoin(s.store, SeqOf(e, payload));
      if ok then s.(store := store, ghosted := false) else Die(e, s.(store := store), RejoinRefused)
  }

  /** IMPORT_TEXTURE's strict payload check, then the host's importer. */
  function Imported<S>(e: Engine<S>, s: Session<S>, opcode: nat, payload: seq<Byte>): Session<S> {
    if opcode != OP_IMPORT_TEXTURE then s
    else if |payload| < 16 || |payload| != 16 + Get(payload[12..16]) then Die(e, s, BadImport)
    else
      var (store, ok) := e.imported(s.store, payload);
      s.(store := store, dead := !ok)
  }

  function Ingested<S>(e: Engine<S>, s: Session<S>, opcode: nat, payload: seq<Byte>): Session<S> {
    var (store, ok) := e.ingest(s.store, opcode, payload);
    s.(store := store, dead := !ok)
  }

  /** What one record does. */
  function Accept<S>(e: Engine<S>, s: Session<S>, opcode: nat, payload: seq<Byte>): Session<S> {
    var r := Rejoined(e, s, opcode, payload);
    if r.dead then r else
      var i := Imported(e, r, opcode, payload);
      if i.dead then i else Ingested(e, i, opcode, payload)
  }

  /** An import that says how many bytes follow its first sixteen, and as many do. */
  predicate Declared(payload: seq<Byte>) { |payload| >= 16 && Get(payload[12..16]) == |payload| - 16 }

  /** One record, case by case.  Every opcode but 0x13 first rebases a detached session; an import
      (0x17) is checked and handed over before it is ingested; the first refusal is the end. */
  lemma AcceptIs<S>(e: Engine<S>, s: Session<S>, opcode: nat, payload: seq<Byte>)
    requires !s.dead
    ensures var r, first := Accept(e, s, opcode, payload), s.ghosted && opcode != 0x13;
            var at := if first then e.rejoin(s.store, SeqOf(e, payload)) else (s.store, true);
            var done := if opcode == 0x17 && at.1 && Declared(payload) then e.imported(at.0, payload) else at;
            && (!at.1 ==> r == Session(e.fail(at.0, RejoinRefused), true, true))
            && (at.1 ==> r.ghosted == (s.ghosted && opcode == 0x13))
            && (at.1 && opcode == 0x17 && !Declared(payload) ==> r.dead && r.store == e.fail(at.0, BadImport))
            && (at.1 && (opcode == 0x17 ==> Declared(payload)) && !done.1 ==> r.dead && r.store == done.0)
            && (at.1 && (opcode == 0x17 ==> Declared(payload)) && done.1 ==>
                  var end := e.ingest(done.0, opcode, payload); r.store == end.0 && r.dead == !end.1)
  {
  }

  /** What one whole frame does. */
  function Frame<S>(e: Engine<S>, s: Session<S>, f: seq<Byte>): Session<S>
    requires |f| >= HEADER
  {
    if CheckOf(f) != Passed then Die(e, s, BadFrame) else Accept(e, s, Opcode(f), f[HEADER..])
  }

  // ---- A stream of bytes ------------------------------------------------------

  /** Consume whole frames from the front; what is left is a partial frame. */
  function Drain<S>(e: Engine<S>, s: Session<S>, buf: seq<Byte>): (Session<S>, seq<Byte>)
    decreases |buf|
  {
    if s.dead || |buf| < HEADER then (s, buf)
    else if Length(buf) > e.maxRecord then (Die(e, s, RecordTooLong), buf)
    else if |buf| < HEADER + Length(buf) then (s, buf)
    else
      var total := HEADER + Length(buf);
      Drain(e, Frame(e, s, buf[..total]), buf[total..])
  }

  /** The session after a list of chunks, fed one by one. */
  function DrainAll<S>(e: Engine<S>, s: Session<S>, buf: seq<Byte>, chunks: seq<seq<Byte>>): (Session<S>, seq<Byte>)
    decreases |chunks|
  {
    if chunks == [] || s.dead then (s, buf)
    else
      var (s', rest) := Drain(e, s, buf + chunks[0]);
      DrainAll(e, s', rest, chunks[1..])
  }

  function Concat(chunks: seq<seq<Byte>>): seq<Byte> {
    if chunks == [] then [] else chunks[0] + Concat(chunks[1..])
  }

  /** The same session, and while it lives the same bytes still waiting. */
  predicate Agree<S(==)>(a: (Session<S>, seq<Byte>), b: (Session<S>, seq<Byte>)) {
    a.0 == b.0 && (!a.0.dead ==> a.1 == b.1)
  }

  /** Draining early changes nothing: frames are recognised by their own bytes. */
  lemma {:induction false} DrainSplit<S>(e: Engine<S>, s: Session<S>, a: seq<Byte>, b: seq<Byte>)
    ensures var (s1, rest) := Drain(e, s, a); Agree(Drain(e, s1, rest + b), Drain(e, s, a + b))
    decreases |a|
  {
    if !s.dead && |a| >= HEADER {
      assert (a + b)[8..12] == a[8..12];
      var total := HEADER + Length(a);
      if Length(a) <= e.maxRecord && |a| >= total {
        assert (a + b)[..total] == a[..total] && (a + b)[total..] == a[total..] + b;
        DrainSplit(e, Frame(e, s, a[..total]), a[total..], b);
      }
    }
  }

  lemma {:induction false} DrainRest<S>(e: Engine<S>, s: Session<S>, a: seq<Byte>)
    ensures var (s1, rest) := Drain(e, s, a); Drain(e, s1, rest) == (s1, rest)
    decreases |a|
  {
    if !s.dead && |a| >= HEADER && Length(a) <= e.maxRecord && |a| >= HEADER + Length(a) {
      var total := HEADER + Length(a);
      DrainRest(e, Frame(e, s, a[..total]), a[total..]);
    }
  }

  /** Reassembly does not depend on chunking: however a stream is cut, the session ends
      the same, dead or alive. */
  lemma {:induction false} ChunkingIrrelevant<S>(e: Engine<S>, s: Session<S>, buf: seq<Byte>, chunks: seq<seq<Byte>>)
    requires Drain(e, s, buf) == (s, buf)
    ensures Agree(DrainAll(e, s, buf, chunks), Drain(e, s, buf + Concat(chunks)))
    decreases |chunks|
  {
    if chunks == [] {
      assert buf + Concat(chunks) == buf;
    } else if !s.dead {
      var (s1, rest) := Drain(e, s, buf + chunks[0]);
      DrainSplit(e, s, buf + chunks[0], Concat(chunks[1..]));
      assert buf + chunks[0] + Concat(chunks[1..]) == buf + Concat(chunks);
      DrainRest(e, s, buf + chunks[0]);
      ChunkingIrrelevant(e, s1, rest, chunks[1..]);
    }
  }

  // ---- Records round trip -----------------------------------------------------

  datatype Record = Record(opcode: nat, payload: seq<Byte>)

  function EncodeAll(recs: seq<Record>): seq<Byte> {
    if recs == [] then [] else Encode(recs[0].opcode, recs[0].payload) + EncodeAll(recs[1..])
  }

  /** The session after a list of records, stopping when it dies. */
  function AcceptAll<S>(e: Engine<S>, s: Session<S>, recs: seq<Record>): Session<S>
    decreases |recs|
  {
    if recs == [] || s.dead then s
    else AcceptAll(e, Accept(e, s, recs[0].opcode, recs[0].payload), recs[1..])
  }

  predicate InLimit(maxRecord: nat, r: Record) {
    r.opcode < 0x1_0000 && |r.payload| <= maxRecord && |r.payload| < WORD
  }

  lemma FirstFrame(maxRecord: nat, r: Record, rest: seq<Byte>) returns (stream: seq<Byte>)
    requires InLimit(maxRecord, r)
    ensures stream == Encode(r.opcode, r.payload) + rest
    ensures |stream| >= HEADER + |r.payload| && Length(stream) == |r.payload|
    ensures var f := stream[..HEADER + |r.payload|];
            CheckOf(f) == Passed && Opcode(f) == r.opcode && f[HEADER..] == r.payload
    ensures stream[HEADER + |r.payload|..] == rest
  {
    var f := Encode(r.opcode, r.payload);
    stream := f + rest;
    EncodeDecodes(r.opcode, r.payload);
    assert stream[8..12] == f[8..12];
    assert stream[..HEADER + |r.payload|] == f;
  }

  /** In-limit records written one after the other come out as exactly those records, in
      order, with nothing left over while the session lives. */
  lemma {:induction false} RecordsRoundTrip<S>(e: Engine<S>, s: Session<S>, recs: seq<Record>)
    requires forall r :: r in recs ==> InLimit(e.maxRecord, r)
    ensures Agree(Drain(e, s, EncodeAll(recs)), (AcceptAll(e, s, recs), []))
    decreases |recs|
  {
    if recs != [] && !s.dead {
      var r := recs[0];
      var stream := FirstFrame(e.maxRecord, r, EncodeAll(recs[1..]));
      RecordsRoundTrip(e, Accept(e, s, r.opcode, r.payload), recs[1..]);
    }
  }

  // ---- A link cut inside a frame ----------------------------------------------

  /** Every frame begins with the magic number and the version. */
  lemma FrameStart(opcode: nat, payload: seq<Byte>)
    ensures var f := Encode(opcode, payload);
            f[0] == 0x4E && f[1] == 0x45 && f[2] == 0x43 && f[3] == 0x53 && f[4] == 0 && f[5] == 0
  {
    var m := Put(MAGIC, 4);
    assert m[0] == 0x4E && m[1..] == Put(0x53_4345, 3);
    assert m[1] == 0x45 && m[2..] == Put(0x5343, 2);
    assert m[2] == 0x43 && m[3..] == Put(0x53, 1);
    assert m[3] == 0x53;
    assert Put(VERSION, 2) == [0] + Put(0, 1);
  }

  lemma PassedStart(f: seq<Byte>)
    requires CheckOf(f) == Passed
    ensures f[0] == 0x4E && f[1] == 0x45 && f[2] == 0x43 && f[3] == 0x53 && f[4] == 0 && f[5] == 0
  {
    PutGet(f[0..4]);
    PutGet(f[4..6]);
    FrameStart(0, []);
    var h := Encode(0, []);
    assert h[..4] == Put(MAGIC, 4) && h[4..6] == Put(VERSION, 2);
    assert f[0..4] == h[..4] && f[4..6] == h[4..6];
  }

  /** Detaching keeps the bytes of a half-received frame.  If the link was cut inside the
      magic number or the version, nothing sent over the next connection is ever accepted:
      the session waits, or dies of a bad frame or of a length misread. */
  lemma StaleHeader<S>(e: Engine<S>, s: Session<S>, lost: Record, k: nat, recs: seq<Record>)
    requires 0 < k < 6 && recs != [] && !s.dead
    ensures var (t, _) := Drain(e, s, Encode(lost.opcode, lost.payload)[..k] + EncodeAll(recs));
            t == s || t == Die(e, s, RecordTooLong) || t == Die(e, s, BadFrame)
  {
    var f, g := Encode(lost.opcode, lost.payload), Encode(recs[0].opcode, recs[0].payload);
    var buf := f[..k] + EncodeAll(recs);
    FrameStart(lost.opcode, lost.payload);
    FrameStart(recs[0].opcode, recs[0].payload);
    assert buf[k] == g[0];
    if |buf| >= HEADER && Length(buf) <= e.maxRecord && |buf| >= HEADER + Length(buf) {
      var x := buf[..HEADER + Length(buf)];
      assert x[k] == buf[k];
      if CheckOf(x) == Passed { PassedStart(x); }
    }
  }

  /** The first frame in a buffer is there whole. */
  predicate Whole<S>(e: Engine<S>, buf: seq<Byte>) {
    |buf| >= HEADER && Length(buf) <= e.maxRecord && |buf| >= HEADER + Length(buf)
  }

  /** Cut later in the frame, the kept bytes are completed by the first ones of the next
      connection.  What is read of the two is accepted if and only if together they check; once
      the header was kept, as the lost record with another payload; and if a single byte was
      missing, if and only if it was the one every frame begins with. */
  lemma KeptFrame<S>(e: Engine<S>, s: Session<S>, lost: Record, k: nat, recs: seq<Record>) returns (buf: seq<Byte>)
    requires InLimit(e.maxRecord, lost) && recs != [] && !s.dead
    requires 6 <= k < |Encode(lost.opcode, lost.payload)|
    ensures buf == Encode(lost.opcode, lost.payload)[..k] + EncodeAll(recs)
    ensures !Whole(e, buf) ==> Drain(e, s, buf).0 in {s, Die(e, s, RecordTooLong)}
    ensures Whole(e, buf) ==>
      var x, rest := buf[..HEADER + Length(buf)], buf[HEADER + Length(buf)..];
      && Drain(e, s, buf) == Drain(e, if CheckOf(x) == Passed then Accept(e, s, Opcode(x), x[HEADER..]) else Die(e, s, BadFrame), rest)
      && (k >= HEADER ==> Opcode(x) == lost.opcode && Length(buf) == |lost.payload|)
      && (k == HEADER + |lost.payload| - 1 && k >= HEADER ==>
            (CheckOf(x) == Passed <==> Encode(lost.opcode, lost.payload)[k] == 0x4E))
  {
    var f, g := Encode(lost.opcode, lost.payload), Encode(recs[0].opcode, recs[0].payload);
    var more := EncodeAll(recs);
    buf := f[..k] + more;
    FirstTaken(e, s, buf);
    if k >= HEADER {
      EncodeDecodes(lost.opcode, lost.payload);
      KeptHead(f, k, more, buf);
    }
    if Whole(e, buf) && k == HEADER + |lost.payload| - 1 && k >= HEADER {
      ShortOfOne(f, g, EncodeAll(recs[1..]), buf[..HEADER + Length(buf)], recs[0]);
    }
  }

  lemma FirstTaken<S>(e: Engine<S>, s: Session<S>, buf: seq<Byte>)
    requires !s.dead
    ensures !Whole(e, buf) ==> Drain(e, s, buf).0 in {s, Die(e, s, RecordTooLong)}
    ensures Whole(e, buf) ==>
      var x, rest := buf[..HEADER + Length(buf)], buf[HEADER + Length(buf)..];
      Drain(e, s, buf) == Drain(e, if CheckOf(x) == Passed then Accept(e, s, Opcode(x), x[HEADER..]) else Die(e, s, BadFrame), rest)
  {
  }

  lemma KeptHead(f: seq<Byte>, k: nat, more: seq<Byte>, buf: seq<Byte>)
    requires HEADER <= k < |f| && buf == f[..k] + more
    ensures Length(buf) == Length(f) && forall n :: HEADER <= n <= |buf| ==> Opcode(buf[..n]) == Opcode(f)
  {
    assert buf[8..12] == f[8..12] && buf[6..8] == f[6..8];
    forall n | HEADER <= n <= |buf| ensures Opcode(buf[..n]) == Opcode(f) { assert buf[..n][6..8] == buf[6..8]; }
  }

  lemma ShortOfOne(f: seq<Byte>, g: seq<Byte>, rest: seq<Byte>, x: seq<Byte>, next: Record)
    requires |f| > 0 && CheckOf(f) == Passed && g == Encode(next.opcode, next.payload)
    requires |x| == |f| && x == (f[..|f| - 1] + (g + rest))[..|f|]
    ensures CheckOf(x) == Passed <==> f[|f| - 1] == 0x4E
  {
    var k := |f| - 1;
    FrameStart(next.opcode, next.payload);
    assert x[k] == (g + rest)[0] == g[0];
    assert x[..k] == f[..k];
    LastByte(f, x, k);
  }

  lemma LastByte(f: seq<Byte>, x: seq<Byte>, k: nat)
    requires |f| == |x| == k + 1 && f[..k] == x[..k] && CheckOf(f) == Passed
    ensures CheckOf(x) == Passed <==> f[k] == x[k]
  {
    if f[k] == x[k] {
      assert f == f[..k] + [f[k]] && x == x[..k] + [x[k]];
    } else {
      assert f[k + 1..] == x[k + 1..] == [];
      OneByteDetected(f, x, k);
    }
  }

  lemma HeaderOf(f: seq<Byte>)
    requires |f| >= HEADER
    ensures f[8..][..4] == f[8..12] && f[6..][..2] == f[6..8]
  {
  }

  lemma FrameParts(f: seq<Byte>, total: nat)
    requires HEADER <= total <= |f|
    ensures f[..total][8..12] == f[8..12] && f[..total][6..8] == f[6..8] && f[..total][HEADER..] == f[HEADER..total]
  {
  }

  // ---- The adapter ------------------------------------------------------------

  class Server<S> {
    const engine: Engine<S>
    var store: S
    var input: seq<Byte>     // the reassembly buffer; the first `off` bytes are consumed
    var off: nat
    var attached: bool
    var ghosted: bool
    var dead: bool

    ghost predicate Valid()
      reads this
    {
      off <= |input|
    }

    ghost function Waiting(): seq<Byte>
      reads this
      requires Valid()
    {
      input[off..]
    }

    ghost function State(): Session<S>
      reads this
    {
      Session(store, ghosted, dead)
    }

    constructor (e: Engine<S>, s: S)
      ensures Valid() && engine == e && State() == Session(s, false, false) && Waiting() == [] && !attached
    {
      engine, store, input, off, attached, ghosted, dead := e, s, [], 0, false, false, false;
    }

    /** scene_server_detach: the scene stays, the reassembly buffer too. */
    method Detach()
      requires Valid()
      modifies this
      ensures Valid() && Waiting() == old(Waiting())
      ensures State() == old(State()).(store := engine.ghostMark(old(store)), ghosted := true) && !attached
    {
      store, attached, ghosted := engine.ghostMark(store), false, true;
    }

    /** The middle of the frame loop: rejoin, import and ingest one checked record. */
    method AcceptRecord(opcode: nat, payload: seq<Byte>)
      requires Valid() && !dead
      modifies this`store, this`ghosted, this`dead
      ensures State() == Accept(engine, old(State()), opcode, payload)
    {
      if ghosted && opcode != OP_ACK {
        var seqNo := engine.stray;
        if |payload| >= 8 { seqNo := GetAt(payload, 8); }
        var (s, ok) := engine.rejoin(store, seqNo);
        store := s;
        if !ok { store, dead := engine.fail(store, RejoinRefused), true; return; }
        ghosted := false;
      }
      if opcode == OP_IMPORT_TEXTURE {
        if |payload| < 16 { store, dead := engine.fail(store, BadImport), true; return; }
        var length := GetAt(payload[12..], 4);
        assert payload[12..][..4] == payload[12..16];
        if |payload| != 16 + length { store, dead := engine.fail(store, BadImport), true; return; }
        var (s, ok) := engine.imported(store, payload);
        store, dead := s, !ok;
        if dead { return; }
      }
      var (s, ok) := engine.ingest(store, opcode, payload);
      store, dead := s, !ok;
    }

    /** One turn of the frame loop: take the next whole frame, if there is one. */
    method NextFrame() returns (went: bool)
      requires Valid() && !dead
      modifies this`store, this`input, this`off, this`ghosted, this`dead
      ensures Valid()
      ensures went ==> !dead && |input| - off < old(|input| - off)
                       && Drain(engine, State(), Waiting()) == Drain(engine, old(State()), old(Waiting()))
      ensures !went ==> Agree((State(), Waiting()), Drain(engine, old(State()), old(Waiting())))
    {
      if |input| - off < HEADER { return false; }
      var f := input[off..];
      FirstTaken(engine, State(), f);
      HeaderOf(f);
      var length := GetAt(f[8..], 4);
      if length > engine.maxRecord {
        store, dead := engine.fail(store, RecordTooLong), true;
        return false;
      }
      var total := HEADER + length;
      if |f| < total { return false; }
      FrameParts(f, total);
      var check := FrameCheck(f[..total]);
      if check != Passed {
        store, dead := engine.fail(store, BadFrame), true;
        return false;
      }
      var opcode := GetAt(f[6..], 2);
      AcceptRecord(opcode, f[HEADER..total]);
      if dead { return false; }
      off := off + total;
      assert Waiting() == f[total..];
      if off == |input| { input, off := [], 0; }
      return true;
    }

    /** scene_server_feed: append the bytes, take every whole frame, compact now and then. */
    method FeedBytes(bytes: seq<Byte>) returns (alive: bool)
      requires Valid()
      modifies this`store, this`input, this`off, this`ghosted, this`dead
      ensures Valid() && alive == !dead
      ensures old(dead) || bytes == [] ==> State() == old(State()) && Waiting() == old(Waiting())
      ensures !old(dead) && bytes != [] ==>
                Agree((State(), Waiting()), Drain(engine, old(State()), old(Waiting()) + bytes))
    {
      if dead { return false; }
      if bytes == [] { return true; }
      input := input + bytes;
      ghost var start := Drain(engine, State(), Waiting());
      assert Waiting() == old(Waiting()) + bytes;
      var went := true;
      while went
        invariant Valid() && (went ==> !dead)
        invariant if went then Drain(engine, State(), Waiting()) == start else Agree((State(), Waiting()), start)
        decreases went, |input| - off
      {
        went := NextFrame();
      }
      if dead { return false; }
      if off > 4096 { input, off := input[off..], 0; }
      return true;
    }
  }
}
