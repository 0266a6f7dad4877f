// The wire client (scene_client.c): the numbered op stream, the reconnect log and
// what the first WELCOME of a connection does with them.
module Client {
  import opened Pixels
  import opened Wire
  import opened Feed

  /** A logged op: what to send again, without its sequence number. */
  datatype Entry = Entry(opcode: nat, body: seq<Byte>)

  /** The client's state; `out` holds the records written but not flushed. */
  datatype State = State(open: bool, welcomed: bool, fatal: bool, hadSession: bool, prevScene: nat,
                         nextSeq: nat, sentSeq: nat, out: seq<Record>, log: seq<Entry>) {
    predicate CanEmit() { open && welcomed && !fatal }
  }

  const NEW_CLIENT := State(false, false, false, false, 0, 0, 0, [], [])

  /** The record of a sequenced op. */
  function Numbered(e: Entry, n: nat): Record { Record(e.opcode, Put(n, 8) + e.body) }

  /** On the wire: its number in eight bytes, the low one first, then the body as it was given. */
  lemma NumberedIs(e: Entry, n: nat)
    requires n < 0x1_0000_0000_0000_0000
    ensures var r := Numbered(e, n);
            r.opcode == e.opcode && |r.payload| == 8 + |e.body| && Get(r.payload[..8]) == n && r.payload[8..] == e.body
  {
    assert Radix(8) == 0x1_0000_0000_0000_0000 by { assert Radix(4) == 0x1_0000_0000 by { assert Radix(2) == 0x1_0000; } }
    assert Numbered(e, n).payload[..8] == Put(n, 8);
    GetPut(n, 8);
  }

  // ---- What each call does ----------------------------------------------------

  /** scene_client_connect */
  function Connected(c: State, up: bool): State {
    c.(open := up, welcomed := false, fatal := false, nextSeq := 1, sentSeq := 0, out := [])
  }

  /** scene_client_reconnect: refused once the session has failed. */
  function Reconnected(c: State, up: bool): State {
    if c.fatal then c else c.(open := up, welcomed := false, out := [])
  }

  /** cli_emit for a sequenced op. */
  function Emitted(c: State, e: Entry, logIt: bool): State {
    if !c.CanEmit() then c
    else c.(nextSeq := c.nextSeq + 1, sentSeq := c.nextSeq, out := c.out + [Numbered(e, c.nextSeq)],
            log := if logIt then c.log + [e] else c.log)
  }

  /** cli_emit for an ACK, which carries its own first field and no stream number. */
  function Acked(c: State, body: seq<Byte>): State {
    if !c.CanEmit() then c else c.(out := c.out + [Record(OP_ACK, body)])
  }

  /** Emit the first n log entries again. */
  function Replayed(c: State, n: nat): (r: State)
    requires n <= |c.log|
    ensures r.log == c.log
  {
    if n == 0 then c else Emitted(Replayed(c, n - 1), c.log[n - 1], false)
  }

  /** Where the stream resumes: a retained session continues, any other starts over. */
  function Resume(c: State, scene: nat): nat {
    if c.hadSession && scene == c.prevScene then c.sentSeq + 1 else 1
  }

  /** The WELCOME branch of dispatch, before its flush. */
  function Welcome(c: State, scene: nat): (r: State)
    ensures r.log == c.log
  {
    if c.welcomed then c
    else
      var w := c.(nextSeq := Resume(c, scene), prevScene := scene, hadSession := true, welcomed := true, fatal := false);
      Replayed(w, |w.log|)
  }

  /** scene_client_flush when the transport takes the bytes, and when it does not. */
  function Flushed(c: State, sent: bool): State {
    if !c.open then c else if sent || c.out == [] then c.(out := []) else c.(open := false)
  }

  // ---- The log comes back whole, once, in sequence ----------------------------

  /** The log as records numbered from `start`. */
  function Reissue(log: seq<Entry>, start: nat): (r: seq<Record>)
    ensures |r| == |log| && forall i :: 0 <= i < |log| ==> r[i] == Numbered(log[i], start + i)
  {
    seq(|log|, i requires 0 <= i < |log| => Numbered(log[i], start + i))
  }

  lemma ReissueLast(log: seq<Entry>, n: nat, start: nat, out: seq<Record>)
    requires 0 < n <= |log|
    ensures out + Reissue(log[..n], start) == out + Reissue(log[..n - 1], start) + [Numbered(log[n - 1], start + n - 1)]
  {
    assert Reissue(log[..n], start) == Reissue(log[..n - 1], start) + [Numbered(log[n - 1], start + n - 1)];
  }

  lemma {:induction false} ReplayIsReissue(c: State, n: nat)
    requires n <= |c.log| && c.CanEmit()
    ensures var r := Replayed(c, n);
            r == c.(nextSeq := c.nextSeq + n, sentSeq := if n == 0 then c.sentSeq else c.nextSeq + n - 1,
                    out := c.out + Reissue(c.log[..n], c.nextSeq))
  {
    if n == 0 {
      assert c.out + Reissue(c.log[..0], c.nextSeq) == c.out;
    } else {
      ReplayIsReissue(c, n - 1);
      ReissueLast(c.log, n, c.nextSeq, c.out);
    }
  }

  /** The first WELCOME on an open connection emits the whole log exactly once, in order,
      numbered consecutively from 1 for a new scene id and from sent_seq + 1 for the one
      retained; the log itself stays, and any later WELCOME emits nothing. */
  lemma WelcomeReissuesLog(c: State, scene: nat)
    requires c.open && !c.welcomed
    ensures var w := Welcome(c, scene);
            && w.CanEmit() && w.log == c.log && w.hadSession && w.prevScene == scene
            && w.out == c.out + Reissue(c.log, Resume(c, scene))
            && w.nextSeq == Resume(c, scene) + |c.log|
            && w.sentSeq == (if c.log == [] then c.sentSeq else w.nextSeq - 1)
            && forall again :: Welcome(w, again) == w
  {
    var w := c.(nextSeq := Resume(c, scene), prevScene := scene, hadSession := true, welcomed := true, fatal := false);
    ReplayIsReissue(w, |w.log|);
    assert w.log[..|w.log|] == w.log;
  }

  // ---- Runs of client calls ---------------------------------------------------

  datatype Call =
    | Connect(up: bool)
    | Reconnect(up: bool)
    | Op(e: Entry, logIt: bool)
    | Ack(body: seq<Byte>)
    | Flush(sent: bool)
    | Greeted(scene: nat)   // a WELCOME arrives
    | Failed                // an ERROR, or a record that breaks the protocol
    | Closed                // the transport reports the end

  function Apply(c: State, call: Call): State {
    match call
    case Connect(up) => Connected(c, up)
    case Reconnect(up) => Reconnected(c, up)
    case Op(e, logIt) => Emitted(c, e, logIt)
    case Ack(body) => Acked(c, body)
    case Flush(sent) => Flushed(c, sent)
    case Greeted(scene) => Welcome(c, scene)
    case Failed => c.(fatal := true)
    case Closed => c.(open := false)
  }

  function RunClient(calls: seq<Call>): State {
    if calls == [] then NEW_CLIENT else Apply(RunClient(calls[..|calls| - 1]), calls[|calls| - 1])
  }

  /** The scene-affecting ops that were accepted, in order. */
  function Accepted(calls: seq<Call>): seq<Entry> {
    if calls == [] then []
    else
      var before, call := calls[..|calls| - 1], calls[|calls| - 1];
      Accepted(before) + if call.Op? && call.logIt && RunClient(before).CanEmit() then [call.e] else []
  }

  lemma ApplyLog(c: State, call: Call)
    ensures Apply(c, call).log == c.log + if call.Op? && call.logIt && c.CanEmit() then [call.e] else []
  {
  }

  /** On every run the log is exactly the accepted scene-affecting ops. */
  lemma {:induction false} LogIsAccepted(calls: seq<Call>)
    ensures RunClient(calls).log == Accepted(calls)
  {
    if calls != [] {
      LogIsAccepted(calls[..|calls| - 1]);
      ApplyLog(RunClient(calls[..|calls| - 1]), calls[|calls| - 1]);
    }
  }

  /** A first run: connected, greeted, one op said.  It is logged and waits to be sent as number 1;
      after a cut and a reconnect to the same scene it is sent again, as number 2. */
  lemma FirstRun(e: Entry, scene: nat)
    ensures var calls := [Connect(true), Greeted(scene), Op(e, true)];
            && RunClient(calls).log == [e] && RunClient(calls).out == [Record(e.opcode, Put(1, 8) + e.body)]
            && RunClient(calls + [Flush(true), Closed, Reconnect(true), Greeted(scene)]).out == [Record(e.opcode, Put(2, 8) + e.body)]
  {
    var c1 := RunNext([], Connect(true));
    var c2 := RunNext([Connect(true)], Greeted(scene));
    var c3 := RunNext([Connect(true), Greeted(scene)], Op(e, true));
    var calls := [Connect(true), Greeted(scene), Op(e, true)];
    assert [] + [Connect(true)] == [Connect(true)] && [Connect(true), Greeted(scene)] + [Op(e, true)] == calls;
    assert [Connect(true)] + [Greeted(scene)] == [Connect(true), Greeted(scene)];
    var c4 := RunNext(calls, Flush(true));
    var c5 := RunNext(calls + [Flush(true)], Closed);
    var c6 := RunNext(calls + [Flush(true), Closed], Reconnect(true));
    var c7 := RunNext(calls + [Flush(true), Closed, Reconnect(true)], Greeted(scene));
    assert calls + [Flush(true)] + [Closed] == calls + [Flush(true), Closed];
    assert calls + [Flush(true), Closed] + [Reconnect(true)] == calls + [Flush(true), Closed, Reconnect(true)];
    assert calls + [Flush(true), Closed, Reconnect(true)] + [Greeted(scene)] == calls + [Flush(true), Closed, Reconnect(true), Greeted(scene)];
    WelcomeReissuesLog(c6, scene);
  }

  lemma RunNext(calls: seq<Call>, call: Call) returns (c: State)
    ensures c == RunClient(calls + [call]) == Apply(RunClient(calls), call)
  {
    assert (calls + [call])[..|calls|] == calls;
    c := RunClient(calls + [call]);
  }

  // ---- The client object ------------------------------------------------------

  class Client {
    var open: bool
    var welcomed: bool
    var fatal: bool
    var hadSession: bool
    var prevScene: nat
    var nextSeq: nat
    var sentSeq: nat
    var out: seq<Byte>
    var log: seq<Entry>
    ghost var records: seq<Record>

    ghost predicate Valid()
      reads this
    {
      out == EncodeAll(records)
    }

    ghost function View(): State
      reads this
    {
      State(open, welcomed, fatal, hadSession, prevScene, nextSeq, sentSeq, records, log)
    }

    constructor ()
      ensures Valid() && View() == NEW_CLIENT
    {
      open, welcomed, fatal, hadSession, prevScene := false, false, false, false, 0;
      nextSeq, sentSeq, out, log, records := 0, 0, [], [], [];
    }

    /** scene_client_connect; `up` is the transport's answer. */
    method Connect(up: bool)
      modifies this
      ensures Valid() && View() == Connected(old(View()), up)
      ensures open == up && !welcomed && !fatal && nextSeq == 1 && sentSeq == 0 && out == []
      ensures log == old(log) && hadSession == old(hadSession) && prevScene == old(prevScene)
    {
      open, welcomed, fatal := false, false, false;
      nextSeq, sentSeq, out, records := 1, 0, [], [];
      if !up { return; }
      open := true;
    }

    /** scene_client_reconnect */
    method Reconnect(up: bool) returns (ok: bool)
      requires Valid()
      modifies this
      ensures Valid() && View() == Reconnected(old(View()), up) && ok == (!old(fatal) && up)
      ensures !old(fatal) ==> open == up && !welcomed && out == []
      ensures nextSeq == old(nextSeq) && sentSeq == old(sentSeq) && log == old(log) && prevScene == old(prevScene)
    {
      if fatal { return false; }
      open, welcomed, out, records := false, false, [], [];
      if !up { return false; }
      open := true;
      return true;
    }

    /** The framing half of cli_emit. */
    method WriteFrame(opcode: nat, payload: seq<Byte>)
      requires Valid()
      modifies this`out, this`records
      ensures Valid() && records == old(records) + [Record(opcode, payload)]
    {
      out := out + Encode(opcode, payload);
      records := records + [Record(opcode, payload)];
      AppendRecord(old(records), Record(opcode, payload));
    }

    /** cli_emit */
    method Emit(opcode: nat, body: seq<Byte>, isAck: bool, logIt: bool) returns (ok: bool)
      requires Valid() && (isAck ==> opcode == OP_ACK && !logIt)
      modifies this
      ensures Valid() && ok == (old(open) && old(welcomed) && !old(fatal))
      ensures View() == if isAck then Acked(old(View()), body) else Emitted(old(View()), Entry(opcode, body), logIt)
      ensures records == old(records) + if ok then [Record(opcode, if isAck then body else Put(old(nextSeq), 8) + body)] else []
      ensures nextSeq == old(nextSeq) + (if ok && !isAck then 1 else 0) && log == old(log) + if ok && logIt then [Entry(opcode, body)] else []
    {
      if !open || !welcomed || fatal { return false; }
      if isAck {
        WriteFrame(opcode, body);
      } else {
        var n := nextSeq;
        nextSeq, sentSeq := nextSeq + 1, n;
        WriteFrame(opcode, Put(n, 8) + body);
      }
      if logIt { log := log + [Entry(opcode, body)]; }
      return true;
    }

    /** scene_client_flush; `taken` is the transport's answer, `bytes` what it was given. */
    method Flush(taken: bool) returns (ok: bool, bytes: seq<Byte>)
      requires Valid()
      modifies this
      ensures Valid() && View() == Flushed(old(View()), taken)
      ensures bytes == if old(open) then old(out) else []
      ensures ok == (old(open) && (taken || old(out) == []))
    {
      if !open { return false, []; }
      bytes := out;
      NoBytes(records);
      if out != [] && !taken {
        open := false;
        return false, bytes;
      }
      out, records := [], [];
      ok := true;
    }

    /** The loop that emits the log again, stopping at a refusal. */
    method ReplayLog()
      requires Valid()
      modifies this
      ensures Valid() && View() == Replayed(old(View()), |old(log)|)
    {
      ghost var w := View();
      for i := 0 to |log|
        invariant Valid() && log == w.log && View() == Replayed(w, i)
      {
        var ok := Emit(log[i].opcode, log[i].body, false, false);
        if !ok {
          RefusedReplay(w, i);
          return;
        }
      }
    }

    /** The WELCOME branch of dispatch: bookkeeping, then the log again, then a flush. */
    method Dispatch(scene: nat, taken: bool) returns (bytes: seq<Byte>)
      requires Valid()
      modifies this
      ensures Valid()
      ensures View() == var w := Welcome(old(View()), scene);
                        if old(welcomed) || old(log) == [] then w else Flushed(w, taken)
    {
      bytes := [];
      if welcomed { return; }
      if hadSession && scene == prevScene { nextSeq := sentSeq + 1; } else { nextSeq := 1; }
      prevScene, hadSession, welcomed, fatal := scene, true, true, false;
      ReplayLog();
      if log != [] {
        var ok;
        ok, bytes := Flush(taken);
      }
    }
  }

  lemma {:induction false} AppendRecord(recs: seq<Record>, r: Record)
    ensures EncodeAll(recs + [r]) == EncodeAll(recs) + Encode(r.opcode, r.payload)
  {
    if recs == [] {
      assert [r][1..] == [] && [] + [r] == [r];
    } else {
      AppendRecord(recs[1..], r);
      assert (recs + [r])[1..] == recs[1..] + [r] && (recs + [r])[0] == recs[0];
      var f := Encode(recs[0].opcode, recs[0].payload);
      assert f + (EncodeAll(recs[1..]) + Encode(r.opcode, r.payload)) == f + EncodeAll(recs[1..]) + Encode(r.opcode, r.payload);
    }
  }

  lemma NoBytes(recs: seq<Record>)
    ensures EncodeAll(recs) == [] <==> recs == []
  {
  }

  /** A client that refuses one op refuses the rest of the log too. */
  lemma {:induction false} RefusedReplay(c: State, n: nat)
    requires n <= |c.log| && !Replayed(c, n).CanEmit()
    ensures Replayed(c, |c.log|) == Replayed(c, n)
    decreases |c.log| - n
  {
    if n < |c.log| { RefusedReplay(c, n + 1); }
  }
}
