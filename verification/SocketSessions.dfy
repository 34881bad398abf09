/**
 Whole lives of a socket stream buffer: reads and writes interleaved with close, connect and
 moves. A move is followed into its target. Each run keeps a record of what became of the
 characters, those that are dropped included.
 */
module SocketSessions {
  import opened Common
  import opened SocketSpec
  import opened ConnectSpec
  import opened SocketRuns
  import opened SocketStreams

  datatype SessionOp =
    | Use(op: StreamOp)
    | CloseStream(closeEc: ErrorCode)
    | Move
    | Reconnect(e: ConnectEvent)

  /** A flush that went through, the part of one that did not, pending output that was given
      up, input handed to the reader, and unread input that was given up. */
  datatype Entry =
    | Sent(data: string) | Fragment(data: string) | Dropped(data: string)
    | Delivered(data: string) | Skipped(data: string)

  datatype SessionEffect = SessionEffect(
    st: Stream, waiting: bool, accepted: string, record: seq<Entry>,
    sends: seq<SendEvent>, recvs: seq<RecvEvent>)

  predicate OnWire(e: Entry) { e.Sent? || e.Fragment? }

  predicate Settled(e: Entry) { e.Sent? || e.Dropped? }

  predicate GivenOut(e: Entry) { e.Delivered? || e.Skipped? }

  predicate IsFragment(e: Entry) { e.Fragment? }

  predicate IsDropped(e: Entry) { e.Dropped? }

  predicate IsDelivered(e: Entry) { e.Delivered? }

  predicate IsSkipped(e: Entry) { e.Skipped? }

  /** The characters of the entries that `pick` selects, in order. */
  function Text(record: seq<Entry>, pick: Entry -> bool): string {
    if record == [] then ""
    else (if pick(record[0]) then record[0].data else "") + Text(record[1..], pick)
  }

  function Entries(sent: seq<Segment>): seq<Entry> {
    if sent == [] then []
    else [if sent[0].whole then Sent(sent[0].data) else Fragment(sent[0].data)] + Entries(sent[1..])
  }

  /** The flush inside a close, and then what `Close` leaves. */
  function CloseEffect(st: Stream, closeEc: ErrorCode, sends: seq<SendEvent>, recvs: seq<RecvEvent>): SessionEffect
    requires st.Valid()
  {
    var f := FlushStep(st.output, Eof, sends);
    var k := Close(st.output, sends, closeEc).k;
    if f.waiting || !closeEc.NoError? then
      SessionEffect(Stream(k, st.input.(ec := k.ec)), f.waiting, "", Entries(f.sent), f.rest, recvs)
    else
      SessionEffect(Stream(k, ResetSource(st.input).(ec := k.ec)), false, "",
                    Entries(f.sent) + [Dropped(f.k.pending), Skipped(st.input.unread)], f.rest, recvs)
  }

  function SessionStep(st: Stream, op: SessionOp, sends: seq<SendEvent>, recvs: seq<RecvEvent>): (e: SessionEffect)
    requires st.Valid()
    ensures e.st.Valid()
  {
    match op
    case Use(u) =>
      var e := StreamStep(st, u, sends, recvs);
      SessionEffect(e.st, e.waiting, e.accepted, Entries(e.sent) + [Delivered(e.delivered)], e.sends, e.recvs)
    case CloseStream(closeEc) => CloseEffect(st, closeEc, sends, recvs)
    case Move =>
      SessionEffect(Stream(MovedSink(st.output), st.input), false, "", [Dropped(st.output.pending)], sends, recvs)
    case Reconnect(e) =>
      var ec := ConnectAll([e], st.output.deadline).ec;
      SessionEffect(Stream(ResetSink(st.output).(ec := ec), ResetSource(st.input).(ec := ec)), false, "",
                    [Dropped(st.output.pending), Skipped(st.input.unread)], sends, recvs)
  }

  function SessionRun(st: Stream, ops: seq<SessionOp>, sends: seq<SendEvent>, recvs: seq<RecvEvent>): (e: SessionEffect)
    requires st.Valid()
    ensures e.st.Valid()
    decreases |ops|
  {
    if ops == [] then SessionEffect(st, false, "", [], sends, recvs) else
    var first := SessionStep(st, ops[0], sends, recvs);
    if first.waiting then first else
    var rest := SessionRun(first.st, ops[1..], first.sends, first.recvs);
    SessionEffect(rest.st, rest.waiting, first.accepted + rest.accepted, first.record + rest.record,
                  rest.sends, rest.recvs)
  }

  // ----- The accounts -----

  ghost predicate OutputAccount(k: Sink, t: Sink, accepted: string, record: seq<Entry>) {
    && t.wire == k.wire + Text(record, OnWire)
    && k.pending + accepted == Text(record, Settled) + t.pending
  }

  ghost predicate InputAccount(s: Source, t: Source, record: seq<Entry>) {
    && s.received <= t.received
    && s.unread + Got(s, t) == Text(record, GivenOut) + t.unread
  }

  lemma {:induction false} TextAppend(a: seq<Entry>, b: seq<Entry>, pick: Entry -> bool)
    ensures Text(a + b, pick) == Text(a, pick) + Text(b, pick)
  {
    if a == [] {
      assert a + b == b;
    } else {
      assert (a + b)[1..] == a[1..] + b;
      TextAppend(a[1..], b, pick);
    }
  }

  lemma {:induction false} SegmentTexts(sent: seq<Segment>)
    ensures Text(Entries(sent), OnWire) == Bytes(sent)
    ensures Text(Entries(sent), Settled) == WholeBytes(sent)
    ensures Text(Entries(sent), GivenOut) == "" == Text(Entries(sent), IsDelivered)
  {
    if sent != [] {
      SegmentTexts(sent[1..]);
      assert Entries(sent)[1..] == Entries(sent[1..]);
    }
  }

  lemma NoEffect(s: string)
    ensures s + "" == s && "" + s == s
  {
  }

  lemma OneText(e: Entry, pick: Entry -> bool)
    ensures Text([e], pick) == if pick(e) then e.data else ""
  {
    assert [e][1..] == [];
  }

  lemma UseTexts(sent: seq<Segment>, delivered: string)
    ensures var record := Entries(sent) + [Delivered(delivered)];
            && Text(record, OnWire) == Bytes(sent)
            && Text(record, Settled) == WholeBytes(sent)
            && Text(record, GivenOut) == delivered == Text(record, IsDelivered)
  {
    var d := Delivered(delivered);
    SegmentTexts(sent);
    TextAppend(Entries(sent), [d], OnWire);
    TextAppend(Entries(sent), [d], Settled);
    TextAppend(Entries(sent), [d], GivenOut);
    TextAppend(Entries(sent), [d], IsDelivered);
    OneText(d, IsDelivered);
    OneText(d, OnWire);
    OneText(d, Settled);
    OneText(d, GivenOut);
  }

  lemma GoneTexts(pending: string, unread: string, pick: Entry -> bool)
    ensures Text([Dropped(pending)], pick) == if pick(Dropped(pending)) then pending else ""
    ensures Text([Dropped(pending), Skipped(unread)], pick)
            == (if pick(Dropped(pending)) then pending else "") + (if pick(Skipped(unread)) then unread else "")
  {
    OneText(Dropped(pending), pick);
    OneText(Skipped(unread), pick);
    assert [Dropped(pending), Skipped(unread)][1..] == [Skipped(unread)];
  }

  lemma CloseTexts(sent: seq<Segment>, pending: string, unread: string)
    ensures var record := Entries(sent) + [Dropped(pending), Skipped(unread)];
            && Text(record, OnWire) == Bytes(sent)
            && Text(record, Settled) == WholeBytes(sent) + pending
            && Text(record, GivenOut) == unread && Text(record, IsDelivered) == ""
  {
    var gone := [Dropped(pending), Skipped(unread)];
    SegmentTexts(sent);
    TextAppend(Entries(sent), gone, OnWire);
    TextAppend(Entries(sent), gone, Settled);
    TextAppend(Entries(sent), gone, GivenOut);
    TextAppend(Entries(sent), gone, IsDelivered);
    GoneTexts(pending, unread, IsDelivered);
    GoneTexts(pending, unread, OnWire);
    GoneTexts(pending, unread, Settled);
    GoneTexts(pending, unread, GivenOut);
  }

  lemma UseAccounts(st: Stream, u: StreamOp, sends: seq<SendEvent>, recvs: seq<RecvEvent>)
    requires st.Valid()
    ensures var e := SessionStep(st, Use(u), sends, recvs);
            && OutputAccount(st.output, e.st.output, e.accepted, e.record)
            && InputAccount(st.input, e.st.input, e.record)
  {
    var e := StreamStep(st, u, sends, recvs);
    StreamStepAccounts(st, u, sends, recvs);
    UseTexts(e.sent, e.delivered);
  }

  /** The flush of a close, followed by what is given up. */
  lemma CloseAccounts(st: Stream, closeEc: ErrorCode, sends: seq<SendEvent>, recvs: seq<RecvEvent>)
    requires st.Valid()
    ensures var e := CloseEffect(st, closeEc, sends, recvs);
            && OutputAccount(st.output, e.st.output, "", e.record)
            && InputAccount(st.input, e.st.input, e.record)
  {
    var e, f := CloseEffect(st, closeEc, sends, recvs), FlushStep(st.output, Eof, sends);
    FlushLedger(st.output, Eof, sends);
    SegmentTexts(f.sent);
    CloseTexts(f.sent, f.k.pending, st.input.unread);
    assert f.accepted == "" && Got(st.input, e.st.input) == "";
    NoEffect(st.output.pending);
    NoEffect(WholeBytes(f.sent) + f.k.pending);
    NoEffect(st.input.unread);
  }

  lemma GivenUpAccounts(st: Stream, op: SessionOp, sends: seq<SendEvent>, recvs: seq<RecvEvent>)
    requires st.Valid() && (op.Move? || op.Reconnect?)
    ensures var e := SessionStep(st, op, sends, recvs);
            && OutputAccount(st.output, e.st.output, e.accepted, e.record)
            && InputAccount(st.input, e.st.input, e.record)
  {
    var pending, unread := st.output.pending, st.input.unread;
    GoneTexts(pending, unread, OnWire);
    GoneTexts(pending, unread, Settled);
    GoneTexts(pending, unread, GivenOut);
    NoEffect(pending);
    NoEffect(unread);
    NoEffect(st.output.wire);
    assert Got(st.input, SessionStep(st, op, sends, recvs).st.input) == "";
  }

  lemma SessionStepAccounts(st: Stream, op: SessionOp, sends: seq<SendEvent>, recvs: seq<RecvEvent>)
    requires st.Valid()
    ensures var e := SessionStep(st, op, sends, recvs);
            && OutputAccount(st.output, e.st.output, e.accepted, e.record)
            && InputAccount(st.input, e.st.input, e.record)
  {
    match op
    case Use(u) => UseAccounts(st, u, sends, recvs);
    case CloseStream(closeEc) => CloseAccounts(st, closeEc, sends, recvs);
    case _ => GivenUpAccounts(st, op, sends, recvs);
  }

  lemma OutputChain(k0: Sink, k1: Sink, k2: Sink, a1: string, a2: string, r1: seq<Entry>, r2: seq<Entry>)
    requires OutputAccount(k0, k1, a1, r1) && OutputAccount(k1, k2, a2, r2)
    ensures OutputAccount(k0, k2, a1 + a2, r1 + r2)
  {
    TextAppend(r1, r2, OnWire);
    TextAppend(r1, r2, Settled);
    Regroup(k0.wire, Text(r1, OnWire), Text(r2, OnWire));
    Regroup(k0.pending, a1, a2);
    Regroup(Text(r1, Settled), k1.pending, a2);
    Regroup(Text(r1, Settled), Text(r2, Settled), k2.pending);
  }

  lemma InputChain(s0: Source, s1: Source, s2: Source, r1: seq<Entry>, r2: seq<Entry>)
    requires InputAccount(s0, s1, r1) && InputAccount(s1, s2, r2)
    ensures InputAccount(s0, s2, r1 + r2)
  {
    TextAppend(r1, r2, GivenOut);
    assert Got(s0, s1) + Got(s1, s2) == Got(s0, s2);
    Regroup(s0.unread, Got(s0, s1), Got(s1, s2));
    Regroup(Text(r1, GivenOut), s1.unread, Got(s1, s2));
    Regroup(Text(r1, GivenOut), Text(r2, GivenOut), s2.unread);
  }

  /** Every character is accounted for over every run, whatever fails: the wire holds what the
      flushes sent; the accepted output was sent in whole, dropped by a close, a connect or a
      move, or is still pending, in that order; and the received input was delivered,
      skipped, or is still unread. */
  lemma {:induction false} SessionAccounts(
      st: Stream, ops: seq<SessionOp>, sends: seq<SendEvent>, recvs: seq<RecvEvent>)
    requires st.Valid()
    ensures var e := SessionRun(st, ops, sends, recvs);
            && OutputAccount(st.output, e.st.output, e.accepted, e.record)
            && InputAccount(st.input, e.st.input, e.record)
    decreases |ops|
  {
    if ops == [] {
      UnmovedSink(st.output, st.output);
      UnmovedSource(st.input, st.input);
    } else {
      var first := SessionStep(st, ops[0], sends, recvs);
      SessionStepAccounts(st, ops[0], sends, recvs);
      if !first.waiting {
        var rest := SessionRun(first.st, ops[1..], first.sends, first.recvs);
        SessionAccounts(first.st, ops[1..], first.sends, first.recvs);
        OutputChain(st.output, first.st.output, rest.st.output, first.accepted, rest.accepted,
                    first.record, rest.record);
        InputChain(st.input, first.st.input, rest.st.input, first.record, rest.record);
      }
    }
  }

  // ----- Loss -----

  lemma {:induction false} RecordTexts(record: seq<Entry>)
    ensures |Text(record, Settled)| + |Text(record, IsFragment)|
            == |Text(record, OnWire)| + |Text(record, IsDropped)|
    ensures Text(record, IsFragment) == "" && Text(record, IsDropped) == "" ==>
              Text(record, Settled) == Text(record, OnWire)
    ensures |Text(record, GivenOut)| == |Text(record, IsDelivered)| + |Text(record, IsSkipped)|
    ensures Text(record, IsSkipped) == "" ==> Text(record, GivenOut) == Text(record, IsDelivered)
  {
    if record != [] {
      RecordTexts(record[1..]);
    }
  }

  /** Where no flush was cut off, the accepted output is on the wire or pending exactly when
      nothing was dropped. What was received is with the reader or unread exactly when nothing
      was skipped. */
  lemma SessionKeepsIff(st: Stream, ops: seq<SessionOp>, sends: seq<SendEvent>, recvs: seq<RecvEvent>)
    requires st.Valid()
    ensures var e := SessionRun(st, ops, sends, recvs);
            && st.input.received <= e.st.input.received
            && (Text(e.record, IsFragment) == "" ==>
                  (e.st.output.wire + e.st.output.pending == st.output.wire + st.output.pending + e.accepted
                   <==> Text(e.record, IsDropped) == ""))
            && (st.input.unread + Got(st.input, e.st.input) == Text(e.record, IsDelivered) + e.st.input.unread
                <==> Text(e.record, IsSkipped) == "")
  {
    var e := SessionRun(st, ops, sends, recvs);
    SessionAccounts(st, ops, sends, recvs);
    RecordTexts(e.record);
    if Text(e.record, IsFragment) == "" {
      OutputKeptIff(st.output, e.st.output, e.accepted, e.record);
    }
    assert |Text(e.record, GivenOut) + e.st.input.unread| == |Text(e.record, GivenOut)| + |e.st.input.unread|;
  }

  lemma OutputKeptIff(k: Sink, t: Sink, accepted: string, record: seq<Entry>)
    requires OutputAccount(k, t, accepted, record) && Text(record, IsFragment) == ""
    ensures t.wire + t.pending == k.wire + k.pending + accepted <==> Text(record, IsDropped) == ""
  {
    RecordTexts(record);
    Regroup(k.wire, k.pending, accepted);
    BalancedIff(k.wire, Text(record, OnWire), Text(record, Settled), t.pending);
  }
}
