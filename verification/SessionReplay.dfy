/**
 A socket stream buffer object taken through its whole life: the accounts of SocketSessions
 hold of its arrays and its socket.
 */
module SessionReplay {
  import opened Common
  import opened SocketSpec
  import opened SocketRuns
  import opened SocketStreambuf
  import opened SocketStreams
  import opened SocketSessions
  import opened SocketReplay

  /** What one operation hands to the reader. */
  lemma StepDelivers(st: Stream, op: SessionOp, sends: seq<SendEvent>, recvs: seq<RecvEvent>)
    requires st.Valid()
    ensures Text(SessionStep(st, op, sends, recvs).record, IsDelivered)
            == if op.Use? then StreamStep(st, op.op, sends, recvs).delivered else ""
  {
    match op
    case Use(u) =>
      var e := StreamStep(st, u, sends, recvs);
      UseTexts(e.sent, e.delivered);
    case CloseStream(_) =>
      var f := FlushStep(st.output, Eof, sends);
      SegmentTexts(f.sent);
      CloseTexts(f.sent, f.k.pending, st.input.unread);
    case _ => GoneTexts(st.output.pending, st.input.unread, IsDelivered);
  }

  /** One operation. The object it goes on with is another one after a move only. */
  method Perform(b: BasicSocketStreambuf, op: SessionOp)
    returns (t: BasicSocketStreambuf, waiting: bool, accepted: string, delivered: string)
    requires b.Valid()
    modifies b, b.socket, b.putBuffer, b.getBuffer
    ensures t.Valid() && (t == b || fresh(t))
    ensures t.socket == old(b.socket) && t.getBuffer == old(b.getBuffer)
    ensures t.putBuffer == old(b.putBuffer) || fresh(t.putBuffer)
    ensures var e := SessionStep(old(StreamView(b)), op, old(b.socket.sends), old(b.socket.recvs));
            && (StreamView(t), waiting, accepted) == (e.st, e.waiting, e.accepted)
            && (t.socket.sends, t.socket.recvs) == (e.sends, e.recvs)
            && delivered == Text(e.record, IsDelivered)
  {
    StepDelivers(StreamView(b), op, b.socket.sends, b.socket.recvs);
    t, waiting, accepted, delivered := b, false, "", "";
    if op.Use? {
      waiting, accepted, delivered := PerformBoth(b, op.op);
    } else if op.CloseStream? {
      var ok, status := b.CloseStream(op.closeEc);
      waiting := status == Waiting;
    } else if op.Move? {
      t := new BasicSocketStreambuf.MoveFrom(b);
    } else {
      var ok := b.Connect(op.e);
    }
  }

  /** The object, and the targets it is moved into, go through any run as specified. */
  method Replay(b: BasicSocketStreambuf, ops: seq<SessionOp>)
    returns (t: BasicSocketStreambuf, waiting: bool, accepted: string, delivered: string)
    requires b.Valid()
    modifies b, b.socket, b.putBuffer, b.getBuffer
    ensures t.Valid() && t.socket == old(b.socket)
    ensures var e := SessionRun(old(StreamView(b)), ops, old(b.socket.sends), old(b.socket.recvs));
            && (StreamView(t), waiting, accepted) == (e.st, e.waiting, e.accepted)
            && delivered == Text(e.record, IsDelivered)
    decreases |ops|
  {
    if ops == [] {
      return b, false, "", "";
    }
    ghost var first := SessionStep(StreamView(b), ops[0], b.socket.sends, b.socket.recvs);
    t, waiting, accepted, delivered := Perform(b, ops[0]);
    if !waiting {
      ghost var rest := SessionRun(StreamView(t), ops[1..], t.socket.sends, t.socket.recvs);
      var a, d;
      t, waiting, a, d := Replay(t, ops[1..]);
      accepted, delivered := accepted + a, delivered + d;
      TextAppend(first.record, rest.record, IsDelivered);
    }
  }

  /** From a new object on: what its socket has sent, what its caller has put in and what the
      system has delivered, up to any point of its life. */
  method Live(ops: seq<SessionOp>, sends: seq<SendEvent>, recvs: seq<RecvEvent>)
    returns (b: BasicSocketStreambuf, waiting: bool, accepted: string, delivered: string)
    ensures b.Valid()
    ensures var st := Stream(Sink(true, 0, "", "", NoError, MAX_EXPIRY),
                             Source(PUTBACK_MAX, "", "", NoError, MAX_EXPIRY));
            var e := SessionRun(st, ops, sends, recvs);
            && (StreamView(b), waiting, accepted) == (e.st, e.waiting, e.accepted)
            && delivered == Text(e.record, IsDelivered)
            && b.socket.wire == Text(e.record, OnWire)
            && accepted == Text(e.record, Settled) + b.SinkView().pending
            && b.socket.received == Text(e.record, GivenOut) + b.SourceView().unread
  {
    b := new BasicSocketStreambuf(sends, recvs);
    ghost var st := StreamView(b);
    SessionAccounts(st, ops, sends, recvs);
    b, waiting, accepted, delivered := Replay(b, ops);
    FromNothing(st, SessionRun(st, ops, sends, recvs));
  }

  /** The accounts of a stream that starts with nothing. */
  lemma FromNothing(st: Stream, e: SessionEffect)
    requires st.output.wire == st.output.pending == st.input.received == st.input.unread == ""
    requires OutputAccount(st.output, e.st.output, e.accepted, e.record)
    requires InputAccount(st.input, e.st.input, e.record)
    ensures e.st.output.wire == Text(e.record, OnWire)
    ensures e.accepted == Text(e.record, Settled) + e.st.output.pending
    ensures e.st.input.received == Text(e.record, GivenOut) + e.st.input.unread
  {
    NoEffect(Text(e.record, OnWire));
    NoEffect(e.accepted);
    NoEffect(e.st.input.received);
    assert Got(st.input, e.st.input) == e.st.input.received;
  }
}
