/**
 Both directions of a socket stream buffer at once. They share the error code and the expiry
 time, and nothing else: reads and writes may be interleaved in any way.
 */
module SocketStreams {
  import opened Common
  import opened SocketSpec
  import opened SocketRuns

  datatype Stream = Stream(output: Sink, input: Source) {
    ghost predicate Valid() {
      && output.Valid() && input.Valid()
      && output.ec == input.ec && output.deadline == input.deadline
    }
  }

  datatype StreamOp = Write(out: OutOp) | Read(inp: InOp)

  datatype StreamEffect = StreamEffect(
    st: Stream, waiting: bool, accepted: string, sent: seq<Segment>, delivered: string,
    sends: seq<SendEvent>, recvs: seq<RecvEvent>)

  function StreamStep(st: Stream, op: StreamOp, sends: seq<SendEvent>, recvs: seq<RecvEvent>): (e: StreamEffect)
    requires st.Valid()
    ensures e.st.Valid()
  {
    match op
    case Write(out) =>
      var e := OutStep(st.output, out, sends);
      StreamEffect(Stream(e.k, st.input.(ec := e.k.ec, deadline := e.k.deadline)),
                   e.waiting, e.accepted, e.sent, "", e.rest, recvs)
    case Read(inp) =>
      var e := InStep(st.input, inp, recvs);
      StreamEffect(Stream(st.output.(ec := e.s.ec, deadline := e.s.deadline), e.s),
                   e.waiting, "", [], e.delivered, sends, e.rest)
  }

  function StreamRun(st: Stream, ops: seq<StreamOp>, sends: seq<SendEvent>, recvs: seq<RecvEvent>): (e: StreamEffect)
    requires st.Valid()
    ensures e.st.Valid()
    decreases |ops|
  {
    if ops == [] then StreamEffect(st, false, "", [], "", sends, recvs) else
    var first := StreamStep(st, ops[0], sends, recvs);
    if first.waiting then first else
    var rest := StreamRun(first.st, ops[1..], first.sends, first.recvs);
    StreamEffect(rest.st, rest.waiting, first.accepted + rest.accepted, first.sent + rest.sent,
                 first.delivered + rest.delivered, rest.sends, rest.recvs)
  }

  /** After `expires_at` the next call in either direction goes by the new time: its first pass
      fails with timed_out when it is late by it, and not otherwise. */
  lemma ExpiresAtSend(st: Stream, t: int, c: IntType, e: SendEvent, sends: seq<SendEvent>, recvs: seq<RecvEvent>)
    requires st.Valid() && Payload(st.output, c) != ""
    ensures var script := [e] + sends;
            var after := StreamStep(st, Write(ExpiresAt(t)), script, recvs);
            var r := Overflow(after.st.output, c, after.sends);
            && after.st.output.wire == st.output.wire && after.st.output.pending == st.output.pending
            && (t < e.now ==> r.status.Failed? && r.k.ec == TimedOut && r.k.wire == st.output.wire)
            && (e.now <= t && e.accepts >= |Payload(st.output, c)| ==> r.status.Completed?)
  {
    var k, script := st.output.(deadline := t), [e] + sends;
    assert script == [] + ([e] + sends) && script[1..] == sends;
    if t < e.now {
      OverflowExpires(k, c, [], e, sends);
      assert k.wire + "" == k.wire;
    }
  }

  lemma ExpiresAtRecv(st: Stream, t: int, e: RecvEvent, sends: seq<SendEvent>, recvs: seq<RecvEvent>)
    requires st.Valid() && st.input.unread == ""
    ensures var after := StreamStep(st, Write(ExpiresAt(t)), sends, [e] + recvs);
            var r := Underflow(after.st.input, after.recvs);
            && after.st.input.unread == "" && after.st.input.received == st.input.received
            && (t < e.now ==> r.status.Failed? && r.s.ec == TimedOut)
            && (e.now <= t && e.data != "" ==> r.status.Completed?)
  {
    var s := st.input.(ec := st.output.ec, deadline := t);
    assert [e] + recvs == [] + ([e] + recvs);
    if t < e.now { UnderflowExpires(s, [], e, recvs); }
  }

  lemma UnmovedSink(k: Sink, t: Sink)
    requires t.wire == k.wire && t.pending == k.pending
    ensures Ledger(k, t, "", [])
  {
    assert k.wire + "" == k.wire && k.pending + "" == "" + k.pending;
  }

  lemma UnmovedSource(s: Source, t: Source)
    requires t.received == s.received && t.unread == s.unread
    ensures Passed(s, t, "", "") && Got(s, t) == ""
  {
    assert s.received + "" == s.received && s.unread + "" == "" + s.unread;
  }

  lemma StreamStepAccounts(st: Stream, op: StreamOp, sends: seq<SendEvent>, recvs: seq<RecvEvent>)
    requires st.Valid()
    ensures var e := StreamStep(st, op, sends, recvs);
            && Ledger(st.output, e.st.output, e.accepted, e.sent)
            && st.input.received <= e.st.input.received
            && Passed(st.input, e.st.input, e.delivered, Got(st.input, e.st.input))
  {
    var e := StreamStep(st, op, sends, recvs);
    match op
    case Write(out) =>
      StepLedger(st.output, out, sends);
      UnmovedSource(st.input, e.st.input);
    case Read(inp) =>
      StepPasses(st.input, inp, recvs);
      UnmovedSink(st.output, e.st.output);
  }

  /** Over every interleaving of reads and writes, whatever fails: output is accounted for as
      in a run of writes alone, and no input is lost, repeated or reordered. */
  lemma {:induction false} StreamRunAccounts(
      st: Stream, ops: seq<StreamOp>, sends: seq<SendEvent>, recvs: seq<RecvEvent>)
    requires st.Valid()
    ensures var e := StreamRun(st, ops, sends, recvs);
            && Ledger(st.output, e.st.output, e.accepted, e.sent)
            && st.input.received <= e.st.input.received
            && Passed(st.input, e.st.input, e.delivered, Got(st.input, e.st.input))
    decreases |ops|
  {
    if ops == [] {
      UnmovedSink(st.output, st.output);
      UnmovedSource(st.input, st.input);
    } else {
      var first := StreamStep(st, ops[0], sends, recvs);
      StreamStepAccounts(st, ops[0], sends, recvs);
      if !first.waiting {
        var rest := StreamRun(first.st, ops[1..], first.sends, first.recvs);
        StreamRunAccounts(first.st, ops[1..], first.sends, first.recvs);
        LedgerChain(st.output, first.st.output, rest.st.output, first.accepted, rest.accepted, first.sent, rest.sent);
        GotChain(st.input, first.st.input, rest.st.input, first.delivered, rest.delivered);
      }
    }
  }

  lemma GotChain(s0: Source, s1: Source, s2: Source, d1: string, d2: string)
    requires s0.received <= s1.received <= s2.received
    requires Passed(s0, s1, d1, Got(s0, s1)) && Passed(s1, s2, d2, Got(s1, s2))
    ensures Passed(s0, s2, d1 + d2, Got(s0, s2))
  {
    PassedChain(s0, s1, s2, d1, d2, Got(s0, s1), Got(s1, s2));
    assert Got(s0, s1) + Got(s1, s2) == Got(s0, s2);
  }
}
