/**
 Whole runs of the socket stream buffer between two connects, in each direction.
 A run ends early when one of its calls is still retrying at the end of the script.
 */
module SocketRuns {
  import opened Common
  import opened SocketSpec

  // ----- Output -----

  datatype OutOp =
    | Put(next: char)
    | Flush(c: IntType)
    | Unbuffer(zero: bool)
    | ExpiresAt(t: int)

  /** What one flush put on the wire, and whether it sent all that was pending. */
  datatype Segment = Segment(data: string, whole: bool)

  datatype OutEffect = OutEffect(
    k: Sink, waiting: bool, accepted: string, sent: seq<Segment>, rest: seq<SendEvent>)

  function FlushStep(k: Sink, c: IntType, script: seq<SendEvent>): (e: OutEffect)
    requires k.Valid()
    ensures e.k.Valid()
  {
    var r := Overflow(k, c, script);
    var ok := r.status.Completed?;
    var data := Payload(k, c)[..SendAll(|Payload(k, c)|, k.deadline, k.ec, script).sent];
    OutEffect(r.k, r.status.Waiting?, if ok && c.Char? then [c.c] else "", [Segment(data, ok)], r.rest)
  }

  function OutStep(k: Sink, op: OutOp, script: seq<SendEvent>): (e: OutEffect)
    requires k.Valid()
    ensures e.k.Valid()
  {
    match op
    case Put(c) =>
      if k.Room() > 0 then OutEffect(Sputc(k, c, script).k, false, [c], [], script)
      else FlushStep(k, Char(c), script)
    case Flush(c) => FlushStep(k, c, script)
    case Unbuffer(zero) => OutEffect(Setbuf(k, zero).0, false, "", [], script)
    case ExpiresAt(t) => OutEffect(k.(deadline := t), false, "", [], script)
  }

  function OutRun(k: Sink, ops: seq<OutOp>, script: seq<SendEvent>): (e: OutEffect)
    requires k.Valid()
    ensures e.k.Valid()
    decreases |ops|
  {
    if ops == [] then OutEffect(k, false, "", [], script) else
    var first := OutStep(k, ops[0], script);
    if first.waiting then first else
    var rest := OutRun(first.k, ops[1..], first.rest);
    OutEffect(rest.k, rest.waiting, first.accepted + rest.accepted, first.sent + rest.sent, rest.rest)
  }

  function Bytes(sent: seq<Segment>): string {
    if sent == [] then "" else sent[0].data + Bytes(sent[1..])
  }

  /** The characters of the flushes that went through. */
  function WholeBytes(sent: seq<Segment>): string {
    if sent == [] then "" else (if sent[0].whole then sent[0].data else "") + WholeBytes(sent[1..])
  }

  /** wire and pending before and after, with what was accepted and sent in between. */
  ghost predicate Ledger(k: Sink, t: Sink, accepted: string, sent: seq<Segment>) {
    && t.wire == k.wire + Bytes(sent)
    && k.pending + accepted == WholeBytes(sent) + t.pending
  }

  lemma FlushLedger(k: Sink, c: IntType, script: seq<SendEvent>)
    requires k.Valid()
    ensures var e := FlushStep(k, c, script); Ledger(k, e.k, e.accepted, e.sent)
  {
    var e := FlushStep(k, c, script);
    var data := e.sent[0].data;
    assert Bytes(e.sent) == data + "" == data;
    if e.sent[0].whole {
      assert data == Payload(k, c);
      assert WholeBytes(e.sent) == data + "" == data;
    } else {
      UnsuccessfulOverflow(k, c, script);
      assert WholeBytes(e.sent) == "";
      assert k.pending + "" == "" + k.pending;
    }
    FlushWire(k, c, script);
  }

  lemma FlushWire(k: Sink, c: IntType, script: seq<SendEvent>)
    requires k.Valid()
    ensures var e := FlushStep(k, c, script); e.k.wire == k.wire + e.sent[0].data
  {
    if !k.buffered && c.Eof? {
      assert k.wire + "" == k.wire;
    }
  }

  lemma StepLedger(k: Sink, op: OutOp, script: seq<SendEvent>)
    requires k.Valid()
    ensures var e := OutStep(k, op, script); Ledger(k, e.k, e.accepted, e.sent)
  {
    assert forall s: string :: s + "" == s && "" + s == s;
    match op
    case Put(c) => if k.Room() == 0 { FlushLedger(k, Char(c), script); }
    case Flush(c) => FlushLedger(k, c, script);
    case Unbuffer(zero) =>
    case ExpiresAt(t) =>
  }

  lemma {:induction false} BytesAppend(a: seq<Segment>, b: seq<Segment>)
    ensures Bytes(a + b) == Bytes(a) + Bytes(b)
    ensures WholeBytes(a + b) == WholeBytes(a) + WholeBytes(b)
  {
    if a == [] {
      assert a + b == b;
    } else {
      assert (a + b)[1..] == a[1..] + b;
      BytesAppend(a[1..], b);
    }
  }

  lemma LedgerChain(k0: Sink, k1: Sink, k2: Sink, a1: string, a2: string, s1: seq<Segment>, s2: seq<Segment>)
    requires Ledger(k0, k1, a1, s1) && Ledger(k1, k2, a2, s2)
    ensures Ledger(k0, k2, a1 + a2, s1 + s2)
  {
    BytesAppend(s1, s2);
    Regroup(k0.wire, Bytes(s1), Bytes(s2));
    Regroup(k0.pending, a1, a2);
    Regroup(WholeBytes(s1), k1.pending, a2);
    Regroup(WholeBytes(s1), WholeBytes(s2), k2.pending);
  }

  /** Output is accounted for over every run, failed and unfinished flushes included: the
      wire holds what every flush sent, in order, and the accepted characters are exactly
      those of the flushes that went through, followed by what is still pending. */
  lemma {:induction false} OutRunLedger(k: Sink, ops: seq<OutOp>, script: seq<SendEvent>)
    requires k.Valid()
    ensures var e := OutRun(k, ops, script); Ledger(k, e.k, e.accepted, e.sent)
    decreases |ops|
  {
    if ops == [] {
      assert k.wire + "" == k.wire && k.pending + "" == "" + k.pending;
    } else {
      var first := OutStep(k, ops[0], script);
      StepLedger(k, ops[0], script);
      if !first.waiting {
        OutRunLedger(first.k, ops[1..], first.rest);
        var rest := OutRun(first.k, ops[1..], first.rest);
        LedgerChain(k, first.k, rest.k, first.accepted, rest.accepted, first.sent, rest.sent);
      }
    }
  }

  /** Every flush that did not go through had sent nothing. */
  ghost predicate NoFragment(sent: seq<Segment>) {
    forall i :: 0 <= i < |sent| ==> sent[i].whole || sent[i].data == ""
  }

  lemma {:induction false} FragmentsCounted(sent: seq<Segment>)
    ensures |WholeBytes(sent)| <= |Bytes(sent)|
    ensures |WholeBytes(sent)| == |Bytes(sent)| <==> NoFragment(sent)
    ensures NoFragment(sent) ==> WholeBytes(sent) == Bytes(sent)
  {
    if sent != [] {
      FragmentsCounted(sent[1..]);
      assert NoFragment(sent) <==> (sent[0].whole || sent[0].data == "") && NoFragment(sent[1..]) by {
        if NoFragment(sent) {
          assert forall i :: 0 <= i < |sent[1..]| ==> sent[1..][i] == sent[i + 1];
        } else {
          var i :| 0 <= i < |sent| && !sent[i].whole && sent[i].data != "";
          assert i == 0 || sent[1..][i - 1] == sent[i];
        }
      }
    }
  }

  lemma BalancedIff(wire: string, bytes: string, whole: string, pending: string)
    requires |whole| == |bytes| ==> whole == bytes
    ensures (wire + bytes) + pending == wire + (whole + pending) <==> |whole| == |bytes|
  {
    Regroup(wire, bytes, pending);
    assert |(wire + bytes) + pending| == |wire| + |bytes| + |pending|;
    assert |wire + (whole + pending)| == |wire| + |whole| + |pending|;
  }

  /** The stream on the wire plus the pending output is the accepted stream, exactly when
      every flush that failed or is unfinished had sent nothing. */
  lemma OutputConservedIff(k: Sink, ops: seq<OutOp>, script: seq<SendEvent>)
    requires k.Valid()
    ensures var e := OutRun(k, ops, script);
            e.k.wire + e.k.pending == k.wire + k.pending + e.accepted <==> NoFragment(e.sent)
  {
    var e := OutRun(k, ops, script);
    OutRunLedger(k, ops, script);
    FragmentsCounted(e.sent);
    Regroup(k.wire, k.pending, e.accepted);
    BalancedIff(k.wire, Bytes(e.sent), WholeBytes(e.sent), e.k.pending);
  }

  /** Without a buffer a failed or unfinished flush has sent nothing, so every run of an
      unbuffered sink conserves: the wire grows by the accepted characters. */
  lemma UnbufferedRunConserves(k: Sink, ops: seq<OutOp>, script: seq<SendEvent>)
    requires k.Valid() && !k.buffered
    ensures var e := OutRun(k, ops, script);
            !e.k.buffered && NoFragment(e.sent) && e.k.wire == k.wire + e.accepted
  {
    UnbufferedNoFragment(k, ops, script);
    var e := OutRun(k, ops, script);
    OutputConservedIff(k, ops, script);
    assert k.wire + "" == k.wire && e.k.wire + "" == e.k.wire;
  }

  lemma {:induction false} UnbufferedNoFragment(k: Sink, ops: seq<OutOp>, script: seq<SendEvent>)
    requires k.Valid() && !k.buffered
    ensures !OutRun(k, ops, script).k.buffered && NoFragment(OutRun(k, ops, script).sent)
    decreases |ops|
  {
    if ops != [] {
      var first := OutStep(k, ops[0], script);
      if !first.waiting {
        UnbufferedNoFragment(first.k, ops[1..], first.rest);
      }
    }
  }

  /** After a flush that failed, through any puts and further flushes that fail as well, the
      first flush that succeeds sends everything from the start of what was pending at the
      first failure: the prefixes already sent are sent again. */
  lemma ResentAfterFailure(k: Sink, c: IntType, s1: seq<SendEvent>, ops: seq<OutOp>, s2: seq<SendEvent>, d: IntType)
    requires k.Valid() && k.buffered && Overflow(k, c, s1).status.Failed?
    requires var e := OutRun(Overflow(k, c, s1).k, ops, s2);
             && !e.waiting
             && (forall i :: 0 <= i < |e.sent| ==> !e.sent[i].whole)
             && Overflow(e.k, d, e.rest).status.Completed?
    ensures var e := OutRun(Overflow(k, c, s1).k, ops, s2);
            Overflow(e.k, d, e.rest).k.wire == e.k.wire + (k.pending + e.accepted)
  {
    var t := Overflow(k, c, s1).k;
    var e := OutRun(t, ops, s2);
    UnsuccessfulOverflow(k, c, s1);
    OutRunLedger(t, ops, s2);
    NothingWhole(e.sent);
    assert k.pending + e.accepted == "" + e.k.pending == e.k.pending;
    SuccessfulOverflow(e.k, d, e.rest);
  }

  lemma {:induction false} NothingWhole(sent: seq<Segment>)
    requires forall i :: 0 <= i < |sent| ==> !sent[i].whole
    ensures WholeBytes(sent) == ""
  {
    if sent != [] {
      NothingWhole(sent[1..]);
    }
  }

  // ----- Input -----

  datatype InOp = Peek | Bump | Refill

  datatype InEffect = InEffect(s: Source, waiting: bool, delivered: string, rest: seq<RecvEvent>)

  function InStep(s: Source, op: InOp, script: seq<RecvEvent>): (e: InEffect)
    requires s.Valid()
    ensures e.s.Valid()
  {
    match op
    case Peek => var r := Sgetc(s, script); InEffect(r.s, r.status.Waiting?, "", r.rest)
    case Bump =>
      var r := Sbumpc(s, script);
      InEffect(r.s, r.status.Waiting?, if r.ret.Char? then [r.ret.c] else "", r.rest)
    case Refill => var r := Underflow(s, script); InEffect(r.s, r.status.Waiting?, "", r.rest)
  }

  function InRun(s: Source, ops: seq<InOp>, script: seq<RecvEvent>): (e: InEffect)
    requires s.Valid()
    ensures e.s.Valid()
    decreases |ops|
  {
    if ops == [] then InEffect(s, false, "", script) else
    var first := InStep(s, ops[0], script);
    if first.waiting then first else
    var rest := InRun(first.s, ops[1..], first.rest);
    InEffect(rest.s, rest.waiting, first.delivered + rest.delivered, rest.rest)
  }

  /** The kernel delivered `got` more; it and the old unread characters are the delivered
      ones followed by the new unread ones. */
  ghost predicate Passed(s: Source, t: Source, delivered: string, got: string) {
    && t.received == s.received + got
    && s.unread + got == delivered + t.unread
  }

  /** What `recv` handed over during one operation. */
  ghost function Got(s: Source, t: Source): string
    requires s.received <= t.received
  {
    t.received[|s.received|..]
  }

  lemma UnderflowPasses(s: Source, script: seq<RecvEvent>)
    requires s.Valid()
    ensures var t := Underflow(s, script).s;
            && s.received <= t.received && Passed(s, t, "", Got(s, t))
            && (Underflow(s, script).ret.Char? ==>
                  s.unread == "" && t.start == PUTBACK_MAX && Got(s, t) != "" && t.unread == Got(s, t)
                  && Underflow(s, script).ret.c == t.unread[0])
            && (Underflow(s, script).ret.Eof? ==> t == s.(ec := t.ec))
  {
    assert s.received + "" == s.received && s.unread + "" == "" + s.unread;
  }

  lemma StepPasses(s: Source, op: InOp, script: seq<RecvEvent>)
    requires s.Valid()
    ensures var e := InStep(s, op, script);
            s.received <= e.s.received && Passed(s, e.s, e.delivered, Got(s, e.s))
  {
    assert s.received + "" == s.received && s.unread + "" == "" + s.unread;
    UnderflowPasses(s, script);
    if op.Bump? {
      var t := Sgetc(s, script).s;
      if Sgetc(s, script).ret.Char? {
        assert t.unread == [t.unread[0]] + t.unread[1..];
      }
    }
  }

  /** A bump hands out the first unread character and no other, refilling only when there is
      none; a peek hands out nothing and takes nothing away. */
  lemma StepDelivers(s: Source, script: seq<RecvEvent>)
    requires s.Valid()
    ensures var b := InStep(s, Bump, script);
            && (s.unread != "" ==>
                  b.delivered == [s.unread[0]] && b.s == s.(start := b.s.start, unread := s.unread[1..]))
            && (s.unread == "" ==>
                  var r := Underflow(s, script);
                  b.delivered + b.s.unread == r.s.unread && |b.delivered| == if r.status.Completed? then 1 else 0)
    ensures var p := InStep(s, Peek, script);
            p.delivered == "" && p.s == if s.unread == "" then Underflow(s, script).s else s
  {
    SbumpcMeaning(s, script);
    UnderflowOutcome(s, script);
  }

  lemma PassedChain(s0: Source, s1: Source, s2: Source, d1: string, d2: string, g1: string, g2: string)
    requires Passed(s0, s1, d1, g1) && Passed(s1, s2, d2, g2)
    ensures Passed(s0, s2, d1 + d2, g1 + g2)
  {
    calc {
      s0.unread + (g1 + g2);
      (s0.unread + g1) + g2;
      d1 + (s1.unread + g2);
      (d1 + d2) + s2.unread;
    }
  }

  /** Input is conserved over every run: nothing is lost, repeated or reordered, whatever
      the retries, timeouts and errors in between. */
  lemma {:induction false} InputConserved(s: Source, ops: seq<InOp>, script: seq<RecvEvent>)
    requires s.Valid()
    ensures var e := InRun(s, ops, script);
            s.received <= e.s.received && Passed(s, e.s, e.delivered, Got(s, e.s))
    decreases |ops|
  {
    if ops == [] {
      assert s.received + "" == s.received && s.unread + "" == "" + s.unread;
    } else {
      var first := InStep(s, ops[0], script);
      StepPasses(s, ops[0], script);
      if !first.waiting {
        var rest := InRun(first.s, ops[1..], first.rest);
        InputConserved(first.s, ops[1..], first.rest);
        PassedChain(s, first.s, rest.s, first.delivered, rest.delivered, Got(s, first.s), Got(first.s, rest.s));
        assert Got(s, first.s) + Got(first.s, rest.s) == Got(s, rest.s);
      }
    }
  }

  /** From a fresh connection: characters delivered, then unread, are those received. */
  lemma FreshInputConserved(deadline: int, ops: seq<InOp>, script: seq<RecvEvent>)
    ensures var e := InRun(Source(PUTBACK_MAX, "", "", NoError, deadline), ops, script);
            e.delivered + e.s.unread == e.s.received
  {
    var s := Source(PUTBACK_MAX, "", "", NoError, deadline);
    InputConserved(s, ops, script);
    var e := InRun(s, ops, script);
    assert "" + Got(s, e.s) == Got(s, e.s) == e.s.received;
  }
}
