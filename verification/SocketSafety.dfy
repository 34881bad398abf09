/**
 When output is safe from resending, whatever the system answers: a condition on the sink
 that the caller can check before each operation.
 */
module SocketSafety {
  import opened Common
  import opened SocketSpec
  import opened SocketRuns

  predicate Flushes(k: Sink, op: OutOp)
    requires k.Valid()
  {
    match op
    case Put(_) => k.Room() == 0
    case Flush(_) => true
    case _ => false
  }

  /** The guard FlushSafe holds before every operation of the run that flushes. */
  ghost predicate Guarded(k: Sink, ops: seq<OutOp>, script: seq<SendEvent>)
    requires k.Valid()
    decreases |ops|
  {
    ops == [] ||
    (&& (Flushes(k, ops[0]) ==> FlushSafe(k))
     && var e := OutStep(k, ops[0], script);
        e.waiting || Guarded(e.k, ops[1..], e.rest))
  }

  /** wire followed by pending is the accepted stream. */
  ghost predicate Conserved(k: Sink, e: OutEffect) {
    e.k.wire + e.k.pending == k.wire + k.pending + e.accepted
  }

  lemma GuardedStep(k: Sink, op: OutOp, script: seq<SendEvent>)
    requires k.Valid() && (Flushes(k, op) ==> FlushSafe(k))
    ensures NoFragment(OutStep(k, op, script).sent)
  {
  }

  lemma {:induction false} GuardedNoFragment(k: Sink, ops: seq<OutOp>, script: seq<SendEvent>)
    requires k.Valid() && Guarded(k, ops, script)
    ensures NoFragment(OutRun(k, ops, script).sent)
    decreases |ops|
  {
    if ops != [] {
      GuardedStep(k, ops[0], script);
      var e := OutStep(k, ops[0], script);
      if !e.waiting {
        GuardedNoFragment(e.k, ops[1..], e.rest);
      }
    }
  }

  // ----- The answers a call has not used yet do not matter -----

  lemma {:induction false} SendReplay(n: nat, deadline: int, ec: ErrorCode, used: seq<SendEvent>,
                                      unused: seq<SendEvent>, rest: seq<SendEvent>)
    requires var r := SendAll(n, deadline, ec, used + unused); !r.status.Waiting? && r.rest == unused
    ensures SendAll(n, deadline, ec, used + rest) == SendAll(n, deadline, ec, used + unused).(rest := rest)
    decreases |used|, 1
  {
    if used != [] {
      HeadAndTail(used, unused);
      HeadAndTail(used, rest);
      if SendGoesOn(used[0], deadline) {
        NextReplay(n, deadline, used, unused, rest);
      }
    } else {
      assert used + unused == unused && used + rest == rest;
    }
  }

  lemma HeadAndTail(a: seq<SendEvent>, b: seq<SendEvent>)
    requires a != []
    ensures (a + b)[0] == a[0] && (a + b)[1..] == a[1..] + b
  {
  }

  lemma {:induction false} NextReplay(n: nat, deadline: int, used: seq<SendEvent>, unused: seq<SendEvent>,
                                      rest: seq<SendEvent>)
    requires used != []
    requires var r := SendNext(n, deadline, used + unused); !r.status.Waiting? && r.rest == unused
    ensures SendNext(n, deadline, used + rest) == SendNext(n, deadline, used + unused).(rest := rest)
    decreases |used|, 0
  {
    HeadAndTail(used, unused);
    HeadAndTail(used, rest);
    var e := used[0];
    SendReplay(n - Min(e.accepts, n), deadline, if e.accepts > 0 then NoError else e.pollEc,
               used[1..], unused, rest);
  }

  lemma StepReplay(k: Sink, op: OutOp, script: seq<SendEvent>, rest: seq<SendEvent>)
    returns (again: seq<SendEvent>)
    requires k.Valid() && !OutStep(k, op, script).waiting
    ensures OutStep(k, op, again) == OutStep(k, op, script).(rest := rest)
  {
    var c := if op.Put? then Char(op.next) else if op.Flush? then op.c else Eof;
    if Flushes(k, op) && (k.buffered || c.Char?) {
      var r := SendAll(|Payload(k, c)|, k.deadline, k.ec, script);
      var used := script[..|script| - |r.rest|];
      SendSuffix(|Payload(k, c)|, k.deadline, k.ec, script);
      assert script == used + r.rest;
      SendReplay(|Payload(k, c)|, k.deadline, k.ec, used, r.rest, rest);
      again := used + rest;
    } else {
      again := rest;
    }
  }

  // ----- Without the guard -----

  lemma CutOffLeavesFragment(k: Sink, op: OutOp)
    requires k.Valid() && Flushes(k, op) && !FlushSafe(k)
    ensures var e := OutStep(k, op, CutOff(k.deadline));
            !e.waiting && |e.sent| == 1 && !e.sent[0].whole && e.sent[0].data != ""
  {
    CutOffSendsOne(|k.pending|, k.deadline, k.ec);
  }

  lemma FragmentStays(a: seq<Segment>, b: seq<Segment>)
    requires !NoFragment(a) || !NoFragment(b)
    ensures !NoFragment(a + b)
  {
    if !NoFragment(a) {
      var i :| 0 <= i < |a| && !a[i].whole && a[i].data != "";
      assert (a + b)[i] == a[i];
    } else {
      var i :| 0 <= i < |b| && !b[i].whole && b[i].data != "";
      assert (a + b)[|a| + i] == b[i];
    }
  }

  /** A run that meets a flush without the guard can be made to leave a fragment there. */
  lemma {:induction false} Unguarded(k: Sink, ops: seq<OutOp>, script: seq<SendEvent>) returns (bad: seq<SendEvent>)
    requires k.Valid() && !Guarded(k, ops, script)
    ensures !NoFragment(OutRun(k, ops, bad).sent)
    decreases |ops|
  {
    if Flushes(k, ops[0]) && !FlushSafe(k) {
      bad := CutOff(k.deadline);
      CutOffLeavesFragment(k, ops[0]);
      var e := OutStep(k, ops[0], bad);
      FragmentStays(e.sent, OutRun(e.k, ops[1..], e.rest).sent);
    } else {
      var e := OutStep(k, ops[0], script);
      var later := Unguarded(e.k, ops[1..], e.rest);
      bad := StepReplay(k, ops[0], script, later);
      FragmentStays(e.sent, OutRun(e.k, ops[1..], later).sent);
    }
  }

  /** A sequence of operations conserves the output for all answers of the system exactly
      when, for all of them, every flush it comes to is made without a buffer or with at
      most one character pending. */
  lemma AlwaysConservedIff(k: Sink, ops: seq<OutOp>)
    requires k.Valid()
    ensures (forall script: seq<SendEvent> :: Conserved(k, OutRun(k, ops, script)))
            <==> (forall script: seq<SendEvent> :: Guarded(k, ops, script))
  {
    forall script: seq<SendEvent>
      ensures Conserved(k, OutRun(k, ops, script)) <==> NoFragment(OutRun(k, ops, script).sent)
      ensures Guarded(k, ops, script) ==> NoFragment(OutRun(k, ops, script).sent)
    {
      OutputConservedIff(k, ops, script);
      if Guarded(k, ops, script) { GuardedNoFragment(k, ops, script); }
    }
    if script: seq<SendEvent> :| !Guarded(k, ops, script) {
      var bad := Unguarded(k, ops, script);
      assert !Conserved(k, OutRun(k, ops, bad));
    }
  }

  // ----- Deciding it before the run -----

  /** All that matters about a sink: its mode, its room and how many characters are pending. */
  datatype Shape = Shape(buffered: bool, room: nat, count: nat)

  function ShapeOf(k: Sink): Shape
    requires k.Valid()
  {
    Shape(k.buffered, k.Room(), |k.pending|)
  }

  predicate FlushesAt(s: Shape, op: OutOp) {
    op.Flush? || (op.Put? && s.room == 0)
  }

  /** The shape after an operation whose flush, if it makes one, goes through. */
  function Next(s: Shape, op: OutOp): Shape {
    match op
    case Put(_) =>
      if s.room > 0 then s.(room := s.room - 1, count := s.count + 1)
      else if s.buffered then Shape(true, BUFFER_SIZE - 1, 1) else s
    case Flush(c) =>
      if !s.buffered then s
      else if c.Eof? then Shape(true, BUFFER_SIZE, 0) else Shape(true, BUFFER_SIZE - 1, 1)
    case Unbuffer(zero) => if zero && s.count == 0 then Shape(false, 0, 0) else s
    case ExpiresAt(_) => s
  }

  /** A flush that fails leaves the shape; one of nothing cannot fail. */
  predicate MayFail(s: Shape, op: OutOp) {
    FlushesAt(s, op) && s.buffered && s.count > 0
  }

  /** However the flushes end, each is made without a buffer or with at most one character. */
  predicate SafePlan(s: Shape, ops: seq<OutOp>)
    decreases |ops|
  {
    ops == [] ||
    (&& (FlushesAt(s, ops[0]) ==> !s.buffered || s.count <= 1)
     && SafePlan(Next(s, ops[0]), ops[1..])
     && (MayFail(s, ops[0]) ==> SafePlan(s, ops[1..])))
  }

  lemma StepShape(k: Sink, op: OutOp, script: seq<SendEvent>)
    requires k.Valid()
    ensures var t := OutStep(k, op, script).k;
            || ShapeOf(t) == Next(ShapeOf(k), op)
            || (ShapeOf(t) == ShapeOf(k) && (OutStep(k, op, script).waiting || MayFail(ShapeOf(k), op)))
  {
    if Flushes(k, op) {
      var c := if op.Put? then Char(op.next) else op.c;
      if Overflow(k, c, script).status.Completed? {
        SuccessfulOverflow(k, c, script);
      } else {
        UnsuccessfulOverflow(k, c, script);
      }
    }
  }

  lemma SendAtOnce(n: nat, deadline: int, ec: ErrorCode, e: SendEvent, later: seq<SendEvent>)
    requires n > 0 && e.now == deadline
    ensures e.accepts >= n ==> SendAll(n, deadline, ec, [e] + later) == SendResult(n, Completed, NoError, later)
    ensures e == SendEvent(deadline, 0, Other(1), 0, NoError) ==>
              SendAll(n, deadline, ec, [e] + later) == SendResult(0, Failed, Other(1), later)
  {
    var script := [e] + later;
    assert script[1..] == later;
    if e.accepts >= n {
      assert SendNext(n, deadline, script) == SendResult(0, Completed, NoError, later);
    }
  }

  /** Answers with which an operation does not fail, and those after it are left over. */
  lemma CanGoThrough(k: Sink, op: OutOp, later: seq<SendEvent>) returns (script: seq<SendEvent>)
    requires k.Valid()
    ensures var e := OutStep(k, op, script);
            !e.waiting && e.rest == later && ShapeOf(e.k) == Next(ShapeOf(k), op)
  {
    script := later;
    if Flushes(k, op) {
      var c := if op.Put? then Char(op.next) else op.c;
      var n := |Payload(k, c)|;
      if n > 0 {
        var taken := SendEvent(k.deadline, n, NoError, 0, NoError);
        script := [taken] + later;
        SendAtOnce(n, k.deadline, k.ec, taken, later);
      }
      SuccessfulOverflow(k, c, script);
    }
  }

  lemma CanFail(k: Sink, op: OutOp, later: seq<SendEvent>) returns (script: seq<SendEvent>)
    requires k.Valid() && MayFail(ShapeOf(k), op)
    ensures var e := OutStep(k, op, script);
            !e.waiting && e.rest == later && ShapeOf(e.k) == ShapeOf(k)
  {
    var c := if op.Put? then Char(op.next) else op.c;
    var broken := SendEvent(k.deadline, 0, Other(1), 0, NoError);
    script := [broken] + later;
    SendAtOnce(|Payload(k, c)|, k.deadline, k.ec, broken, later);
    UnsuccessfulOverflow(k, c, script);
  }

  lemma {:induction false} PlanGuards(k: Sink, ops: seq<OutOp>, script: seq<SendEvent>)
    requires k.Valid() && SafePlan(ShapeOf(k), ops)
    ensures Guarded(k, ops, script)
    decreases |ops|
  {
    if ops != [] {
      var e := OutStep(k, ops[0], script);
      StepShape(k, ops[0], script);
      if !e.waiting {
        PlanGuards(e.k, ops[1..], e.rest);
      }
    }
  }

  /** An unsafe plan can be made to meet a flush without the guard. */
  lemma {:induction false} UnsafePlan(k: Sink, ops: seq<OutOp>) returns (script: seq<SendEvent>)
    requires k.Valid() && !SafePlan(ShapeOf(k), ops)
    ensures !Guarded(k, ops, script)
    decreases |ops|
  {
    if FlushesAt(ShapeOf(k), ops[0]) && !FlushSafe(k) {
      script := [];
    } else if !SafePlan(Next(ShapeOf(k), ops[0]), ops[1..]) {
      var s := CanGoThrough(k, ops[0], []);
      var later := UnsafePlan(OutStep(k, ops[0], s).k, ops[1..]);
      script := StepReplay(k, ops[0], s, later);
    } else {
      var s := CanFail(k, ops[0], []);
      var later := UnsafePlan(OutStep(k, ops[0], s).k, ops[1..]);
      script := StepReplay(k, ops[0], s, later);
    }
  }

  /** Whether a sequence of operations conserves the output for all answers of the system is
      decided by the mode, the room and the number of pending characters before it. */
  lemma PlanDecides(k: Sink, ops: seq<OutOp>)
    requires k.Valid()
    ensures (forall script: seq<SendEvent> :: Conserved(k, OutRun(k, ops, script)))
            <==> SafePlan(ShapeOf(k), ops)
  {
    AlwaysConservedIff(k, ops);
    if SafePlan(ShapeOf(k), ops) {
      forall script: seq<SendEvent>
        ensures Guarded(k, ops, script)
      {
        PlanGuards(k, ops, script);
      }
    } else {
      var script := UnsafePlan(k, ops);
    }
  }

  // ----- It happens -----

  const FRESH := Sink(true, 0, "", "", NoError, 0)

  /** The flush of two characters is cut off after one, and the next flush goes through. */
  lemma CutOffThenFlushed(script: seq<SendEvent>)
    requires script == CutOff(0) + [SendEvent(0, 2, NoError, 0, NoError)]
    ensures var ab := FRESH.(pending := "ab");
            var cut := FlushStep(ab, Eof, script);
            && cut.k == ab.(wire := "a", ec := Other(1)) && cut.rest == script[2..] && !cut.waiting
            && FlushStep(cut.k, Eof, cut.rest).k == FRESH.(wire := "aab")
            && !FlushStep(cut.k, Eof, cut.rest).waiting
  {
    var last := [SendEvent(0, 2, NoError, 0, NoError)];
    CutOffSendsOne(2, 0, NoError);
    assert CutOff(0) + [] == CutOff(0) && script[2..] == last;
    SendReplay(2, 0, NoError, CutOff(0), [], last);
    assert SendNext(2, 0, last) == SendResult(0, Completed, NoError, []) by { assert last[1..] == []; }
    assert SendAll(2, 0, Other(1), last) == SendResult(2, Completed, NoError, []);
  }

  lemma RunFrom(k: Sink, op: OutOp, more: seq<OutOp>, script: seq<SendEvent>)
    requires k.Valid() && !OutStep(k, op, script).waiting
    ensures var first := OutStep(k, op, script);
            var rest := OutRun(first.k, more, first.rest);
            OutRun(k, [op] + more, script)
            == OutEffect(rest.k, rest.waiting, first.accepted + rest.accepted, first.sent + rest.sent, rest.rest)
  {
    assert ([op] + more)[1..] == more;
  }

  /** Two characters are put, the flush is cut off after one and the next flush goes
      through: the wire has that one twice. */
  lemma ResendReached()
    ensures var script := CutOff(0) + [SendEvent(0, 2, NoError, 0, NoError)];
            var e := OutRun(FRESH, [Put('a'), Put('b'), Flush(Eof), Flush(Eof)], script);
            && !e.waiting && e.accepted == "ab"
            && e.k.wire == "aab" && e.k.pending == ""
            && !Conserved(FRESH, e)
  {
    var script := CutOff(0) + [SendEvent(0, 2, NoError, 0, NoError)];
    var a, ab := FRESH.(pending := "a"), FRESH.(pending := "ab");
    CutOffThenFlushed(script);
    assert [Put('a'), Put('b'), Flush(Eof), Flush(Eof)]
           == [Put('a')] + ([Put('b')] + ([Flush(Eof)] + ([Flush(Eof)] + [])));
    RunFrom(FRESH, Put('a'), [Put('b')] + ([Flush(Eof)] + ([Flush(Eof)] + [])), script);
    assert OutStep(FRESH, Put('a'), script).k == a;
    RunFrom(a, Put('b'), [Flush(Eof)] + ([Flush(Eof)] + []), script);
    assert OutStep(a, Put('b'), script).k == ab;
    RunFrom(ab, Flush(Eof), [Flush(Eof)] + [], script);
    var cut := OutStep(ab, Flush(Eof), script);
    RunFrom(cut.k, Flush(Eof), [], cut.rest);
  }

  /** A character is put and the stream closed while the connection is broken: the close
      reports success and the character is nowhere. */
  lemma LossReached()
    ensures var k := OutRun(FRESH, [Put('a')], []).k;
            var r := Close(k, [SendEvent(0, 0, Other(1), 0, NoError)], NoError);
            && OutRun(FRESH, [Put('a')], []).accepted == "a"
            && r.status.Completed? && r.ret.Char? && r.k.ec.NoError?
            && r.k.wire == "" && r.k.pending == ""
  {
    var k := FRESH.(pending := "a");
    assert OutStep(FRESH, Put('a'), []).k == k;
    assert [Put('a')][1..] == [];
    assert OutRun(k, [], []).k == k;
    var broken := [SendEvent(0, 0, Other(1), 0, NoError)];
    assert SendAll(1, 0, NoError, broken) == SendResult(0, Failed, Other(1), []);
  }
}
