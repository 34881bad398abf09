/**
 The two directions of the socket stream buffer of asio/basic_socket_streambuf.hpp, as
 values: a `Sink` for output and a `Source` for input. The class in SocketStreambuf.dfy
 is proved against the functions below.

 The operating system and the clock are a script: one event per pass of a retry loop,
 with the time read at its start and what the calls of that pass answered. A script may
 end while a call is still retrying; that call is then `Waiting`, it has not returned.
 Since scripts are arbitrary, what holds for all of them holds at every point of every
 execution, whether or not the loop ever ends.
 */
module SocketSpec {
  import opened Common

  const BUFFER_SIZE := 512
  const PUTBACK_MAX := 8

  datatype ErrorCode =
    | NoError | WouldBlock | TryAgain | InProgress
    | TimedOut | EndOfFile | NotFound | Other(code: int)

  predicate Retry(ec: ErrorCode) { ec.WouldBlock? || ec.TryAgain? }

  function NotEof(c: IntType): IntType { if c.Eof? then Char('\0') else c }

  datatype Status = Completed | Failed | Waiting

  // ----- Output -----

  /** `send` takes up to `accepts` characters; at 0 it fails with `ec`, and if the loop
      waits, `poll_write` answers `poll` and leaves `pollEc`. */
  datatype SendEvent = SendEvent(now: int, accepts: nat, ec: ErrorCode, poll: int, pollEc: ErrorCode)

  /** `start` is the offset of pbase, `pending` the characters [pbase, pptr), and `wire`
      all that the kernel has taken. */
  datatype Sink = Sink(buffered: bool, start: nat, pending: string,
                       wire: string, ec: ErrorCode, deadline: int)
  {
    ghost predicate Valid() {
      if buffered then start + |pending| <= BUFFER_SIZE else start == 0 && pending == ""
    }

    /** epptr - pptr */
    function Room(): nat
      requires Valid()
    {
      if buffered then BUFFER_SIZE - start - |pending| else 0
    }
  }

  datatype SendResult = SendResult(sent: nat, status: Status, ec: ErrorCode, rest: seq<SendEvent>)

  /** A pass whose answers lead to another pass. */
  predicate SendGoesOn(e: SendEvent, deadline: int) {
    e.now <= deadline && (e.accepts > 0 || (Retry(e.ec) && e.poll >= 0))
  }

  /** The error of a pass that ends the loop. */
  function SendError(e: SendEvent, deadline: int): ErrorCode {
    if deadline < e.now then TimedOut else if Retry(e.ec) then e.pollEc else e.ec
  }

  /** The loop that sends n characters. */
  function SendAll(n: nat, deadline: int, ec: ErrorCode, script: seq<SendEvent>): (r: SendResult)
    ensures r.sent <= n
    ensures r.status.Completed? <==> r.sent == n
    ensures |r.rest| <= |script| && (n > 0 && script != [] ==> |r.rest| < |script|)
    decreases |script|, 1
  {
    if n == 0 then SendResult(0, Completed, ec, script)
    else if script == [] then SendResult(0, Waiting, ec, [])
    else if !SendGoesOn(script[0], deadline) then
      SendResult(0, Failed, SendError(script[0], deadline), script[1..])
    else
      var r := SendNext(n, deadline, script);
      r.(sent := r.sent + Min(script[0].accepts, n))
  }

  /** The rest of the loop after a pass that goes on. */
  function SendNext(n: nat, deadline: int, script: seq<SendEvent>): (r: SendResult)
    requires script != []
    ensures r.sent <= n - Min(script[0].accepts, n)
    ensures r.status.Completed? <==> r.sent == n - Min(script[0].accepts, n)
    ensures |r.rest| < |script|
    decreases |script|, 0
  {
    var e := script[0];
    SendAll(n - Min(e.accepts, n), deadline, if e.accepts > 0 then NoError else e.pollEc, script[1..])
  }

  /** A pass in time that sends something, and one that waits until it can. */
  predicate PassSends(e: SendEvent, deadline: int) { e.now <= deadline && e.accepts > 0 }

  predicate PassWaits(e: SendEvent, deadline: int) {
    e.now <= deadline && e.accepts == 0 && (e.ec == WouldBlock || e.ec == TryAgain) && e.poll >= 0
  }

  /** Why a pass fails, and the error code that reports it. */
  predicate SendFailsWith(e: SendEvent, deadline: int, ec: ErrorCode) {
    || (deadline < e.now && ec == TimedOut)
    || (e.now <= deadline && e.accepts == 0 && e.ec != WouldBlock && e.ec != TryAgain && ec == e.ec)
    || (e.now <= deadline && e.accepts == 0 && (e.ec == WouldBlock || e.ec == TryAgain) && e.poll < 0
        && ec == e.pollEc)
  }

  lemma {:induction false} SendSuffix(n: nat, deadline: int, ec: ErrorCode, script: seq<SendEvent>)
    ensures var r := SendAll(n, deadline, ec, script); r.rest == script[|script| - |r.rest|..]
    decreases |script|
  {
    if n > 0 && script != [] && SendGoesOn(script[0], deadline) {
      var e := script[0];
      SendSuffix(n - Min(e.accepts, n), deadline, if e.accepts > 0 then NoError else e.pollEc, script[1..]);
      var r := SendNext(n, deadline, script);
      assert script[1..][|script| - 1 - |r.rest|..] == script[|script| - |r.rest|..];
    }
  }

  /** The passes a call has used: all but the last of a failed one went on. */
  ghost predicate PassesGoOn(script: seq<SendEvent>, passes: int, deadline: int)
    requires passes <= |script|
  {
    forall i :: 0 <= i < passes ==> PassSends(script[i], deadline) || PassWaits(script[i], deadline)
  }

  lemma OneMorePass(script: seq<SendEvent>, passes: nat, deadline: int)
    requires 0 < passes <= |script| && SendGoesOn(script[0], deadline)
    requires PassesGoOn(script[1..], passes - 1, deadline)
    ensures PassesGoOn(script, passes, deadline)
  {
    forall i | 0 <= i < passes
      ensures PassSends(script[i], deadline) || PassWaits(script[i], deadline)
    {
      if i > 0 { assert script[i] == script[1..][i - 1]; }
    }
  }

  /** The loop goes on through its passes in time order until it has sent everything, a pass
      fails, or the script ends; a failure is always that of the last pass, with its error,
      and the expiry time is respected in every pass before. */
  lemma {:induction false} SendOutcome(n: nat, deadline: int, ec: ErrorCode, script: seq<SendEvent>)
    ensures var r := SendAll(n, deadline, ec, script);
            var used := |script| - |r.rest|;
            && r.rest == script[used..]
            && PassesGoOn(script, used - (if r.status.Failed? then 1 else 0), deadline)
            && (r.status.Failed? ==> used > 0 && SendFailsWith(script[used - 1], deadline, r.ec))
            && (r.status.Waiting? ==> r.rest == [])
            && (n == 0 ==> used == 0)
    decreases |script|
  {
    SendSuffix(n, deadline, ec, script);
    if n > 0 && script != [] && SendGoesOn(script[0], deadline) {
      var e := script[0];
      SendOutcome(n - Min(e.accepts, n), deadline, if e.accepts > 0 then NoError else e.pollEc, script[1..]);
      var r := SendNext(n, deadline, script);
      var passes := |script| - |r.rest| - (if r.status.Failed? then 1 else 0);
      if passes > 0 { OneMorePass(script, passes, deadline); }
    }
  }

  /** What the passes of a script would take. */
  function Accepts(script: seq<SendEvent>): nat {
    if script == [] then 0 else script[0].accepts + Accepts(script[1..])
  }

  /** The loop sends what its passes take, until that is everything; the pass that takes the
      last of it is the last one. */
  lemma {:induction false} SendTotal(n: nat, deadline: int, ec: ErrorCode, script: seq<SendEvent>)
    ensures var r := SendAll(n, deadline, ec, script);
            var used := |script| - |r.rest|;
            var passes := used - (if r.status.Failed? then 1 else 0);
            && 0 <= passes
            && r.sent == Min(n, Accepts(script[..passes]))
            && (r.status.Completed? && used > 0 ==> Accepts(script[..used - 1]) < n)
    decreases |script|
  {
    if n > 0 && script != [] && SendGoesOn(script[0], deadline) {
      var e, more := script[0], script[1..];
      var m, next := n - Min(e.accepts, n), if e.accepts > 0 then NoError else e.pollEc;
      SendTotal(m, deadline, next, more);
      var r := SendAll(m, deadline, next, more);
      var used := |more| - |r.rest|;
      SplitAccepts(script, used + 1 - (if r.status.Failed? then 1 else 0));
      if used > 0 { SplitAccepts(script, used); }
    }
  }

  /** The error code is clear after a pass that sends, and the one that poll_write left after a
      pass that waits; without a pass it stays. */
  lemma {:induction false} SendCodes(n: nat, deadline: int, ec: ErrorCode, script: seq<SendEvent>)
    ensures var r := SendAll(n, deadline, ec, script);
            var used := |script| - |r.rest|;
            && used >= 0
            && (used == 0 ==> r.ec == ec)
            && (r.status.Completed? && used > 0 ==> r.ec.NoError?)
            && (r.status.Waiting? && used > 0 ==>
                  r.ec == if script[used - 1].accepts > 0 then NoError else script[used - 1].pollEc)
            && (used == 0 <==> n == 0 || script == [])
    decreases |script|
  {
    if n > 0 && script != [] && SendGoesOn(script[0], deadline) {
      var e := script[0];
      SendCodes(n - Min(e.accepts, n), deadline, if e.accepts > 0 then NoError else e.pollEc, script[1..]);
    }
  }

  lemma SplitAccepts(script: seq<SendEvent>, k: nat)
    requires 0 < k <= |script|
    ensures Accepts(script[..k]) == script[0].accepts + Accepts(script[1..][..k - 1])
  {
    assert script[..k][1..] == script[1..][..k - 1];
  }

  datatype Call = Call(k: Sink, ret: IntType, status: Status, rest: seq<SendEvent>)

  /** What `overflow(c)` has to send. */
  function Payload(k: Sink, c: IntType): string {
    if k.buffered then k.pending else if c.Eof? then "" else [c.c]
  }

  function Overflow(k: Sink, c: IntType, script: seq<SendEvent>): (r: Call)
    requires k.Valid()
    ensures r.k.Valid()
  {
    if !k.buffered && c.Eof? then Call(k, NotEof(c), Completed, script)
    else
      var r := SendAll(|Payload(k, c)|, k.deadline, k.ec, script);
      var t := k.(wire := k.wire + Payload(k, c)[..r.sent], ec := r.ec);
      if !r.status.Completed? then Call(t, Eof, r.status, r.rest)
      else if !k.buffered then Call(t, c, Completed, r.rest)
      else Call(t.(start := 0, pending := if c.Eof? then "" else [c.c]), NotEof(c), Completed, r.rest)
  }

  /** `std::streambuf::sputc`. */
  function Sputc(k: Sink, c: char, script: seq<SendEvent>): (r: Call)
    requires k.Valid()
    ensures r.k.Valid()
  {
    if k.Room() > 0 then Call(k.(pending := k.pending + [c]), Char(c), Completed, script)
    else Overflow(k, Char(c), script)
  }

  /** `setbuf(s, n)`; `unbuffer` says that s and n are both 0. Nothing else is supported. */
  function Setbuf(k: Sink, unbuffer: bool): (r: (Sink, bool))
    requires k.Valid()
    ensures r.0.Valid()
  {
    if k.pending == "" && unbuffer then (k.(buffered := false, start := 0), true) else (k, false)
  }

  /** A successful overflow has sent the whole payload and, in buffered mode, starts again
      at the front of the buffer: pbase is 0 and all 512 characters are usable. */
  lemma SuccessfulOverflow(k: Sink, c: IntType, script: seq<SendEvent>)
    requires k.Valid() && Overflow(k, c, script).status.Completed?
    ensures Overflow(k, c, script).ret.Char? && (c.Char? ==> Overflow(k, c, script).ret == c)
    ensures var t := Overflow(k, c, script).k;
            && t.wire + t.pending == k.wire + k.pending + (if c.Eof? then "" else [c.c])
            && (k.buffered ==> t.wire == k.wire + k.pending && t.start == 0
                               && t.Room() + |t.pending| == BUFFER_SIZE)
  {
    var r := SendAll(|Payload(k, c)|, k.deadline, k.ec, script);
    assert Payload(k, c)[..|Payload(k, c)|] == Payload(k, c);
  }

  /** The value returned tells success from failure: eof is returned exactly when not everything
      was sent, and otherwise c itself, or some character if c is eof. */
  lemma OverflowReturns(k: Sink, c: IntType, script: seq<SendEvent>)
    requires k.Valid()
    ensures var r := Overflow(k, c, script);
            && (r.status.Completed? <==> r.ret.Char?)
            && (r.status.Completed? && c.Char? ==> r.ret == c)
  {
  }

  /** An overflow reads its answers in order. It leaves the error of the pass that failed, and
      no error once something was sent; without anything to send it reads none and leaves the
      error code as it was. The mode and the expiry time stay. */
  lemma OverflowOutcome(k: Sink, c: IntType, script: seq<SendEvent>)
    requires k.Valid()
    ensures var r := Overflow(k, c, script);
            var used := |script| - |r.rest|;
            && 0 <= used && r.rest == script[used..]
            && r.k.buffered == k.buffered && r.k.deadline == k.deadline
            && (r.status.Failed? ==> used > 0 && SendFailsWith(script[used - 1], k.deadline, r.k.ec))
            && (r.status.Completed? ==> r.k.ec == if used > 0 then NoError else k.ec)
            && (used == 0 <==> script == [] || (if k.buffered then k.pending == "" else c.Eof?))
  {
    SendOutcome(|Payload(k, c)|, k.deadline, k.ec, script);
    SendCodes(|Payload(k, c)|, k.deadline, k.ec, script);
  }

  /** `sputc` into a put area with room stores the character and sends nothing. Otherwise it is
      told from its value whether the character was accepted. */
  lemma SputcMeaning(k: Sink, c: char, script: seq<SendEvent>)
    requires k.Valid()
    ensures var r := Sputc(k, c, script);
            && (r.ret == if r.status.Completed? then Char(c) else Eof)
            && (k.buffered && k.start + |k.pending| < 512 ==>
                  r == Call(k.(pending := k.pending + [c]), Char(c), Completed, script))
            && (!k.buffered || k.start + |k.pending| == 512 ==> r == Overflow(k, Char(c), script))
            && (r.status.Completed? ==> r.k.wire + r.k.pending == k.wire + k.pending + [c])
  {
    if k.Room() > 0 {
      Regroup(k.wire, k.pending, [c]);
    } else {
      OverflowReturns(k, Char(c), script);
      if Overflow(k, Char(c), script).status.Completed? { SuccessfulOverflow(k, Char(c), script); }
    }
  }

  lemma Regroup(a: string, b: string, c: string)
    ensures (a + b) + c == a + (b + c)
  {
  }

  /** `setbuf` succeeds exactly when it is asked to unbuffer and nothing is pending, and then
      every character goes out at once; otherwise it changes nothing. */
  lemma SetbufMeaning(k: Sink, unbuffer: bool)
    requires k.Valid()
    ensures var (t, ok) := Setbuf(k, unbuffer);
            && (ok <==> unbuffer && k.pending == "")
            && (ok ==> !t.buffered && t.Room() == 0 && (t.wire, t.ec, t.deadline) == (k.wire, k.ec, k.deadline))
            && (!ok ==> t == k)
  {
  }

  /** The wire has grown from `before` by a proper prefix of `pending`. */
  ghost predicate GrewByProperPrefix(before: string, after: string, pending: string) {
    && |before| <= |after| < |before| + |pending|
    && after == before + pending[..|after| - |before|]
  }

  /** An overflow that fails, or is still retrying, has sent a proper prefix of what was
      pending and left the put area alone; without a buffer it has sent nothing. */
  lemma UnsuccessfulOverflow(k: Sink, c: IntType, script: seq<SendEvent>)
    requires k.Valid() && !Overflow(k, c, script).status.Completed?
    ensures var t := Overflow(k, c, script).k;
            && t == k.(wire := t.wire, ec := t.ec)
            && (if k.buffered then GrewByProperPrefix(k.wire, t.wire, k.pending) else t.wire == k.wire)
  {
    var r := SendAll(|Payload(k, c)|, k.deadline, k.ec, script);
    var t := Overflow(k, c, script).k;
    assert t.wire == k.wire + Payload(k, c)[..r.sent];
    if !k.buffered {
      assert r.sent == 0;
    }
  }

  /** The guard a caller can check before anything that flushes. */
  predicate FlushSafe(k: Sink) { !k.buffered || |k.pending| <= 1 }

  /** Answers that send one character of a flush and then fail. */
  function CutOff(deadline: int): seq<SendEvent> {
    [SendEvent(deadline, 1, NoError, 0, NoError), SendEvent(deadline, 0, Other(1), 0, NoError)]
  }

  lemma CutOffSendsOne(n: nat, deadline: int, ec: ErrorCode)
    requires n > 1
    ensures SendAll(n, deadline, ec, CutOff(deadline)) == SendResult(1, Failed, Other(1), [])
  {
    assert CutOff(deadline)[1..] == [CutOff(deadline)[1]];
    assert SendAll(n - 1, deadline, NoError, [CutOff(deadline)[1]]) == SendResult(0, Failed, Other(1), []);
  }

  /** A failing flush leaves wire followed by pending alone, whatever the system answers,
      exactly when the guard holds before the call. */
  lemma FlushSafeIff(k: Sink)
    requires k.Valid()
    ensures (forall c: IntType, script: seq<SendEvent> :: !Overflow(k, c, script).status.Completed? ==>
               Overflow(k, c, script).k.wire + Overflow(k, c, script).k.pending == k.wire + k.pending)
            <==> FlushSafe(k)
  {
    if FlushSafe(k) {
      forall c: IntType, script: seq<SendEvent> | !Overflow(k, c, script).status.Completed?
        ensures Overflow(k, c, script).k.wire + Overflow(k, c, script).k.pending == k.wire + k.pending
      {
        UnsuccessfulOverflow(k, c, script);
        assert k.wire + "" == k.wire;
      }
    } else {
      CutOffSendsOne(|k.pending|, k.deadline, k.ec);
      var t := Overflow(k, Eof, CutOff(k.deadline));
      assert !t.status.Completed? && |t.k.wire| == |k.wire| + 1;
      assert |t.k.wire + t.k.pending| > |k.wire + k.pending|;
    }
  }

  /** The prefix that a failed flush sent is sent a second time by the next flush that succeeds. */
  lemma FailedThenFlushed(k: Sink, c: IntType, s1: seq<SendEvent>, s2: seq<SendEvent>)
    requires k.Valid() && Overflow(k, c, s1).status.Failed?
    requires Overflow(Overflow(k, c, s1).k, Eof, s2).status.Completed?
    ensures var t := Overflow(k, c, s1).k;
            Overflow(t, Eof, s2).k.wire == t.wire + k.pending
  {
    UnsuccessfulOverflow(k, c, s1);
    SuccessfulOverflow(Overflow(k, c, s1).k, Eof, s2);
  }

  /** An overflow that is still retrying when the expiry time has passed fails in its next
      pass, without another system call, and with timed_out. */
  lemma OverflowExpires(k: Sink, c: IntType, passes: seq<SendEvent>, late: SendEvent, more: seq<SendEvent>)
    requires k.Valid() && Overflow(k, c, passes).status.Waiting? && k.deadline < late.now
    ensures var t := Overflow(k, c, passes).k;
            Overflow(k, c, passes + ([late] + more)) == Call(t.(ec := TimedOut), Eof, Failed, more)
  {
    SendExpires(|Payload(k, c)|, k.deadline, k.ec, passes, late, more);
  }

  lemma {:induction false} SendExpires(n: nat, deadline: int, ec: ErrorCode, passes: seq<SendEvent>,
                                       late: SendEvent, more: seq<SendEvent>)
    requires SendAll(n, deadline, ec, passes).status.Waiting? && deadline < late.now
    ensures SendAll(n, deadline, ec, passes + ([late] + more))
            == SendResult(SendAll(n, deadline, ec, passes).sent, Failed, TimedOut, more)
    decreases |passes|
  {
    var script := passes + ([late] + more);
    if passes == [] {
      assert script == [late] + more && script[1..] == more;
    } else {
      var e := passes[0];
      assert script[0] == e && script[1..] == passes[1..] + ([late] + more);
      SendExpires(n - Min(e.accepts, n), deadline, if e.accepts > 0 then NoError else e.pollEc,
                  passes[1..], late, more);
    }
  }

  // ----- Input -----

  /** `recv` delivers `data`, cut to the space offered; without data it reports an orderly
      shutdown if `closed`, and otherwise fails with `ec`. */
  datatype RecvEvent = RecvEvent(now: int, data: string, closed: bool, ec: ErrorCode,
                                 poll: int, pollEc: ErrorCode)

  /** `start` is the offset of gptr, `unread` the characters [gptr, egptr), and `received`
      all that the kernel has delivered. */
  datatype Source = Source(start: nat, unread: string, received: string, ec: ErrorCode, deadline: int)
  {
    ghost predicate Valid() {
      PUTBACK_MAX <= start && start + |unread| <= BUFFER_SIZE
    }
  }

  datatype RecvResult = RecvResult(data: string, status: Status, ec: ErrorCode, rest: seq<RecvEvent>)

  /** The loop that waits for characters: non-empty data exactly on success. */
  function RecvSome(deadline: int, ec: ErrorCode, script: seq<RecvEvent>): (r: RecvResult)
    ensures |r.data| <= BUFFER_SIZE - PUTBACK_MAX
    ensures r.status.Completed? <==> r.data != ""
    decreases |script|
  {
    if script == [] then RecvResult("", Waiting, ec, [])
    else
      var e, rest := script[0], script[1..];
      if deadline < e.now then RecvResult("", Failed, TimedOut, rest)
      else if e.data != "" then
        RecvResult(e.data[..Min(|e.data|, BUFFER_SIZE - PUTBACK_MAX)], Completed, NoError, rest)
      else if e.closed then RecvResult("", Failed, EndOfFile, rest)
      else if !Retry(e.ec) then RecvResult("", Failed, e.ec, rest)
      else if e.poll < 0 then RecvResult("", Failed, e.pollEc, rest)
      else RecvSome(deadline, e.pollEc, rest)
  }

  predicate RecvGoesOn(e: RecvEvent, deadline: int) {
    e.now <= deadline && e.data == "" && !e.closed && (e.ec == WouldBlock || e.ec == TryAgain) && e.poll >= 0
  }

  predicate RecvFailsWith(e: RecvEvent, deadline: int, ec: ErrorCode) {
    || (deadline < e.now && ec == TimedOut)
    || (e.now <= deadline && e.data == "" && e.closed && ec == EndOfFile)
    || (e.now <= deadline && e.data == "" && !e.closed && e.ec != WouldBlock && e.ec != TryAgain && ec == e.ec)
    || (e.now <= deadline && e.data == "" && !e.closed && (e.ec == WouldBlock || e.ec == TryAgain) && e.poll < 0
        && ec == e.pollEc)
  }

  /** Every pass but the last only waits, so no data can be lost in it. The last one
      delivers its data, up to the 504 characters offered, or fails with its own error. */
  lemma {:induction false} RecvOutcome(deadline: int, ec: ErrorCode, script: seq<RecvEvent>)
    ensures var r := RecvSome(deadline, ec, script);
            var used := |script| - |r.rest|;
            && 0 <= used && r.rest == script[used..]
            && (forall i :: 0 <= i < used - (if r.status.Waiting? then 0 else 1) ==> RecvGoesOn(script[i], deadline))
            && (r.status.Failed? ==> used > 0 && RecvFailsWith(script[used - 1], deadline, r.ec))
            && (r.status.Completed? ==>
                  && used > 0 && script[used - 1].now <= deadline && r.ec.NoError?
                  && r.data <= script[used - 1].data
                  && |r.data| == Min(|script[used - 1].data|, 504))
            && (r.status.Waiting? ==> r.rest == [])
    decreases |script|
  {
    if script != [] && RecvGoesOn(script[0], deadline) {
      var rest := script[1..];
      RecvOutcome(deadline, script[0].pollEc, rest);
      var r := RecvSome(deadline, script[0].pollEc, rest);
      assert rest[|rest| - |r.rest|..] == script[|script| - |r.rest|..];
      forall i | 0 <= i < |script| - |r.rest| - (if r.status.Waiting? then 0 else 1)
        ensures RecvGoesOn(script[i], deadline)
      {
        if i > 0 { assert script[i] == rest[i - 1]; }
      }
    }
  }

  datatype Fetch = Fetch(s: Source, ret: IntType, status: Status, rest: seq<RecvEvent>)

  function Underflow(s: Source, script: seq<RecvEvent>): (r: Fetch)
    requires s.Valid()
    ensures r.s.Valid()
  {
    if s.unread != "" then Fetch(s, Eof, Failed, script)
    else
      var r := RecvSome(s.deadline, s.ec, script);
      if r.status.Completed? then
        Fetch(s.(start := PUTBACK_MAX, unread := r.data, received := s.received + r.data, ec := r.ec),
              Char(r.data[0]), Completed, r.rest)
      else Fetch(s.(ec := r.ec), Eof, r.status, r.rest)
  }

  /** A refill leaves the error of the pass that failed, and none when characters came. With
      unread characters there is no refill: it fails and touches nothing. */
  lemma UnderflowOutcome(s: Source, script: seq<RecvEvent>)
    requires s.Valid()
    ensures var r := Underflow(s, script);
            var used := |script| - |r.rest|;
            && (r.status.Completed? <==> r.ret.Char?)
            && 0 <= used && r.rest == script[used..]
            && r.s.deadline == s.deadline
            && (s.unread != "" ==> r == Fetch(s, Eof, Failed, script))
            && (s.unread == "" && r.status.Failed? ==> used > 0 && RecvFailsWith(script[used - 1], s.deadline, r.s.ec))
            && (r.status.Completed? ==> used > 0 && r.s.ec.NoError? && r.s.unread <= script[used - 1].data)
  {
    RecvOutcome(s.deadline, s.ec, script);
  }

  /** `sbumpc` takes what `sgetc` shows: the first unread character, refilling only when there
      is none. */
  lemma SbumpcMeaning(s: Source, script: seq<RecvEvent>)
    requires s.Valid()
    ensures var shown, r := Sgetc(s, script), Sbumpc(s, script);
            && (r.ret, r.status, r.rest) == (shown.ret, shown.status, shown.rest)
            && (s.unread != "" ==> shown == Fetch(s, Char(s.unread[0]), Completed, script))
            && (s.unread == "" ==> shown == Underflow(s, script))
            && (r.ret.Eof? ==> r.s == shown.s)
            && (r.ret.Char? ==>
                  && shown.s.unread == [r.ret.c] + r.s.unread
                  && r.s == shown.s.(start := r.s.start, unread := r.s.unread))
  {
    if Sgetc(s, script).s.unread != "" {
      var u := Sgetc(s, script).s.unread;
      assert u == [u[0]] + u[1..];
    }
  }

  /** A refill that is still retrying when the expiry time has passed fails in the same way. */
  lemma UnderflowExpires(s: Source, passes: seq<RecvEvent>, late: RecvEvent, more: seq<RecvEvent>)
    requires s.Valid() && Underflow(s, passes).status.Waiting? && s.deadline < late.now
    ensures Underflow(s, passes + ([late] + more)) == Fetch(s.(ec := TimedOut), Eof, Failed, more)
  {
    RecvExpires(s.deadline, s.ec, passes, late, more);
  }

  lemma {:induction false} RecvExpires(deadline: int, ec: ErrorCode, passes: seq<RecvEvent>,
                                       late: RecvEvent, more: seq<RecvEvent>)
    requires RecvSome(deadline, ec, passes).status.Waiting? && deadline < late.now
    ensures RecvSome(deadline, ec, passes + ([late] + more)) == RecvResult("", Failed, TimedOut, more)
    decreases |passes|
  {
    var script := passes + ([late] + more);
    if passes == [] {
      assert script == [late] + more && script[1..] == more;
    } else {
      assert script[0] == passes[0] && script[1..] == passes[1..] + ([late] + more);
      RecvExpires(deadline, passes[0].pollEc, passes[1..], late, more);
    }
  }

  /** `std::streambuf::sgetc` and `sbumpc`. */
  function Sgetc(s: Source, script: seq<RecvEvent>): (r: Fetch)
    requires s.Valid()
    ensures r.s.Valid()
    ensures r.status.Completed? <==> r.ret.Char?
    ensures r.ret.Char? ==> r.s.unread != "" && r.ret.c == r.s.unread[0]
  {
    if s.unread != "" then Fetch(s, Char(s.unread[0]), Completed, script) else Underflow(s, script)
  }

  function Sbumpc(s: Source, script: seq<RecvEvent>): (r: Fetch)
    requires s.Valid()
    ensures r.s.Valid()
  {
    var r := Sgetc(s, script);
    if r.ret.Eof? then r else r.(s := r.s.(start := r.s.start + 1, unread := r.s.unread[1..]))
  }

  // ----- Moves and closing -----

  /** The put area the target of a move takes over: pbase becomes the old pptr. */
  function MovedSink(k: Sink): (t: Sink)
    requires k.Valid()
    ensures t.Valid()
  {
    k.(start := k.start + |k.pending|, pending := "")
  }

  /** A stream buffer as `init_buffers` leaves it, still in its buffering mode. */
  function ResetSink(k: Sink): (t: Sink)
    ensures t.Valid()
  {
    k.(start := 0, pending := "")
  }

  function ResetSource(s: Source): (t: Source)
    ensures t.Valid()
  {
    s.(start := PUTBACK_MAX, unread := "")
  }

  /** A move keeps wire followed by pending exactly when nothing was pending. */
  lemma MoveConservesIff(k: Sink)
    requires k.Valid()
    ensures MovedSink(k).wire + MovedSink(k).pending == k.wire + k.pending <==> k.pending == ""
    ensures MovedSink(k).buffered == k.buffered && MovedSink(k).Room() == k.Room()
    ensures MovedSink(k).pending == ""
    ensures var t := MovedSink(k); (t.wire, t.ec, t.deadline) == (k.wire, k.ec, k.deadline)
  {
    assert |k.wire + k.pending| == |k.wire| + |k.pending|;
    assert k.wire + "" == k.wire;
  }

  /** `init_buffers` leaves the whole of both buffers free, and everything else as it was. */
  lemma ResetMeaning(k: Sink, s: Source)
    requires k.Valid() && s.Valid()
    ensures var t := ResetSink(k);
            && t.pending == "" && t.buffered == k.buffered && t.Room() == (if k.buffered then 512 else 0)
            && (t.wire, t.ec, t.deadline) == (k.wire, k.ec, k.deadline)
    ensures ResetSource(s) == s.(start := 8, unread := "")
  {
  }

  /** The target of a move has only the room the source had left, until it flushes once. */
  lemma MovedThenFlushed(k: Sink, c: IntType, script: seq<SendEvent>)
    requires k.Valid() && k.buffered
    requires Overflow(MovedSink(k), c, script).status.Completed?
    ensures var t := Overflow(MovedSink(k), c, script).k;
            t.wire == k.wire && t.start == 0 && t.Room() + |t.pending| == BUFFER_SIZE
  {
    SuccessfulOverflow(MovedSink(k), c, script);
  }

  /** `close`: the flush, then `socket.close(ec)` answering closeEc, then a reset unless
      that failed. The error of a failed flush is overwritten. */
  function Close(k: Sink, script: seq<SendEvent>, closeEc: ErrorCode): (r: Call)
    requires k.Valid()
    ensures r.k.Valid()
  {
    var r := Overflow(k, Eof, script);
    if r.status.Waiting? then r
    else
      var t := r.k.(ec := closeEc);
      Call(if closeEc.NoError? then ResetSink(t) else t,
           if closeEc.NoError? then Char('\0') else Eof, Completed, r.rest)
  }

  /** `close` reports the error of closing the socket, and success exactly if there was none;
      then both areas are free again. If closing failed, what the flush left is still there. */
  lemma CloseOutcome(k: Sink, script: seq<SendEvent>, closeEc: ErrorCode)
    requires k.Valid()
    ensures var flushed, r := Overflow(k, Eof, script), Close(k, script, closeEc);
            && (r.status, r.rest) == (if flushed.status.Waiting? then Waiting else Completed, flushed.rest)
            && (r.ret.Char? <==> r.status.Completed? && closeEc == NoError)
            && (r.status.Completed? ==> r.k.ec == closeEc)
            && (r.ret.Char? ==> r.k.pending == "" && r.k.Room() == (if k.buffered then 512 else 0))
            && (r.status.Completed? && r.ret.Eof? ==> r.k == flushed.k.(ec := closeEc))
            && (r.status.Waiting? ==> r.k == flushed.k && r.ret == Eof)
  {
    OverflowReturns(k, Eof, script);
    OverflowOutcome(k, Eof, script);
  }

  /** Success of `close` says nothing about the flush: when it reports success the pending
      output has reached the wire exactly if the flush succeeded, and is gone either way. */
  lemma CloseLosesIff(k: Sink, script: seq<SendEvent>)
    requires k.Valid() && !Overflow(k, Eof, script).status.Waiting?
    ensures var r := Close(k, script, NoError);
            && r.ret.Char? && r.k.pending == "" && r.k.ec.NoError?
            && (r.k.wire == k.wire + k.pending <==> Overflow(k, Eof, script).status.Completed?)
  {
    if Overflow(k, Eof, script).status.Completed? {
      SuccessfulOverflow(k, Eof, script);
      assert k.wire + k.pending + "" == k.wire + k.pending;
      assert Overflow(k, Eof, script).k.pending == "";
      var t := Overflow(k, Eof, script).k;
      assert t.wire + "" == t.wire;
    } else {
      UnsuccessfulOverflow(k, Eof, script);
      var t := Overflow(k, Eof, script).k;
      assert k.buffered;
    }
  }

  /** A close that reports success has sent the pending output, whatever the system answers
      to its flush, exactly when nothing was pending before the call. */
  lemma CloseSafeIff(k: Sink)
    requires k.Valid()
    ensures (forall script: seq<SendEvent> :: Close(k, script, NoError).status.Completed? ==>
               Close(k, script, NoError).k.wire == k.wire + k.pending)
            <==> k.pending == ""
  {
    if k.pending == "" {
      forall script: seq<SendEvent> | Close(k, script, NoError).status.Completed?
        ensures Close(k, script, NoError).k.wire == k.wire + k.pending
      {
        CloseLosesIff(k, script);
      }
    } else {
      var broken := [SendEvent(k.deadline, 0, Other(1), 0, NoError)];
      assert SendAll(|k.pending|, k.deadline, k.ec, broken).status.Failed?;
      CloseLosesIff(k, broken);
    }
  }
}
