/**
 The endpoint-trying loop of asio/basic_socket_streambuf.hpp, `connect_to_endpoints`.
 The environment answers with one event per endpoint.
 */
module ConnectSpec {
  import opened SocketSpec

  /** What the calls made for one endpoint answer: the clock, `open`, `connect`,
      `poll_connect`, the SO_ERROR query, and the error that query reads. `established` is
      the truth that they report on: whether the connection exists when the query answers,
      or already when `connect` does. */
  datatype ConnectEvent = ConnectEvent(
    now: int, openEc: ErrorCode, connectEc: ErrorCode, poll: int, pollEc: ErrorCode,
    queryFails: bool, queryEc: ErrorCode, soError: ErrorCode, established: bool)
  {
    /** A call that fails sets its error code. The system vouches for a connection in two
        ways: `connect` succeeds at once, or the socket becomes ready and SO_ERROR is clear.
        About a socket that is not ready yet, a clear SO_ERROR says nothing. */
    ghost predicate Sound() {
      && (poll < 0 ==> !pollEc.NoError?)
      && (queryFails ==> !queryEc.NoError?)
      && (openEc.NoError? && connectEc.NoError? ==> established)
      && (openEc.NoError? && (connectEc == InProgress || connectEc == WouldBlock) && BecomesReady() ==> established)
    }

    predicate BecomesReady() {
      poll > 0 && !queryFails && soError.NoError?
    }
  }

  ghost predicate AllSound(es: seq<ConnectEvent>) {
    forall i :: 0 <= i < |es| ==> es[i].Sound()
  }

  predicate StillConnecting(ec: ErrorCode) { ec.InProgress? || ec.WouldBlock? }

  /** How one endpoint ends: past the deadline, connected, given up with an error that lets
      the loop go on, or left with an error that ends it. */
  datatype Verdict = Expired | Connected | Refused(ec: ErrorCode) | QueryFailed(ec: ErrorCode)

  function Judge(e: ConnectEvent, deadline: int): Verdict {
    if deadline < e.now then Expired
    else if !e.openEc.NoError? then Refused(e.openEc)
    else if e.connectEc.NoError? then Connected
    else if !StillConnecting(e.connectEc) then Refused(e.connectEc)
    else if e.poll < 0 then Refused(e.pollEc)
    else if e.queryFails then QueryFailed(e.queryEc)
    else if e.soError.NoError? then Connected
    else Refused(e.soError)
  }

  /** The first endpoint the loop does not get past. */
  function StopsAt(es: seq<ConnectEvent>, deadline: int): (i: nat)
    ensures i <= |es|
    ensures forall j :: 0 <= j < i ==> Judge(es[j], deadline).Refused?
    ensures i < |es| ==> !Judge(es[i], deadline).Refused?
  {
    if es == [] || !Judge(es[0], deadline).Refused? then 0
    else 1 + StopsAt(es[1..], deadline)
  }

  /** The error code the loop leaves, and the number of endpoints it attempted: always the
      first so many, once each. */
  datatype Outcome = Outcome(ec: ErrorCode, attempts: nat)

  function ConnectAll(es: seq<ConnectEvent>, deadline: int): (o: Outcome)
    ensures o.attempts <= |es|
  {
    var i := StopsAt(es, deadline);
    if i == |es| then
      Outcome(if i == 0 then NotFound else Judge(es[i - 1], deadline).ec, i)
    else match Judge(es[i], deadline)
      case Expired => Outcome(TimedOut, i)
      case Connected => Outcome(NoError, i + 1)
      case QueryFailed(ec) => Outcome(ec, i + 1)
      case Refused(ec) => assert false; Outcome(ec, i)
  }

  // ----- What the loop makes of the answers -----

  /** The endpoint is tried in time and its connection is left in progress. */
  predicate InFlight(e: ConnectEvent, deadline: int) {
    e.now <= deadline && e.openEc == NoError && (e.connectEc == InProgress || e.connectEc == WouldBlock)
  }

  /** The loop gives this endpoint up with error ec: `open` fails, `connect` fails at once, the
      wait fails, or SO_ERROR tells of an error. */
  predicate GivenUp(e: ConnectEvent, deadline: int, ec: ErrorCode) {
    || (e.now <= deadline && e.openEc != NoError && ec == e.openEc)
    || (e.now <= deadline && e.openEc == NoError
        && e.connectEc != NoError && e.connectEc != InProgress && e.connectEc != WouldBlock && ec == e.connectEc)
    || (InFlight(e, deadline) && e.poll < 0 && ec == e.pollEc)
    || (InFlight(e, deadline) && e.poll >= 0 && !e.queryFails && e.soError != NoError && ec == e.soError)
  }

  ghost predicate Refuses(e: ConnectEvent, deadline: int) { exists ec :: GivenUp(e, deadline, ec) }

  lemma RefusesIff(e: ConnectEvent, deadline: int)
    ensures Refuses(e, deadline) <==> Judge(e, deadline).Refused?
    ensures forall ec :: GivenUp(e, deadline, ec) <==> Judge(e, deadline) == Refused(ec)
  {
    if Judge(e, deadline).Refused? {
      assert GivenUp(e, deadline, Judge(e, deadline).ec);
    }
  }

  /** `connect` succeeds at once, or SO_ERROR is clear after the wait. */
  predicate Succeeds(e: ConnectEvent, deadline: int) {
    || (e.now <= deadline && e.openEc == NoError && e.connectEc == NoError)
    || (InFlight(e, deadline) && e.poll >= 0 && !e.queryFails && e.soError == NoError)
  }

  predicate CannotTell(e: ConnectEvent, deadline: int, ec: ErrorCode) {
    InFlight(e, deadline) && e.poll >= 0 && e.queryFails && ec == e.queryEc
  }

  /** The endpoints that `codes` lists the errors of are given up, from the first one on. */
  ghost predicate AllGivenUp(es: seq<ConnectEvent>, deadline: int, codes: seq<ErrorCode>) {
    |codes| <= |es| && forall j :: 0 <= j < |codes| ==> GivenUp(es[j], deadline, codes[j])
  }

  /** How the loop ends after the endpoints given up at the front: the first late endpoint, the
      first that succeeds and the first whose SO_ERROR cannot be read each end it there; and
      if there is none, the error of the last endpoint is left. */
  ghost predicate EndsWith(es: seq<ConnectEvent>, deadline: int, codes: seq<ErrorCode>, o: Outcome)
    requires AllGivenUp(es, deadline, codes)
  {
    var n := |codes|;
    && (n == |es| ==> o == Outcome(if n == 0 then NotFound else codes[n - 1], n))
    && (n < |es| && deadline < es[n].now ==> o == Outcome(TimedOut, n))
    && (n < |es| && Succeeds(es[n], deadline) ==> o == Outcome(NoError, n + 1))
    && (n < |es| && CannotTell(es[n], deadline, es[n].queryEc) ==> o == Outcome(es[n].queryEc, n + 1))
  }

  lemma ConnectOutcome(es: seq<ConnectEvent>, deadline: int, codes: seq<ErrorCode>)
    requires AllGivenUp(es, deadline, codes)
    ensures EndsWith(es, deadline, codes, ConnectAll(es, deadline))
  {
    var stop := StopsAt(es, deadline);
    assert forall j :: 0 <= j < |codes| ==> Judge(es[j], deadline) == Refused(codes[j]);
    assert stop >= |codes|;
  }

  /** There is always such an outcome, and only one: the endpoints given up at the front are
      followed by none, or by one that is not given up. */
  lemma {:induction false} GivenUpFirst(es: seq<ConnectEvent>, deadline: int) returns (codes: seq<ErrorCode>)
    ensures AllGivenUp(es, deadline, codes)
    ensures |codes| == StopsAt(es, deadline)
    ensures var n := |codes|;
            n < |es| ==>
              && (deadline < es[n].now || Succeeds(es[n], deadline) || CannotTell(es[n], deadline, es[n].queryEc))
              && !Refuses(es[n], deadline)
  {
    if es == [] || !Judge(es[0], deadline).Refused? {
      codes := [];
    } else {
      var more := GivenUpFirst(es[1..], deadline);
      codes := [Judge(es[0], deadline).ec] + more;
      assert forall j :: 0 < j < |codes| ==> es[j] == es[1..][j - 1] && codes[j] == more[j - 1];
      assert |codes| < |es| ==> es[|codes|] == es[1..][|more|];
    }
  }

  /** Endpoint i succeeds after all before it were given up. */
  ghost predicate FirstConnected(es: seq<ConnectEvent>, deadline: int, i: nat) {
    && i < |es|
    && Succeeds(es[i], deadline)
    && forall j :: 0 <= j < i ==> Refuses(es[j], deadline)
  }

  lemma FirstConnectedStops(es: seq<ConnectEvent>, deadline: int)
    ensures forall i: nat :: FirstConnected(es, deadline, i) <==>
              i < |es| && i == StopsAt(es, deadline) && Judge(es[i], deadline).Connected?
  {
    forall e: ConnectEvent
      ensures Refuses(e, deadline) <==> Judge(e, deadline).Refused?
    {
      RefusesIff(e, deadline);
    }
  }

  lemma RefusalIsAnError(e: ConnectEvent, deadline: int)
    requires e.Sound()
    ensures Judge(e, deadline).Refused? || Judge(e, deadline).QueryFailed?
            ==> !Judge(e, deadline).ec.NoError?
  {
  }

  /** The loop ends without an error exactly when some endpoint succeeds after all before
      it were given up; that one is then the last one attempted. */
  lemma ConnectedIff(es: seq<ConnectEvent>, deadline: int)
    requires AllSound(es)
    ensures ConnectAll(es, deadline).ec.NoError? <==> exists i: nat :: FirstConnected(es, deadline, i)
    ensures forall i: nat :: FirstConnected(es, deadline, i) ==> ConnectAll(es, deadline).attempts == i + 1
  {
    var stop := StopsAt(es, deadline);
    FirstConnectedStops(es, deadline);
    if stop < |es| {
      RefusalIsAnError(es[stop], deadline);
    } else if stop > 0 {
      RefusalIsAnError(es[stop - 1], deadline);
    }
  }

  /** Why the loop failed: no endpoints, the deadline, a failed SO_ERROR query, or the error of
      the last endpoint after every one was given up. */
  lemma FailureCauses(es: seq<ConnectEvent>, deadline: int)
    requires AllSound(es)
    requires !ConnectAll(es, deadline).ec.NoError?
    ensures var o := ConnectAll(es, deadline);
            var n := o.attempts;
            && (forall j :: 0 <= j < n - 1 ==> Refuses(es[j], deadline))
            && (|| (es == [] && o.ec == NotFound)
                || (n < |es| && deadline < es[n].now && o.ec == TimedOut)
                || (0 < n && CannotTell(es[n - 1], deadline, o.ec))
                || (0 < n == |es| && GivenUp(es[n - 1], deadline, o.ec)))
  {
    var codes := GivenUpFirst(es, deadline);
    ConnectOutcome(es, deadline, codes);
    assert forall j :: 0 <= j < |codes| ==> GivenUp(es[j], deadline, codes[j]);
  }

  // ----- Is a reported success a connection? -----

  /** The system calls answer the same in both; only the truth behind them may differ. */
  ghost predicate SameAnswers(es: seq<ConnectEvent>, fs: seq<ConnectEvent>) {
    |es| == |fs| && forall i :: 0 <= i < |es| ==> fs[i] == es[i].(established := fs[i].established)
  }

  /** The loop had to wait for this endpoint, and the wait ended with the socket not ready. */
  predicate WaitTimedOut(e: ConnectEvent) {
    (e.connectEc == InProgress || e.connectEc == WouldBlock) && e.poll == 0
  }

  lemma SameAnswersSameStop(es: seq<ConnectEvent>, fs: seq<ConnectEvent>, deadline: int)
    requires SameAnswers(es, fs)
    ensures StopsAt(fs, deadline) == StopsAt(es, deadline)
    ensures ConnectAll(fs, deadline) == ConnectAll(es, deadline)
  {
    var i, j := StopsAt(es, deadline), StopsAt(fs, deadline);
    assert forall k :: 0 <= k < |es| ==> Judge(fs[k], deadline) == Judge(es[k], deadline);
  }

  /** The documentation promises success when a connection was established. When the loop
      reports success, the endpoint it stopped at is connected whatever the truth behind
      the answers of the system may be, exactly if the wait for it did not time out. */
  lemma SuccessGenuineIff(es: seq<ConnectEvent>, deadline: int)
    requires AllSound(es) && ConnectAll(es, deadline).ec.NoError?
    ensures 0 < ConnectAll(es, deadline).attempts
    ensures var last := ConnectAll(es, deadline).attempts - 1;
            (forall fs: seq<ConnectEvent> :: SameAnswers(es, fs) && AllSound(fs) ==>
               ConnectAll(fs, deadline) == ConnectAll(es, deadline) && fs[last].established)
            <==> !WaitTimedOut(es[last])
  {
    var stop := StopsAt(es, deadline);
    if stop < |es| { RefusalIsAnError(es[stop], deadline); }
    if stop == |es| && stop > 0 { RefusalIsAnError(es[stop - 1], deadline); }
    assert stop < |es| && Judge(es[stop], deadline).Connected?;
    if WaitTimedOut(es[stop]) {
      var fs := es[stop := es[stop].(established := false)];
      assert SameAnswers(es, fs) && AllSound(fs) && !fs[stop].established;
    } else {
      forall fs: seq<ConnectEvent> | SameAnswers(es, fs) && AllSound(fs)
        ensures ConnectAll(fs, deadline) == ConnectAll(es, deadline) && fs[stop].established
      {
        SameAnswersSameStop(es, fs, deadline);
        assert fs[stop].Sound();
      }
    }
  }

  /** It does happen: after any endpoints given up, one whose wait times out makes the loop
      report success with no connection. */
  lemma UnconfirmedConnection(refused: seq<ConnectEvent>, deadline: int)
    requires AllSound(refused) && forall i :: 0 <= i < |refused| ==> Refuses(refused[i], deadline)
    ensures exists e: ConnectEvent ::
              && AllSound(refused + [e])
              && ConnectAll(refused + [e], deadline) == Outcome(NoError, |refused| + 1)
              && !e.established
  {
    var e := ConnectEvent(deadline, NoError, InProgress, 0, NoError, false, NoError, NoError, false);
    var es := refused + [e];
    var codes := GivenUpFirst(es, deadline);
    assert forall i :: 0 <= i < |refused| ==> es[i] == refused[i];
    ConnectOutcome(es, deadline, codes);
    assert AllSound(es);
  }
}
