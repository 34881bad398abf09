/**
 Whole runs of the stream buffer: any sequence of the operations of
 asio/basic_streambuf.hpp, with those that throw in between.
 */
module StreambufRuns {
  import opened Common
  import opened StreambufSpec

  datatype Op =
    | Prepare(n: nat)
    | FillOutput(data: string)
    | CommitOutput(n: nat)
    | ConsumeInput(n: nat)
    | Getc
    | Bumpc
    | Putc(c: IntType)

  /** What a caller sees: the characters it took out and put in, and whether it threw. */
  datatype Effect = Effect(s: Snapshot, threw: bool, removed: string, added: string)

  /** A fill stays inside the prepared range, and `commit` and `consume` move by
      distances that survive the conversion to int (CommitExactIff, ConsumeExactIff). */
  ghost predicate Allowed(s: Snapshot, op: Op)
    requires s.Valid()
  {
    match op
    case FillOutput(data) => s.pptr + |data| <= s.epptr
    case CommitOutput(n) => Min(n, s.epptr - s.pptr) <= INT_MAX
    case ConsumeInput(n) => Min(n, s.Size()) <= INT_MAX
    case _ => true
  }

  function Step(s: Snapshot, op: Op): (e: Effect)
    requires s.Valid() && (op.FillOutput? ==> s.pptr + |op.data| <= s.epptr)
    ensures e.s.Valid()
  {
    match op
    case Prepare(n) => var r := Reserve(s, n); Effect(r.s, r.LengthError?, "", "")
    case FillOutput(data) => Effect(Fill(s, data), false, "", "")
    case CommitOutput(n) =>
      Effect(Commit(s, n), false, "", s.buf[s.pptr..s.pptr + Min(n, s.epptr - s.pptr)])
    case ConsumeInput(n) => Effect(Consume(s, n), false, s.Input()[..Min(n, s.Size())], "")
    case Getc => Effect(Peek(s).0, false, "", "")
    case Bumpc =>
      var (t, c) := Bump(s);
      Effect(t, false, if c.Eof? then "" else [c.c], "")
    case Putc(Eof) => Effect(s, false, "", "")
    case Putc(Char(c)) =>
      var r := Overflow(s, c);
      Effect(r.s, r.LengthError?, "", if r.Done? then [c] else "")
  }

  ghost predicate AllAllowed(s: Snapshot, ops: seq<Op>)
    requires s.Valid()
    decreases |ops|
  {
    ops == [] || (Allowed(s, ops[0]) && AllAllowed(Step(s, ops[0]).s, ops[1..]))
  }

  ghost function Run(s: Snapshot, ops: seq<Op>): (e: Effect)
    requires s.Valid() && AllAllowed(s, ops)
    ensures e.s.Valid()
    decreases |ops|
  {
    if ops == [] then Effect(s, false, "", "") else
    var first := Step(s, ops[0]);
    var rest := Run(first.s, ops[1..]);
    Effect(rest.s, first.threw || rest.threw, first.removed + rest.removed, first.added + rest.added)
  }

  /** A `prepare` that throws while part, and not all, of the input would slide. */
  ghost predicate Slides(s: Snapshot, op: Op)
    requires s.Valid()
  {
    op.Prepare? && s.Size() + op.n > s.maxSize && 0 < s.gptr < s.Size()
  }

  ghost predicate NoSlide(s: Snapshot, ops: seq<Op>)
    requires s.Valid() && AllAllowed(s, ops)
    decreases |ops|
  {
    ops == [] || (!Slides(s, ops[0]) && NoSlide(Step(s, ops[0]).s, ops[1..]))
  }

  /** What came out, followed by what is left, is what was there followed by what went in. */
  ghost predicate Balanced(before: string, removed: string, left: string, added: string) {
    removed + left == before + added
  }

  lemma Unmoved(input: string)
    ensures Balanced(input, "", input, "")
  {
  }

  lemma CommitBalanced(s: Snapshot, n: nat)
    requires s.Valid()
    ensures var e := Step(s, CommitOutput(n)); Balanced(s.Input(), "", e.s.Input(), e.added)
  {
    var e := Step(s, CommitOutput(n));
    assert e.s.Input() == s.buf[s.gptr..s.pptr] + e.added;
  }

  lemma ConsumeBalanced(s: Snapshot, n: nat)
    requires s.Valid()
    ensures var e := Step(s, ConsumeInput(n)); Balanced(s.Input(), e.removed, e.s.Input(), "")
  {
    var k := Min(n, s.Size());
    assert Consume(s, n).Input() == s.Input()[k..];
    assert s.Input() == s.Input()[..k] + s.Input()[k..];
  }

  lemma BumpBalanced(s: Snapshot)
    requires s.Valid()
    ensures var e := Step(s, Bumpc); Balanced(s.Input(), e.removed, e.s.Input(), "")
  {
    ReadMeaning(s);
    if s.Size() > 0 { HeadAndTail(s.Input()); }
  }

  lemma HeadAndTail(input: string)
    requires input != ""
    ensures Balanced(input, [input[0]], input[1..], "")
  {
  }

  lemma StepConserves(s: Snapshot, op: Op)
    requires s.Valid() && Allowed(s, op) && !Slides(s, op)
    ensures var e := Step(s, op); Balanced(s.Input(), e.removed, e.s.Input(), e.added)
  {
    Unmoved(s.Input());
    match op
    case Prepare(n) =>
      ReserveMeaning(s, n);
      if Reserve(s, n).LengthError? { FailedReserveEffect(s, n); }
    case FillOutput(data) => FillCommit(s, data);
    case CommitOutput(n) => CommitBalanced(s, n);
    case ConsumeInput(n) => ConsumeBalanced(s, n);
    case Getc => ReadMeaning(s);
    case Bumpc => BumpBalanced(s);
    case Putc(Eof) =>
    case Putc(Char(c)) => OverflowMeaning(s, c);
  }

  lemma StepSizes(s: Snapshot, op: Op)
    requires s.Valid() && Allowed(s, op)
    ensures var e := Step(s, op);
            e.s.maxSize == s.maxSize && |e.removed| + e.s.Size() == s.Size() + |e.added|
  {
    if !Slides(s, op) {
      StepConserves(s, op);
      StepMaxSize(s, op);
    } else {
      ReserveMeaning(s, op.n);
    }
  }

  lemma StepMaxSize(s: Snapshot, op: Op)
    requires s.Valid() && Allowed(s, op)
    ensures Step(s, op).s.maxSize == s.maxSize
  {
  }

  lemma Chain(i0: string, r1: string, i1: string, a1: string, r2: string, i2: string, a2: string)
    requires Balanced(i0, r1, i1, a1) && Balanced(i1, r2, i2, a2)
    ensures Balanced(i0, r1 + r2, i2, a1 + a2)
  {
    calc {
      (r1 + r2) + i2;
      r1 + (r2 + i2);
      r1 + (i1 + a2);
      (r1 + i1) + a2;
      (i0 + a1) + a2;
      i0 + (a1 + a2);
    }
  }

  /** The stream buffer is a FIFO queue: over any run, thrown errors included, what came
      out followed by the input is what was there followed by what went in, in order,
      unless some `prepare` threw with gptr strictly inside the input. */
  lemma {:induction false} RunIsFifo(s: Snapshot, ops: seq<Op>)
    requires s.Valid() && AllAllowed(s, ops) && NoSlide(s, ops)
    ensures var e := Run(s, ops); Balanced(s.Input(), e.removed, e.s.Input(), e.added)
    decreases |ops|
  {
    if ops != [] {
      var first := Step(s, ops[0]);
      var rest := Run(first.s, ops[1..]);
      StepConserves(s, ops[0]);
      RunIsFifo(first.s, ops[1..]);
      Chain(s.Input(), first.removed, first.s.Input(), first.added,
            rest.removed, rest.s.Input(), rest.added);
    } else {
      Unmoved(s.Input());
    }
  }

  lemma RunFrom(s: Snapshot, op: Op, more: seq<Op>)
    requires s.Valid() && Allowed(s, op) && AllAllowed(Step(s, op).s, more)
    ensures AllAllowed(s, [op] + more)
    ensures var first, rest := Step(s, op), Run(Step(s, op).s, more);
            Run(s, [op] + more) == Effect(rest.s, first.threw || rest.threw,
                                          first.removed + rest.removed, first.added + rest.added)
  {
    assert ([op] + more)[1..] == more;
  }

  /** The input does slide: three characters are read into a buffer of three, one is
      consumed, and a request for two more throws and turns the unread "bc" into "cc". */
  lemma SlideReached()
    ensures var ops := [Prepare(3), FillOutput("abc"), CommitOutput(3), ConsumeInput(1)];
            && AllAllowed(Initial(3), ops) && !Run(Initial(3), ops).threw
            && Run(Initial(3), ops).s.Input() == "bc"
            && Step(Run(Initial(3), ops).s, Prepare(2)).threw
            && Step(Run(Initial(3), ops).s, Prepare(2)).s.Input() == "cc"
  {
    var s0 := Initial(3);
    var s1 := s0.(buf := "abc");
    var s2 := s1.(pptr := 3, egptr := 3);
    var s3 := s2.(gptr := 1);
    assert Step(s0, Prepare(3)).s == s0;
    assert Step(s0, FillOutput("abc")).s == s1;
    assert Step(s1, CommitOutput(3)).s == s2;
    assert Step(s2, ConsumeInput(1)).s == s3;
    RunFrom(s2, ConsumeInput(1), []);
    RunFrom(s1, CommitOutput(3), [ConsumeInput(1)]);
    RunFrom(s0, FillOutput("abc"), [CommitOutput(3)] + [ConsumeInput(1)]);
    RunFrom(s0, Prepare(3), [FillOutput("abc")] + ([CommitOutput(3)] + [ConsumeInput(1)]));
    assert [ConsumeInput(1)] + [] == [ConsumeInput(1)];
    assert [Prepare(3), FillOutput("abc"), CommitOutput(3), ConsumeInput(1)]
           == [Prepare(3)] + ([FillOutput("abc")] + ([CommitOutput(3)] + [ConsumeInput(1)]));
    assert s3.Input() == "bc";
    assert Step(s3, Prepare(2)).s.buf == "bcc";
    assert "bcc"[1..3] == "cc";
  }

  /** Counts survive every run, even one whose throws slide the input. */
  lemma {:induction false} RunConservesCounts(s: Snapshot, ops: seq<Op>)
    requires s.Valid() && AllAllowed(s, ops)
    ensures var e := Run(s, ops); |e.removed| + e.s.Size() == s.Size() + |e.added|
    decreases |ops|
  {
    if ops != [] {
      StepSizes(s, ops[0]);
      RunConservesCounts(Step(s, ops[0]).s, ops[1..]);
    }
  }

  /** A run without any throw never slides, so it conserves from the first character on. */
  lemma FreshRunIsFifo(maxSize: nat, ops: seq<Op>)
    requires AllAllowed(Initial(maxSize), ops) && !Run(Initial(maxSize), ops).threw
    ensures var e := Run(Initial(maxSize), ops); e.removed + e.s.Input() == e.added
  {
    NoThrowNoSlide(Initial(maxSize), ops);
    RunIsFifo(Initial(maxSize), ops);
    assert "" + Run(Initial(maxSize), ops).added == Run(Initial(maxSize), ops).added;
  }

  lemma {:induction false} NoThrowNoSlide(s: Snapshot, ops: seq<Op>)
    requires s.Valid() && AllAllowed(s, ops) && !Run(s, ops).threw
    ensures NoSlide(s, ops)
    decreases |ops|
  {
    if ops != [] {
      if ops[0].Prepare? { ReserveMeaning(s, ops[0].n); }
      NoThrowNoSlide(Step(s, ops[0]).s, ops[1..]);
    }
  }

  /** Buffers of at most INT_MAX characters never meet the conversion: every run whose
      fills stay inside the prepared range is allowed. */
  ghost predicate FillsInside(s: Snapshot, ops: seq<Op>)
    requires s.Valid()
    decreases |ops|
  {
    ops == [] ||
    (&& (ops[0].FillOutput? ==> s.pptr + |ops[0].data| <= s.epptr)
     && FillsInside(Step(s, ops[0]).s, ops[1..]))
  }

  lemma {:induction false} SmallBuffersAllowed(s: Snapshot, ops: seq<Op>)
    requires s.Valid() && s.maxSize <= INT_MAX && FillsInside(s, ops)
    ensures AllAllowed(s, ops)
    decreases |ops|
  {
    if ops != [] {
      StepMaxSize(s, ops[0]);
      SmallBuffersAllowed(Step(s, ops[0]).s, ops[1..]);
    }
  }

  /** One `prepare` of a new buffer makes room that a `commit` cannot move over. */
  lemma CommitNarrows(maxSize: nat, m: nat)
    requires INT_MAX < m <= maxSize
    ensures AllAllowed(Initial(maxSize), [Prepare(m)])
    ensures var e := Run(Initial(maxSize), [Prepare(m)]);
            && !e.threw && e.s.epptr - e.s.pptr == m && !Allowed(e.s, CommitOutput(m))
            && e.s.pptr + AsInt(m) != Commit(e.s, m).pptr
  {
    var s0 := Initial(maxSize);
    ReserveMeaning(s0, m);
    var s1 := Reserve(s0, m).s;
    RunFrom(s0, Prepare(m), []);
    assert [Prepare(m)] == [Prepare(m)] + [];
    assert Run(s1, []).s == s1;
    CommitExactIff(s1, m);
  }

  /** Two commits that are exact make an input that a `consume` cannot move over. */
  lemma ConsumeNarrows(maxSize: nat, m: nat)
    requires INT_MAX < m <= maxSize && m <= INT_MAX + INT_MAX
    ensures var ops := [Prepare(m), CommitOutput(INT_MAX), CommitOutput(m - INT_MAX)];
            && AllAllowed(Initial(maxSize), ops)
            && var e := Run(Initial(maxSize), ops);
               && !e.threw && e.s.Size() == m && !Allowed(e.s, ConsumeInput(m))
               && e.s.gptr + AsInt(m) != Consume(e.s, m).gptr
  {
    var s0 := Initial(maxSize);
    ReserveMeaning(s0, m);
    var s1 := Reserve(s0, m).s;
    var s2 := Commit(s1, INT_MAX);
    var s3 := Commit(s2, m - INT_MAX);
    RunFrom(s2, CommitOutput(m - INT_MAX), []);
    RunFrom(s1, CommitOutput(INT_MAX), [CommitOutput(m - INT_MAX)] + []);
    RunFrom(s0, Prepare(m), [CommitOutput(INT_MAX)] + ([CommitOutput(m - INT_MAX)] + []));
    assert [Prepare(m), CommitOutput(INT_MAX), CommitOutput(m - INT_MAX)]
           == [Prepare(m)] + ([CommitOutput(INT_MAX)] + ([CommitOutput(m - INT_MAX)] + []));
    ConsumeExactIff(s3, m);
  }

  /** A maximum size that fits an int is exactly what keeps every run of a new buffer clear
      of the conversion. */
  lemma NeverNarrowsIff(maxSize: nat)
    ensures (forall ops: seq<Op> :: FillsInside(Initial(maxSize), ops) ==> AllAllowed(Initial(maxSize), ops))
            <==> maxSize <= INT_MAX
  {
    if maxSize <= INT_MAX {
      forall ops: seq<Op> | FillsInside(Initial(maxSize), ops)
        ensures AllAllowed(Initial(maxSize), ops)
      {
        SmallBuffersAllowed(Initial(maxSize), ops);
      }
    } else {
      var m, s := INT_MAX + 1, Initial(maxSize);
      CommitNarrows(maxSize, m);
      var t := Step(s, Prepare(m)).s;
      RunFrom(s, Prepare(m), []);
      assert [Prepare(m)] == [Prepare(m)] + [] && Run(t, []).s == t;
      NotAllowedThen(t, CommitOutput(m), []);
      NotAllowedThen(s, Prepare(m), [CommitOutput(m)] + []);
    }
  }

  lemma NotAllowedThen(s: Snapshot, op: Op, more: seq<Op>)
    requires s.Valid() && !op.FillOutput? && FillsInside(Step(s, op).s, more)
    requires !Allowed(s, op) || !AllAllowed(Step(s, op).s, more)
    ensures FillsInside(s, [op] + more) && !AllAllowed(s, [op] + more)
  {
    assert ([op] + more)[1..] == more;
  }

  // ----- Growth -----

  /** size()+n of the request that `op` makes of `reserve`, when it makes one that succeeds. */
  ghost function Demand(s: Snapshot, op: Op): nat
    requires s.Valid()
  {
    match op
    case Prepare(n) => if s.Size() + n <= s.maxSize then s.Size() + n else 0
    case Putc(Char(c)) =>
      if s.pptr == s.epptr && s.Size() < s.maxSize then s.Size() + OverflowRequest(s) else 0
    case _ => 0
  }

  ghost function PeakDemand(s: Snapshot, ops: seq<Op>): nat
    requires s.Valid() && AllAllowed(s, ops)
    decreases |ops|
  {
    if ops == [] then 0
    else Max(Demand(s, ops[0]), PeakDemand(Step(s, ops[0]).s, ops[1..]))
  }

  lemma StepGrowth(s: Snapshot, op: Op)
    requires s.Valid() && Allowed(s, op)
    ensures Step(s, op).s.epptr == Max(s.epptr, Demand(s, op))
  {
    match op
    case Prepare(n) => ReserveMeaning(s, n);
    case Putc(Char(c)) =>
      OverflowMeaning(s, c);
      ReserveMeaning(s, OverflowRequest(s));
    case _ =>
  }

  /** epptr never shrinks: over a whole run, throws included, it is the high-water mark of
      where it started and of every request that succeeded. */
  lemma {:induction false} GrowthIsHighWater(s: Snapshot, ops: seq<Op>)
    requires s.Valid() && AllAllowed(s, ops)
    ensures Run(s, ops).s.epptr == Max(s.epptr, PeakDemand(s, ops))
    decreases |ops|
  {
    if ops != [] {
      StepGrowth(s, ops[0]);
      GrowthIsHighWater(Step(s, ops[0]).s, ops[1..]);
    }
  }

  /** From construction on, the mark starts at min(max_size(), 128). */
  lemma FreshGrowth(maxSize: nat, ops: seq<Op>)
    requires AllAllowed(Initial(maxSize), ops)
    ensures Run(Initial(maxSize), ops).s.epptr
            == Max(Min(maxSize, BUFFER_DELTA), PeakDemand(Initial(maxSize), ops))
  {
    GrowthIsHighWater(Initial(maxSize), ops);
  }
}
