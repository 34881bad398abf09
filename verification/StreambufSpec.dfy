/**
 The stream buffer of asio/basic_streambuf.hpp, as a value.

 A `Snapshot` is the character array together with the area pointers, written as
 offsets into it. The functions below say what each operation does to a snapshot;
 the class in Streambuf.dfy carries the operations out in place and is proved
 against them. The documentation's view of the object is smaller: an input
 sequence and a maximum size. The lemmas relate the two.
 */
module StreambufSpec {
  import opened Common

  const BUFFER_DELTA := 128
  const INT_MAX := 0x7FFF_FFFF

  /** `static_cast<int>` of a `size_t`: the low 32 bits, read as two's complement. */
  function AsInt(n: nat): int { (n + 0x8000_0000) % 0x1_0000_0000 - 0x8000_0000 }

  function Zeros(n: nat): (z: string)
    ensures |z| == n
  {
    seq(n, _ => '\0')
  }

  datatype Snapshot = Snapshot(
    buf: string, gptr: nat, egptr: nat, pptr: nat, epptr: nat, maxSize: nat)
  {
    /** What every reachable stream buffer satisfies. */
    ghost predicate Valid() {
      && gptr <= egptr <= pptr <= epptr <= maxSize
      && |buf| == Max(epptr, 1)
    }

    function Size(): nat
      requires Valid()
    {
      pptr - gptr
    }

    function Input(): (s: string)
      requires Valid()
      ensures |s| == Size()
    {
      buf[gptr..pptr]
    }
  }

  /** A call either completes or leaves by `std::length_error`. */
  datatype Outcome = Done(s: Snapshot) | LengthError(s: Snapshot)

  function Initial(maxSize: nat): (s: Snapshot)
    ensures s.Valid() && s.Input() == "" && s.maxSize == maxSize
  {
    var pend := Min(maxSize, BUFFER_DELTA);
    Snapshot(Zeros(Max(pend, 1)), 0, 0, 0, pend, maxSize)
  }

  /** The array after the unread characters [g, p) have been moved to its start. */
  function Shifted(buf: string, g: nat, p: nat): (r: string)
    requires g <= p <= |buf|
    ensures |r| == |buf|
  {
    buf[g..p] + buf[p - g..]
  }

  /** `vector::resize` to n characters, for n no less than the size. */
  function Grown(buf: string, n: nat): (r: string)
    ensures |r| == Max(|buf|, n)
  {
    if n <= |buf| then buf else buf + Zeros(n - |buf|)
  }

  function Reserve(s: Snapshot, n: nat): (r: Outcome)
    requires s.Valid()
    ensures r.s.Valid() && r.s.maxSize == s.maxSize
    ensures r.Done? ==> r.s.pptr + n <= r.s.epptr
  {
    var level := s.Size() + n;
    if s.pptr + n <= s.epptr then
      Done(s)
    else if level > s.maxSize then
      LengthError(s.(buf := Shifted(s.buf, s.gptr, s.pptr)))
    else
      var end := Max(s.epptr, level);
      Done(s.(buf := Grown(Shifted(s.buf, s.gptr, s.pptr), Max(end, 1)),
              gptr := 0, egptr := s.Size(), pptr := s.Size(), epptr := end))
  }

  /** How many characters `overflow` asks `reserve` for when the put area is full. */
  function OverflowRequest(s: Snapshot): nat
    requires s.Valid()
  {
    if s.Size() < s.maxSize && s.maxSize - s.Size() < BUFFER_DELTA
    then s.maxSize - s.Size() else BUFFER_DELTA
  }

  function PutChar(s: Snapshot, c: char): (r: Snapshot)
    requires s.Valid() && s.pptr < s.epptr
    ensures r.Valid()
  {
    s.(buf := s.buf[s.pptr := c], pptr := s.pptr + 1)
  }

  function Overflow(s: Snapshot, c: char): (r: Outcome)
    requires s.Valid()
    ensures r.s.Valid() && r.s.maxSize == s.maxSize
  {
    if s.pptr < s.epptr then Done(PutChar(s, c)) else
    match Reserve(s, OverflowRequest(s))
    case Done(t) => Done(PutChar(t, c))
    case LengthError(t) => LengthError(t)
  }

  function Commit(s: Snapshot, n: nat): (r: Snapshot)
    requires s.Valid()
    ensures r.Valid()
  {
    var p := s.pptr + Min(n, s.epptr - s.pptr);
    s.(pptr := p, egptr := p)
  }

  function Consume(s: Snapshot, n: nat): (r: Snapshot)
    requires s.Valid()
    ensures r.Valid()
  {
    s.(gptr := s.gptr + Min(n, s.Size()), egptr := s.pptr)
  }

  function Underflow(s: Snapshot): (r: Snapshot)
    requires s.Valid()
    ensures r.Valid()
  {
    if s.gptr < s.pptr then s.(egptr := s.pptr) else s
  }

  /** The owner of the range returned by `prepare` stores `data` at its start. */
  function Fill(s: Snapshot, data: string): (r: Snapshot)
    requires s.Valid() && s.pptr + |data| <= s.epptr
    ensures r.Valid()
  {
    s.(buf := s.buf[..s.pptr] + data + s.buf[s.pptr + |data|..])
  }

  /** sgetc and sbumpc: 27.6.3.2.3 of ISO/IEC 14882:2011, over `underflow`. */
  function Peek(s: Snapshot): (r: (Snapshot, IntType))
    requires s.Valid()
    ensures r.0.Valid()
  {
    var t := if s.gptr < s.egptr then s else Underflow(s);
    (t, if s.gptr < s.pptr then Char(s.buf[s.gptr]) else Eof)
  }

  function Bump(s: Snapshot): (r: (Snapshot, IntType))
    requires s.Valid()
    ensures r.0.Valid()
  {
    var (t, c) := Peek(s);
    if c.Eof? then (t, c) else (t.(gptr := t.gptr + 1), c)
  }

  /** The preferred read size; `capacity` is that of the vector, which never falls below its size. */
  function ReadSize(s: Snapshot, capacity: nat, limit: nat): nat
    requires s.Valid() && |s.buf| <= capacity
  {
    Min(Max(512, capacity - s.Size()), Min(limit, s.maxSize - s.Size()))
  }

  // ----- What one call promises -----

  /** `reserve` throws exactly when the documentation says; otherwise it makes room and
      neither the shift nor the growth can be seen through the input sequence. */
  lemma ReserveMeaning(s: Snapshot, n: nat)
    requires s.Valid()
    ensures Reserve(s, n).LengthError? <==> s.Size() + n > s.maxSize
    ensures Reserve(s, n).Done? ==>
              var t := Reserve(s, n).s;
              && t.Input() == s.Input()
              && t.epptr == Max(s.epptr, s.Size() + n)
  {
    var t := Reserve(s, n).s;
    if t.gptr != s.gptr || t.pptr != s.pptr {
      assert t.buf[0..s.Size()] == s.buf[s.gptr..s.pptr];
    }
  }

  /** Where there is room already, nothing moves. Otherwise the input moves to the front. */
  lemma ReserveAreas(s: Snapshot, n: nat)
    requires s.Valid() && Reserve(s, n).Done?
    ensures s.epptr - s.pptr >= n ==> Reserve(s, n).s == s
    ensures s.epptr - s.pptr < n ==>
              var t := Reserve(s, n).s;
              t.gptr == 0 && t.egptr == t.pptr == s.Size() && |t.buf| == Max(|s.buf|, t.epptr)
  {
  }

  /** Position j of the input after a `reserve` that threw. */
  ghost predicate SlidPast(before: string, g: nat, after: string) {
    && |after| == |before|
    && forall j {:trigger after[j]} :: 0 <= j < |before| ==>
         after[j] == if g + j < |before| then before[g + j] else before[j]
  }

  lemma ShiftSlides(buf: string, g: nat, p: nat)
    requires g <= p <= |buf|
    ensures SlidPast(buf[g..p], g, Shifted(buf, g, p)[g..p])
  {
    forall j | 0 <= j < p - g
      ensures Shifted(buf, g, p)[g..p][j] == if g + j < p - g then buf[g..p][g + j] else buf[g..p][j]
    {
      assert Shifted(buf, g, p)[g..p][j] == Shifted(buf, g, p)[g + j];
    }
  }

  lemma SlideHarmless(before: string, g: nat, after: string)
    requires SlidPast(before, g, after) && (g == 0 || g >= |before|)
    ensures after == before
  {
    assert forall j :: 0 <= j < |before| ==> after[j] == before[j];
  }

  /** A throwing `reserve` has already moved the characters, with the pointers left
      behind: the input slides by gptr, except for its last gptr characters. */
  lemma FailedReserveEffect(s: Snapshot, n: nat)
    requires s.Valid() && Reserve(s, n).LengthError?
    ensures var t := Reserve(s, n).s;
            && t == s.(buf := t.buf)
            && SlidPast(s.Input(), s.gptr, t.Input())
            && (s.gptr == 0 || s.gptr >= s.Size() ==> t.Input() == s.Input())
  {
    ShiftSlides(s.buf, s.gptr, s.pptr);
    if s.gptr == 0 || s.gptr >= s.Size() {
      SlideHarmless(s.Input(), s.gptr, Reserve(s, n).s.Input());
    }
  }

  /** t holds other characters than s under the same area pointers. */
  ghost predicate SamePointers(s: Snapshot, t: Snapshot) {
    t == s.(buf := t.buf) && |t.buf| == |s.buf|
  }

  /** Whether a failed `reserve` can harm the input depends on the pointers alone:
      it is harmless for every content iff nothing or everything was already read past. */
  lemma FailedReserveHarmlessIff(s: Snapshot, n: nat)
    requires s.Valid() && s.Size() + n > s.maxSize
    ensures (forall t: Snapshot :: SamePointers(s, t) && t.Valid() ==> Reserve(t, n).s.Input() == t.Input())
            <==> (s.gptr == 0 || s.gptr >= s.Size())
  {
    ReserveMeaning(s, n);
    if s.gptr == 0 || s.gptr >= s.Size() {
      forall t: Snapshot | SamePointers(s, t) && t.Valid()
        ensures Reserve(t, n).s.Input() == t.Input()
      {
        ReserveMeaning(t, n);
        FailedReserveEffect(t, n);
      }
    } else {
      var t := s.(buf := seq(|s.buf|, i => if i == s.gptr then 'a' else 'b'));
      assert SamePointers(s, t);
      ReserveMeaning(t, n);
      FailedReserveEffect(t, n);
      assert t.Input()[s.gptr] == t.buf[s.gptr + s.gptr];
      assert t.Input()[0] == 'a' && t.Input()[s.gptr] == 'b';
    }
  }

  lemma PutCharMeaning(s: Snapshot, c: char)
    requires s.Valid() && s.pptr < s.epptr
    ensures PutChar(s, c).Input() == s.Input() + [c]
  {
    assert PutChar(s, c).buf[s.gptr..s.pptr] == s.buf[s.gptr..s.pptr];
  }

  /** A full put area at the maximum size leaves nothing read past. */
  lemma OverflowRequestThrows(s: Snapshot)
    requires s.Valid() && s.pptr == s.epptr
    ensures Reserve(s, OverflowRequest(s)).LengthError? <==> s.Size() == s.maxSize
    ensures s.Size() == s.maxSize ==> s.gptr == 0
  {
    ReserveMeaning(s, OverflowRequest(s));
  }

  /** A full put area grows by 128 characters, or up to the maximum size if that is less, and
      counted from where the input ends once it is at the front. */
  lemma OverflowGrowth(s: Snapshot, c: char)
    requires s.Valid() && s.Size() < s.maxSize
    ensures Overflow(s, c).s.epptr
            == if s.pptr < s.epptr then s.epptr else Max(s.epptr, Min(s.Size() + 128, s.maxSize))
  {
    if s.pptr == s.epptr {
      ReserveMeaning(s, OverflowRequest(s));
    }
  }

  /** `overflow` of a character appends it, or throws exactly when the input is at its
      maximum; that throw always finds gptr at the start and so preserves the input. */
  lemma OverflowMeaning(s: Snapshot, c: char)
    requires s.Valid()
    ensures Overflow(s, c).LengthError? <==> s.Size() == s.maxSize
    ensures var r := Overflow(s, c);
            r.s.Input() == if r.Done? then s.Input() + [c] else s.Input()
  {
    if s.pptr < s.epptr {
      PutCharMeaning(s, c);
    } else {
      var n := OverflowRequest(s);
      OverflowRequestThrows(s);
      if s.Size() == s.maxSize {
        FailedReserveEffect(s, n);
      } else {
        ReserveMeaning(s, n);
        PutCharMeaning(Reserve(s, n).s, c);
      }
    }
  }

  /** A reader sees end of file exactly when size() is 0, however far egptr lags pptr,
      and otherwise the oldest character; only `Bump` takes it away. */
  lemma ReadMeaning(s: Snapshot)
    requires s.Valid()
    ensures Peek(s).0.Input() == s.Input()
    ensures Peek(s).1 == Bump(s).1
    ensures Peek(s).1 == if s.Size() == 0 then Eof else Char(s.Input()[0])
    ensures Bump(s).0.Input() == if s.Size() == 0 then "" else s.Input()[1..]
  {
  }

  /** `commit`, `consume` and `underflow` each make the whole input readable, and a read finds
      something there if there is any. */
  lemma AllReadable(s: Snapshot, n: nat)
    requires s.Valid()
    ensures Commit(s, n).gptr == s.gptr && Commit(s, n).egptr == Commit(s, n).pptr
    ensures Consume(s, n).egptr == Consume(s, n).pptr == s.pptr
    ensures Underflow(s).gptr == s.gptr && Underflow(s).pptr == s.pptr
    ensures s.Size() > 0 ==> Underflow(s).egptr == s.pptr
    ensures s.Size() > 0 ==> Peek(s).0.gptr == s.gptr < Peek(s).0.egptr
    ensures s.Size() == 0 ==> Underflow(s) == s
  {
  }

  // ----- The int conversion -----

  /** The conversion keeps the low 32 bits, and its values are those of an int. */
  lemma AsIntMeaning(n: nat)
    ensures -INT_MAX - 1 <= AsInt(n) <= INT_MAX
    ensures (n - AsInt(n)) % 0x1_0000_0000 == 0
  {
    var m := n + 0x8000_0000;
    assert n - AsInt(n) == m - m % 0x1_0000_0000;
  }

  /** `pbump(static_cast<int>(k))` moves pptr by k exactly when k fits an int. */
  lemma AsIntExact(k: nat)
    ensures AsInt(k) == k <==> k <= INT_MAX
  {
  }

  /** pptr as `commit` leaves it, conversion included: it is the documented one exactly
      when the number of characters moved fits an int. */
  lemma CommitExactIff(s: Snapshot, n: nat)
    requires s.Valid()
    ensures s.pptr + AsInt(Min(n, s.epptr - s.pptr)) == Commit(s, n).pptr
            <==> Min(n, s.epptr - s.pptr) <= INT_MAX
  {
    AsIntExact(Min(n, s.epptr - s.pptr));
  }

  /** The same for `consume` and gptr. */
  lemma ConsumeExactIff(s: Snapshot, n: nat)
    requires s.Valid()
    ensures s.gptr + AsInt(Min(n, s.Size())) == Consume(s, n).gptr
            <==> Min(n, s.Size()) <= INT_MAX
  {
    AsIntExact(Min(n, s.Size()));
  }

  // ----- Read sizing -----

  lemma ReadSizeMeaning(s: Snapshot, capacity: nat, limit: nat)
    requires s.Valid() && |s.buf| <= capacity
    ensures Reserve(s, ReadSize(s, capacity, limit)).Done?
    ensures ReadSize(s, capacity, limit) <= limit
    ensures ReadSize(s, capacity, limit) == 0 <==> limit == 0 || s.Size() == s.maxSize
  {
    ReserveMeaning(s, ReadSize(s, capacity, limit));
  }

  /** The limit and the maximum size admit a read of m characters, and it is no more than 512
      of them or fits the storage there is. */
  predicate ReadFits(s: Snapshot, capacity: nat, limit: nat, m: nat)
    requires s.Valid()
  {
    m <= limit && s.Size() + m <= s.maxSize && (m <= 512 || s.Size() + m <= capacity)
  }

  /** The preferred size is the largest that fits. */
  lemma ReadSizeExact(s: Snapshot, capacity: nat, limit: nat, m: nat)
    requires s.Valid() && |s.buf| <= capacity
    ensures m <= ReadSize(s, capacity, limit) <==> ReadFits(s, capacity, limit, m)
  {
  }

  /** One round of a read loop: the vector's capacity, the limit, and how many of the
      prepared characters the device filled in. */
  datatype Round = Round(capacity: nat, limit: nat, data: string)

  ghost predicate RoundsLegal(s: Snapshot, rounds: seq<Round>)
    requires s.Valid()
    decreases |rounds|
  {
    rounds == [] ||
    (&& |s.buf| <= rounds[0].capacity
     && 1 <= |rounds[0].data| <= ReadSize(s, rounds[0].capacity, rounds[0].limit)
     && RoundsLegal(AfterRound(s, rounds[0]), rounds[1..]))
  }

  function AfterRound(s: Snapshot, r: Round): (t: Snapshot)
    requires s.Valid() && |s.buf| <= r.capacity
    requires |r.data| <= ReadSize(s, r.capacity, r.limit)
    ensures t.Valid()
  {
    ReadSizeMeaning(s, r.capacity, r.limit);
    ReserveMeaning(s, ReadSize(s, r.capacity, r.limit));
    Commit(Fill(Reserve(s, ReadSize(s, r.capacity, r.limit)).s, r.data), |r.data|)
  }

  lemma AfterRoundInput(s: Snapshot, r: Round)
    requires s.Valid() && |s.buf| <= r.capacity
    requires |r.data| <= ReadSize(s, r.capacity, r.limit)
    ensures AfterRound(s, r).Input() == s.Input() + r.data
    ensures AfterRound(s, r).maxSize == s.maxSize
  {
    ReadSizeMeaning(s, r.capacity, r.limit);
    ReserveMeaning(s, ReadSize(s, r.capacity, r.limit));
    FillCommit(Reserve(s, ReadSize(s, r.capacity, r.limit)).s, r.data);
  }

  lemma FillCommit(s: Snapshot, data: string)
    requires s.Valid() && s.pptr + |data| <= s.epptr
    ensures Fill(s, data).Input() == s.Input()
    ensures Commit(Fill(s, data), |data|).Input() == s.Input() + data
  {
    var t := Fill(s, data);
    assert t.buf[s.gptr..s.pptr] == s.buf[s.gptr..s.pptr];
    assert t.buf[s.pptr..s.pptr + |data|] == data;
    assert t.buf[s.gptr..s.pptr + |data|] == t.buf[s.gptr..s.pptr] + t.buf[s.pptr..s.pptr + |data|];
  }

  /** A loop that prepares the preferred size and commits at least one character each
      time never throws and stops within max_size() - size() rounds. */
  lemma {:induction false} ReadLoopBounded(s: Snapshot, rounds: seq<Round>)
    requires s.Valid() && RoundsLegal(s, rounds)
    ensures |rounds| <= s.maxSize - s.Size()
    decreases |rounds|
  {
    if rounds != [] {
      AfterRoundInput(s, rounds[0]);
      ReadLoopBounded(AfterRound(s, rounds[0]), rounds[1..]);
    }
  }
}
