/**
 A stream buffer object taken through a whole run: the theorems of StreambufRuns hold of
 the array and the pointers themselves.
 */
module StreambufReplay {
  import opened Common
  import opened StreambufSpec
  import opened StreambufRuns
  import opened Streambuf

  method PerformOp(b: BasicStreambuf, op: Op) returns (threw: bool, removed: string, added: string)
    requires b.Valid() && Allowed(b.View(), op)
    modifies b, b.buffer
    ensures b.Valid() && (b.buffer == old(b.buffer) || fresh(b.buffer))
    ensures Effect(b.View(), threw, removed, added) == Step(old(b.View()), op)
  {
    threw, removed, added := false, "", "";
    match op
    case Prepare(n) =>
      var ok, start, length := b.Prepare(n);
      ReserveMeaning(old(b.View()), n);
      threw := !ok;
    case FillOutput(data) => b.FillOutput(data);
    case CommitOutput(n) =>
      added := b.buffer[b.pptr..b.pptr + Min(n, b.epptr - b.pptr)];
      b.Commit(n);
    case ConsumeInput(n) =>
      var start, size := b.Data();
      removed := b.buffer[start..start + size][..Min(n, size)];
      b.Consume(n);
    case Getc => var c := b.Sgetc();
    case Bumpc =>
      var c := b.Sbumpc();
      removed := if c.Eof? then "" else [c.c];
    case Putc(c) =>
      var ok, r := b.Overflow(c);
      threw := !ok;
      added := if ok && c.Char? then [c.c] else "";
  }

  /** The object goes through the run that the specification describes. */
  method Replay(b: BasicStreambuf, ops: seq<Op>) returns (threw: bool, removed: string, added: string)
    requires b.Valid() && AllAllowed(b.View(), ops)
    modifies b, b.buffer
    ensures b.Valid() && (b.buffer == old(b.buffer) || fresh(b.buffer))
    ensures Effect(b.View(), threw, removed, added) == Run(old(b.View()), ops)
    decreases |ops|
  {
    if ops == [] {
      return false, "", "";
    }
    var t1, r1, a1 := PerformOp(b, ops[0]);
    var t2, r2, a2 := Replay(b, ops[1..]);
    return t1 || t2, r1 + r2, a1 + a2;
  }

  /** A new stream buffer, through any run in which nothing throws: the characters taken out
      and those still in it are the characters put in, in order. */
  method FifoReplay(maxSize: nat, ops: seq<Op>) returns (b: BasicStreambuf, threw: bool, removed: string, added: string)
    requires AllAllowed(Initial(maxSize), ops)
    ensures b.Valid()
    ensures Effect(b.View(), threw, removed, added) == Run(Initial(maxSize), ops)
    ensures !threw ==> removed + b.View().Input() == added
  {
    b := new BasicStreambuf(maxSize);
    threw, removed, added := Replay(b, ops);
    if !threw {
      FreshRunIsFifo(maxSize, ops);
    }
  }
}
