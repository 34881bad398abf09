/**
 A socket stream buffer object taken through a whole run, in one direction or in both: the
 theorems of SocketRuns and SocketStreams hold of its arrays and its socket.
 */
module SocketReplay {
  import opened SocketSpec
  import opened SocketRuns
  import opened SocketStreambuf
  import opened SocketStreams

  method PerformOut(b: BasicSocketStreambuf, op: OutOp) returns (waiting: bool, accepted: string)
    requires b.Valid()
    modifies b, b.socket, b.putBuffer
    ensures b.Valid() && b.socket == old(b.socket) && b.getBuffer == old(b.getBuffer)
    ensures b.putBuffer == old(b.putBuffer) || fresh(b.putBuffer)
    ensures var e := OutStep(old(b.SinkView()), op, old(b.socket.sends));
            (b.SinkView(), waiting, accepted, b.socket.sends) == (e.k, e.waiting, e.accepted, e.rest)
    ensures b.SourceView() == old(b.SourceView()).(ec := b.ec, deadline := b.expiry)
    ensures b.socket.recvs == old(b.socket.recvs)
  {
    waiting, accepted := false, "";
    match op
    case Put(c) =>
      var ret, status := b.Sputc(c);
      waiting := status == Waiting;
      accepted := if status == Completed then [c] else "";
    case Flush(c) =>
      var ret, status := b.Overflow(c);
      waiting := status == Waiting;
      accepted := if status == Completed && c.Char? then [c.c] else "";
    case Unbuffer(zero) => var ok := b.Setbuf(zero);
    case ExpiresAt(t) => b.expiry := t;
  }

  /** The object goes through the run that the specification describes. */
  method ReplayOut(b: BasicSocketStreambuf, ops: seq<OutOp>) returns (waiting: bool, accepted: string)
    requires b.Valid()
    modifies b, b.socket, b.putBuffer
    ensures b.Valid()
    ensures var e := OutRun(old(b.SinkView()), ops, old(b.socket.sends));
            (b.SinkView(), waiting, accepted) == (e.k, e.waiting, e.accepted)
    decreases |ops|
  {
    if ops == [] {
      return false, "";
    }
    waiting, accepted := PerformOut(b, ops[0]);
    if !waiting {
      var more;
      waiting, more := ReplayOut(b, ops[1..]);
      accepted := accepted + more;
    }
  }

  method PerformIn(b: BasicSocketStreambuf, op: InOp) returns (waiting: bool, delivered: string)
    requires b.Valid()
    modifies b, b.socket, b.getBuffer
    ensures b.Valid() && b.socket == old(b.socket) && b.getBuffer == old(b.getBuffer)
    ensures var e := InStep(old(b.SourceView()), op, old(b.socket.recvs));
            (b.SourceView(), waiting, delivered, b.socket.recvs) == (e.s, e.waiting, e.delivered, e.rest)
    ensures b.putBuffer == old(b.putBuffer)
    ensures b.SinkView() == old(b.SinkView()).(ec := b.ec, deadline := b.expiry)
    ensures b.socket.sends == old(b.socket.sends)
  {
    var c, status;
    match op {
      case Peek => c, status := b.Sgetc();
      case Bump => c, status := b.Sbumpc();
      case Refill => c, status := b.Underflow();
    }
    waiting := status == Waiting;
    delivered := if op.Bump? && c.Char? then [c.c] else "";
  }

  method ReplayIn(b: BasicSocketStreambuf, ops: seq<InOp>) returns (waiting: bool, delivered: string)
    requires b.Valid()
    modifies b, b.socket, b.getBuffer
    ensures b.Valid()
    ensures var e := InRun(old(b.SourceView()), ops, old(b.socket.recvs));
            (b.SourceView(), waiting, delivered) == (e.s, e.waiting, e.delivered)
    decreases |ops|
  {
    if ops == [] {
      return false, "";
    }
    waiting, delivered := PerformIn(b, ops[0]);
    if !waiting {
      var more;
      waiting, more := ReplayIn(b, ops[1..]);
      delivered := delivered + more;
    }
  }

  ghost function StreamView(b: BasicSocketStreambuf): (st: Stream)
    requires b.Valid()
    reads b, b.socket, b.putBuffer, b.getBuffer
    ensures st.Valid()
  {
    Stream(b.SinkView(), b.SourceView())
  }

  method PerformBoth(b: BasicSocketStreambuf, op: StreamOp)
    returns (waiting: bool, accepted: string, delivered: string)
    requires b.Valid()
    modifies b, b.socket, b.putBuffer, b.getBuffer
    ensures b.Valid() && b.socket == old(b.socket) && b.getBuffer == old(b.getBuffer)
    ensures b.putBuffer == old(b.putBuffer) || fresh(b.putBuffer)
    ensures var e := StreamStep(old(StreamView(b)), op, old(b.socket.sends), old(b.socket.recvs));
            && (StreamView(b), waiting, accepted, delivered) == (e.st, e.waiting, e.accepted, e.delivered)
            && (b.socket.sends, b.socket.recvs) == (e.sends, e.recvs)
  {
    accepted, delivered := "", "";
    match op
    case Write(out) => waiting, accepted := PerformOut(b, out);
    case Read(inp) => waiting, delivered := PerformIn(b, inp);
  }

  /** The object goes through any interleaving of reads and writes as specified. */
  method ReplayBoth(b: BasicSocketStreambuf, ops: seq<StreamOp>)
    returns (waiting: bool, accepted: string, delivered: string)
    requires b.Valid()
    modifies b, b.socket, b.putBuffer, b.getBuffer
    ensures b.Valid()
    ensures var e := StreamRun(old(StreamView(b)), ops, old(b.socket.sends), old(b.socket.recvs));
            (StreamView(b), waiting, accepted, delivered) == (e.st, e.waiting, e.accepted, e.delivered)
    decreases |ops|
  {
    if ops == [] {
      return false, "", "";
    }
    waiting, accepted, delivered := PerformBoth(b, ops[0]);
    if !waiting {
      var a, d;
      waiting, a, d := ReplayBoth(b, ops[1..]);
      accepted, delivered := accepted + a, delivered + d;
    }
  }
}
