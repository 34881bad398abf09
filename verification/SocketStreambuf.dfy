/**
 The socket stream buffer of asio/basic_socket_streambuf.hpp as an object: two character
 arrays with the area pointers into them, an error code and an expiry time, over a socket.
 Its methods are proved against SocketSpec and ConnectSpec.
 */
module SocketStreambuf {
  import opened Common
  import Spec = SocketSpec
  import opened SocketSpec
  import opened ConnectSpec

  const MAX_EXPIRY := 0x7FFF_FFFF_FFFF_FFFF

  /** A native socket: what passed through it and what the system is going to answer. */
  class Socket {
    var wire: string
    var received: string
    var sends: seq<SendEvent>
    var recvs: seq<RecvEvent>

    /** `sends` and `recvs` are the answers that the system is going to give. */
    constructor (sends: seq<SendEvent>, recvs: seq<RecvEvent>)
      ensures wire == "" && received == "" && this.sends == sends && this.recvs == recvs
    {
      wire, received := "", "";
      this.sends, this.recvs := sends, recvs;
    }

    /** `socket_ops::send`: -1 with an error, or the number of characters taken. */
    method Send(output: string, e: SendEvent) returns (bytes: int, ec: ErrorCode)
      requires output != ""
      modifies this`wire
      ensures e.accepts > 0 ==>
                bytes == Min(e.accepts, |output|) && wire == old(wire) + output[..bytes] && ec == NoError
      ensures e.accepts == 0 ==> bytes == -1 && wire == old(wire) && ec == e.ec
    {
      if e.accepts > 0 {
        bytes, ec := Min(e.accepts, |output|), NoError;
        wire := wire + output[..bytes];
      } else {
        bytes, ec := -1, e.ec;
      }
    }

    /** `socket_ops::recv` into a[offset..]. */
    method Recv(a: array<char>, offset: nat, e: RecvEvent) returns (bytes: int, ec: ErrorCode)
      requires offset < a.Length
      modifies this`received, a
      ensures a[..offset] == old(a[..offset])
      ensures e.data != "" ==>
                && bytes == Min(|e.data|, a.Length - offset)
                && a[offset..offset + bytes] == e.data[..bytes]
                && received == old(received) + e.data[..bytes] && ec == NoError
      ensures e.data == "" ==>
                && bytes == (if e.closed then 0 else -1)
                && ec == (if e.closed then NoError else e.ec)
                && received == old(received) && a[..] == old(a[..])
    {
      if e.data == "" {
        return if e.closed then 0 else -1, if e.closed then NoError else e.ec;
      }
      bytes, ec := Min(|e.data|, a.Length - offset), NoError;
      forall i | 0 <= i < bytes {
        a[offset + i] := e.data[i];
      }
      received := received + e.data[..bytes];
    }
  }

  class BasicSocketStreambuf {
    var socket: Socket
    var getBuffer: array<char>
    var putBuffer: array<char>
    var eback: nat
    var gptr: nat
    var egptr: nat
    var pbase: nat
    var pptr: nat
    var epptr: nat
    var ec: ErrorCode
    var expiry: int

    ghost predicate Valid()
      reads this
    {
      && getBuffer.Length == BUFFER_SIZE
      && getBuffer != putBuffer
      && eback == 0 && PUTBACK_MAX <= gptr <= egptr <= BUFFER_SIZE
      && pbase <= pptr <= epptr == putBuffer.Length
      && (putBuffer.Length == 0 || putBuffer.Length == BUFFER_SIZE)
    }

    ghost function SinkView(): (k: Sink)
      requires Valid()
      reads this, socket, putBuffer
      ensures k.Valid() && k.Room() == epptr - pptr
    {
      Sink(putBuffer.Length != 0, pbase, putBuffer[pbase..pptr], socket.wire, ec, expiry)
    }

    ghost function SourceView(): (s: Source)
      requires Valid()
      reads this, socket, getBuffer
      ensures s.Valid()
    {
      Source(gptr, getBuffer[gptr..egptr], socket.received, ec, expiry)
    }

    /** A stream buffer without a connection, over a socket of its own. */
    constructor (sends: seq<SendEvent>, recvs: seq<RecvEvent>)
      ensures Valid() && fresh(socket) && fresh(getBuffer) && fresh(putBuffer)
      ensures SinkView() == Sink(true, 0, "", "", NoError, MAX_EXPIRY)
      ensures SourceView() == Source(PUTBACK_MAX, "", "", NoError, MAX_EXPIRY)
      ensures socket.sends == sends && socket.recvs == recvs
    {
      socket := new Socket(sends, recvs);
      getBuffer := new char[BUFFER_SIZE](_ => '\0');
      putBuffer := new char[BUFFER_SIZE](_ => '\0');
      eback, gptr, egptr := 0, PUTBACK_MAX, PUTBACK_MAX;
      pbase, pptr, epptr := 0, 0, BUFFER_SIZE;
      ec, expiry := NoError, MAX_EXPIRY;
    }

    /** A stream buffer that takes over a socket. */
    constructor FromSocket(s: Socket)
      ensures Valid() && socket == s && fresh(getBuffer) && fresh(putBuffer)
      ensures SinkView() == Sink(true, 0, "", s.wire, NoError, MAX_EXPIRY)
      ensures SourceView() == Source(PUTBACK_MAX, "", s.received, NoError, MAX_EXPIRY)
    {
      socket := s;
      getBuffer := new char[BUFFER_SIZE](_ => '\0');
      putBuffer := new char[BUFFER_SIZE](_ => '\0');
      eback, gptr, egptr := 0, PUTBACK_MAX, PUTBACK_MAX;
      pbase, pptr, epptr := 0, 0, BUFFER_SIZE;
      ec, expiry := NoError, MAX_EXPIRY;
    }

    method InitBuffers()
      requires getBuffer.Length == BUFFER_SIZE && getBuffer != putBuffer
      requires putBuffer.Length == 0 || putBuffer.Length == BUFFER_SIZE
      modifies this`eback, this`gptr, this`egptr, this`pbase, this`pptr, this`epptr
      ensures Valid()
      ensures gptr == egptr == PUTBACK_MAX && pbase == pptr == 0
    {
      eback, gptr, egptr := 0, PUTBACK_MAX, PUTBACK_MAX;
      if putBuffer.Length == 0 {
        pbase, pptr, epptr := 0, 0, 0;
      } else {
        pbase, pptr, epptr := 0, 0, putBuffer.Length;
      }
    }

    /** The loop of `underflow`: waits for characters and stores them from PUTBACK_MAX on. */
    method Receive() returns (bytes: nat, status: Status)
      requires getBuffer.Length == BUFFER_SIZE
      modifies this`ec, socket`recvs, socket`received, getBuffer
      ensures var r := RecvSome(expiry, old(ec), old(socket.recvs));
              && (|r.data|, r.status, r.ec, r.rest) == (bytes, status, ec, socket.recvs)
              && socket.received == old(socket.received) + r.data
              && getBuffer[PUTBACK_MAX..PUTBACK_MAX + bytes] == r.data
      ensures status != Completed ==>
                getBuffer[..] == old(getBuffer[..]) && socket.received == old(socket.received)
    {
      while true
        invariant getBuffer[..] == old(getBuffer[..])
        invariant socket.received == old(socket.received)
        invariant RecvSome(expiry, old(ec), old(socket.recvs)) == RecvSome(expiry, ec, socket.recvs)
        decreases |socket.recvs|
      {
        if socket.recvs == [] {
          return 0, Waiting;
        }
        var e := socket.recvs[0];
        socket.recvs := socket.recvs[1..];
        if expiry < e.now {
          ec := TimedOut;
          return 0, Failed;
        }
        var count;
        count, ec := socket.Recv(getBuffer, PUTBACK_MAX, e);
        if count > 0 {
          return count, Completed;
        }
        if count == 0 {
          ec := EndOfFile;
          return 0, Failed;
        }
        if ec != WouldBlock && ec != TryAgain {
          return 0, Failed;
        }
        ec := e.pollEc;
        if e.poll < 0 {
          return 0, Failed;
        }
      }
    }

    method Underflow() returns (c: IntType, status: Status)
      requires Valid()
      modifies this, socket, getBuffer
      ensures Valid() && socket == old(socket)
      ensures getBuffer == old(getBuffer) && putBuffer == old(putBuffer)
      ensures var r := Spec.Underflow(old(SourceView()), old(socket.recvs));
              (SourceView(), c, status, socket.recvs) == (r.s, r.ret, r.status, r.rest)
      ensures SinkView() == old(SinkView()).(ec := ec) && socket.sends == old(socket.sends)
    {
      if gptr != egptr {
        return Eof, Failed;
      }
      var bytes;
      bytes, status := Receive();
      if status != Completed {
        return Eof, status;
      }
      eback, gptr, egptr := 0, PUTBACK_MAX, PUTBACK_MAX + bytes;
      return Char(getBuffer[gptr]), Completed;
    }

    static lemma SentFurther(wire: string, payload: string, sent: nat, bytes: nat)
      requires sent + bytes <= |payload|
      ensures wire + payload[..sent] + payload[sent..][..bytes] == wire + payload[..sent + bytes]
      ensures payload[sent..][bytes..] == payload[sent + bytes..]
    {
      assert payload[..sent] + payload[sent..][..bytes] == payload[..sent + bytes];
    }

    /** The loop of `overflow`: sends all of `output`. */
    method Transmit(payload: string) returns (status: Status)
      modifies this`ec, socket`sends, socket`wire
      ensures var r := SendAll(|payload|, expiry, old(ec), old(socket.sends));
              && (r.status, r.ec, r.rest) == (status, ec, socket.sends)
              && socket.wire == old(socket.wire) + payload[..r.sent]
    {
      ghost var all := SendAll(|payload|, expiry, ec, socket.sends);
      ghost var sent := 0;
      var output := payload;
      while |output| > 0
        invariant sent + |output| == |payload| && output == payload[sent..]
        invariant socket.wire == old(socket.wire) + payload[..sent]
        invariant var r := SendAll(|output|, expiry, ec, socket.sends); all == r.(sent := sent + r.sent)
        decreases |socket.sends|
      {
        if socket.sends == [] {
          return Waiting;
        }
        var e := socket.sends[0];
        socket.sends := socket.sends[1..];
        if expiry < e.now {
          ec := TimedOut;
          return Failed;
        }
        var bytes;
        bytes, ec := socket.Send(output, e);
        if bytes > 0 {
          SentFurther(old(socket.wire), payload, sent, bytes);
          output := output[bytes..];
          sent := sent + bytes;
          continue;
        }
        if ec != WouldBlock && ec != TryAgain {
          return Failed;
        }
        ec := e.pollEc;
        if e.poll < 0 {
          return Failed;
        }
      }
      return Completed;
    }

    method Overflow(c: IntType) returns (ret: IntType, status: Status)
      requires Valid()
      modifies this, socket, putBuffer
      ensures Valid() && socket == old(socket)
      ensures getBuffer == old(getBuffer) && putBuffer == old(putBuffer)
      ensures status == Completed <==> ret.Char?
      ensures status == Completed && c.Char? ==> ret == c
      ensures var r := Spec.Overflow(old(SinkView()), c, old(socket.sends));
              (SinkView(), ret, status, socket.sends) == (r.k, r.ret, r.status, r.rest)
      ensures SourceView() == old(SourceView()).(ec := ec) && socket.recvs == old(socket.recvs)
    {
      var output: string;
      if putBuffer.Length == 0 {
        if c.Eof? {
          return NotEof(c), Completed;
        }
        output := [c.c];
      } else {
        output := putBuffer[pbase..pptr];
      }
      status := Transmit(output);
      if status != Completed {
        return Eof, status;
      }
      if putBuffer.Length != 0 {
        pbase, pptr, epptr := 0, 0, putBuffer.Length;
        if c.Eof? {
          return NotEof(c), Completed;
        }
        putBuffer[pptr] := c.c;
        pptr := pptr + 1;
        assert SinkView().pending == [c.c];
      }
      assert output[..|output|] == output;
      return c, Completed;
    }

    /** `std::streambuf::sputc`. */
    method Sputc(c: char) returns (ret: IntType, status: Status)
      requires Valid()
      modifies this, socket, putBuffer
      ensures Valid() && socket == old(socket)
      ensures getBuffer == old(getBuffer) && putBuffer == old(putBuffer)
      ensures ret == if status == Completed then Char(c) else Eof
      ensures var r := Spec.Sputc(old(SinkView()), c, old(socket.sends));
              (SinkView(), ret, status, socket.sends) == (r.k, r.ret, r.status, r.rest)
      ensures SourceView() == old(SourceView()).(ec := ec) && socket.recvs == old(socket.recvs)
    {
      if pptr < epptr {
        putBuffer[pptr] := c;
        pptr := pptr + 1;
        assert SinkView().pending == old(SinkView()).pending + [c];
        return Char(c), Completed;
      }
      ret, status := Overflow(Char(c));
    }

    /** `std::streambuf::sgetc`. */
    method Sgetc() returns (c: IntType, status: Status)
      requires Valid()
      modifies this, socket, getBuffer
      ensures Valid() && socket == old(socket)
      ensures getBuffer == old(getBuffer) && putBuffer == old(putBuffer)
      ensures var r := Spec.Sgetc(old(SourceView()), old(socket.recvs));
              (SourceView(), c, status, socket.recvs) == (r.s, r.ret, r.status, r.rest)
      ensures SinkView() == old(SinkView()).(ec := ec) && socket.sends == old(socket.sends)
    {
      if gptr < egptr {
        return Char(getBuffer[gptr]), Completed;
      }
      c, status := Underflow();
    }

    /** `std::streambuf::sbumpc`. */
    method Sbumpc() returns (c: IntType, status: Status)
      requires Valid()
      modifies this, socket, getBuffer
      ensures Valid() && socket == old(socket)
      ensures getBuffer == old(getBuffer) && putBuffer == old(putBuffer)
      ensures var r := Spec.Sbumpc(old(SourceView()), old(socket.recvs));
              (SourceView(), c, status, socket.recvs) == (r.s, r.ret, r.status, r.rest)
      ensures SinkView() == old(SinkView()).(ec := ec) && socket.sends == old(socket.sends)
    {
      c, status := Sgetc();
      if c.Char? {
        gptr := gptr + 1;
      }
    }

    method Sync() returns (ret: IntType, status: Status)
      requires Valid()
      modifies this, socket, putBuffer
      ensures Valid() && socket == old(socket)
      ensures getBuffer == old(getBuffer) && putBuffer == old(putBuffer)
      ensures status == Completed <==> ret.Char?
      ensures var r := Spec.Overflow(old(SinkView()), Eof, old(socket.sends));
              (SinkView(), ret, status, socket.sends) == (r.k, r.ret, r.status, r.rest)
      ensures SourceView() == old(SourceView()).(ec := ec) && socket.recvs == old(socket.recvs)
    {
      ret, status := Overflow(Eof);
    }

    /** The destructor, which flushes only when there is something to flush. */
    method Destroy() returns (status: Status)
      requires Valid()
      modifies this, socket, putBuffer
      ensures socket == old(socket)
      ensures var r := Spec.Overflow(old(SinkView()), Eof, old(socket.sends));
              status == r.status && socket.wire == r.k.wire
    {
      if pptr != pbase {
        var ret;
        ret, status := Overflow(Eof);
      } else {
        status := Completed;
        assert socket.wire + "" == socket.wire;
      }
    }

    /** `unbuffer` says that both arguments of the original are 0. */
    method Setbuf(unbuffer: bool) returns (ok: bool)
      requires Valid()
      modifies this, socket, putBuffer
      ensures Valid() && socket == old(socket)
      ensures getBuffer == old(getBuffer) && (putBuffer == old(putBuffer) || fresh(putBuffer))
      ensures (SinkView(), ok) == Spec.Setbuf(old(SinkView()), unbuffer)
      ensures ok <==> unbuffer && old(SinkView()).pending == ""
      ensures SourceView() == old(SourceView())
      ensures socket.sends == old(socket.sends) && socket.recvs == old(socket.recvs)
    {
      if pptr == pbase && unbuffer {
        putBuffer := new char[0];
        pbase, pptr, epptr := 0, 0, 0;
        var ret, status := Sync();
        return true;
      }
      return false;
    }

    /** `closeEc` is what closing the socket answers. Returns false for a null pointer. */
    method CloseStream(closeEc: ErrorCode) returns (ok: bool, status: Status)
      requires Valid()
      modifies this, socket, putBuffer
      ensures Valid() && socket == old(socket)
      ensures getBuffer == old(getBuffer) && putBuffer == old(putBuffer)
      ensures var r := Spec.Close(old(SinkView()), old(socket.sends), closeEc);
              && (SinkView(), status, socket.sends) == (r.k, r.status, r.rest)
              && ok == r.ret.Char?
      ensures SourceView() == if ok then ResetSource(old(SourceView())).(ec := ec)
                              else old(SourceView()).(ec := ec)
      ensures socket.recvs == old(socket.recvs)
    {
      var ret;
      ret, status := Sync();
      if status == Waiting {
        return false, Waiting;
      }
      ec := closeEc;
      if ec == NoError {
        InitBuffers();
      }
      return ec == NoError, Completed;
    }

    /** The state a move leaves its source in, given the buffers it gets in exchange. */
    method Abandon(spareGet: array<char>, sparePut: array<char>)
      requires spareGet.Length == BUFFER_SIZE && spareGet != sparePut
      modifies this
      ensures Valid() && fresh(socket)
      ensures getBuffer == spareGet && (putBuffer == sparePut || fresh(putBuffer))
      ensures SinkView() == Sink(true, 0, "", "", NoError, MAX_EXPIRY)
      ensures SourceView() == Source(PUTBACK_MAX, "", "", NoError, MAX_EXPIRY)
    {
      socket := new Socket([], []);
      getBuffer, putBuffer := spareGet, sparePut;
      ec, expiry := NoError, MAX_EXPIRY;
      if putBuffer.Length != BUFFER_SIZE {
        putBuffer := new char[BUFFER_SIZE](_ => '\0');
      }
      InitBuffers();
    }

    /** Move construction: the new object starts with buffers of its own and swaps them in. */
    constructor MoveFrom(other: BasicSocketStreambuf)
      requires other.Valid()
      modifies other
      ensures Valid() && other.Valid() && Separate(other)
      ensures socket == old(other.socket) && fresh(other.socket)
      ensures getBuffer == old(other.getBuffer) && fresh(other.getBuffer)
      ensures putBuffer == old(other.putBuffer) && fresh(other.putBuffer)
      ensures SinkView() == MovedSink(old(other.SinkView()))
      ensures SourceView() == old(other.SourceView())
      ensures other.SinkView() == Sink(true, 0, "", "", NoError, MAX_EXPIRY)
      ensures other.SourceView() == Source(PUTBACK_MAX, "", "", NoError, MAX_EXPIRY)
    {
      socket := other.socket;
      ec, expiry := other.ec, other.expiry;
      getBuffer, putBuffer := other.getBuffer, other.putBuffer;
      eback, gptr, egptr := other.eback, other.gptr, other.egptr;
      pbase, pptr, epptr := other.pptr, other.pptr, other.epptr;
      new;
      var spareGet := new char[BUFFER_SIZE](_ => '\0');
      var sparePut := new char[BUFFER_SIZE](_ => '\0');
      other.Abandon(spareGet, sparePut);
    }

    /** Takes over the socket, the buffers and the areas of `other`; pbase becomes its pptr. */
    method Adopt(other: BasicSocketStreambuf)
      requires other.Valid() && other != this
      modifies this
      ensures Valid() && socket == other.socket
      ensures getBuffer == other.getBuffer && putBuffer == other.putBuffer
      ensures SinkView() == MovedSink(other.SinkView())
      ensures SourceView() == other.SourceView()
    {
      socket, ec, expiry := other.socket, other.ec, other.expiry;
      getBuffer, putBuffer := other.getBuffer, other.putBuffer;
      eback, gptr, egptr := other.eback, other.gptr, other.egptr;
      pbase, pptr, epptr := other.pptr, other.pptr, other.epptr;
    }

    /** What move assignment does once the target is closed: the two swap their buffers. */
    method TakeFrom(other: BasicSocketStreambuf)
      requires Valid() && other.Valid() && other != this && Separate(other)
      modifies this, other
      ensures Valid() && other.Valid() && Separate(other)
      ensures socket == old(other.socket) && fresh(other.socket)
      ensures SinkView() == MovedSink(old(other.SinkView()))
      ensures SourceView() == old(other.SourceView())
      ensures other.SinkView() == Sink(true, 0, "", "", NoError, MAX_EXPIRY)
      ensures other.SourceView() == Source(PUTBACK_MAX, "", "", NoError, MAX_EXPIRY)
    {
      var spareGet, sparePut := getBuffer, putBuffer;
      Adopt(other);
      assert SinkView() == MovedSink(old(other.SinkView()));
      other.Abandon(spareGet, sparePut);
    }

    /** The same for assignment to itself: the socket, whose own assignment is guarded, stays;
        the swaps do nothing; and the object is reset like any source of a move. */
    method TakeFromSelf()
      requires Valid()
      modifies this
      ensures Valid() && socket == old(socket)
      ensures SinkView() == Sink(true, 0, "", socket.wire, NoError, MAX_EXPIRY)
      ensures SourceView() == Source(PUTBACK_MAX, "", socket.received, NoError, MAX_EXPIRY)
    {
      pbase := pptr;
      ec, expiry := NoError, MAX_EXPIRY;
      if putBuffer.Length != BUFFER_SIZE {
        putBuffer := new char[BUFFER_SIZE](_ => '\0');
      }
      InitBuffers();
    }

    /** Two stream buffers share neither their socket nor a buffer. */
    ghost predicate Separate(other: BasicSocketStreambuf)
      reads this, other
    {
      socket != other.socket && {getBuffer, putBuffer} !! {other.getBuffer, other.putBuffer}
    }

    /** Move assignment. The target is closed first, which drops what a failed flush leaves
        pending; `closeEc` is what closing its socket answers. */
    method MoveAssign(other: BasicSocketStreambuf, closeEc: ErrorCode) returns (status: Status)
      requires Valid() && other.Valid()
      requires other != this ==> Separate(other)
      modifies this, socket, putBuffer, other
      ensures Valid() && other.Valid()
      ensures other != this ==> Separate(other)
      ensures status == Spec.Close(old(SinkView()), old(socket.sends), closeEc).status
      ensures old(socket).wire == Spec.Close(old(SinkView()), old(socket.sends), closeEc).k.wire
      ensures status == Waiting && other != this ==>
                other.SinkView() == old(other.SinkView()) && other.SourceView() == old(other.SourceView())
      ensures status != Waiting && other != this ==>
                && socket == old(other.socket) && fresh(other.socket)
                && SinkView() == MovedSink(old(other.SinkView()))
                && SourceView() == old(other.SourceView())
                && other.SinkView() == Sink(true, 0, "", "", NoError, MAX_EXPIRY)
                && other.SourceView() == Source(PUTBACK_MAX, "", "", NoError, MAX_EXPIRY)
      ensures status != Waiting && other == this ==>
                && socket == old(socket)
                && SinkView() == Sink(true, 0, "", socket.wire, NoError, MAX_EXPIRY)
                && SourceView() == Source(PUTBACK_MAX, "", old(socket.received), NoError, MAX_EXPIRY)
    {
      var ok;
      ok, status := CloseStream(closeEc);
      if other != this {
        assert other.SinkView() == old(other.SinkView());
        assert other.SourceView() == old(other.SourceView());
      }
      if status != Waiting {
        if other != this {
          TakeFrom(other);
        } else {
          TakeFromSelf();
        }
      }
    }

    /** The loop over the endpoints, one event for each. `tried` lists the endpoints for which
        the socket was closed and reopened, `last` is the last one whose open succeeded. */
    method ConnectToEndpoints(es: seq<ConnectEvent>) returns (tried: seq<nat>, last: Option<nat>)
      modifies this`ec
      ensures old(ec) != NoError ==> ec == old(ec) && tried == [] && last == None
      ensures old(ec) == NoError ==>
                && ec == ConnectAll(es, expiry).ec
                && tried == seq(ConnectAll(es, expiry).attempts, i => i)
      ensures old(ec) == NoError ==>
                forall codes: seq<ErrorCode> :: AllGivenUp(es, expiry, codes) ==>
                  EndsWith(es, expiry, codes, Outcome(ec, |tried|))
      ensures old(ec) == NoError && AllSound(es) ==>
                forall i: nat :: FirstConnected(es, expiry, i) ==> last == Some(i)
    {
      forall codes: seq<ErrorCode> | AllGivenUp(es, expiry, codes)
        ensures EndsWith(es, expiry, codes, ConnectAll(es, expiry))
      {
        ConnectOutcome(es, expiry, codes);
      }
      tried, last := [], None;
      if ec != NoError {
        return;
      }
      ec := NotFound;
      var n := 0;
      while n < |es|
        invariant n <= |es|
        invariant forall j :: 0 <= j < n ==> Judge(es[j], expiry).Refused?
        invariant tried == seq(n, i => i)
        invariant ec == if n == 0 then NotFound else Judge(es[n - 1], expiry).ec
      {
        var e := es[n];
        if expiry < e.now {
          ec := TimedOut;
          return;
        }
        tried := tried + [n];
        ec := e.openEc;
        n := n + 1;
        if ec != NoError {
          continue;
        }
        last := Some(n - 1);
        ec := e.connectEc;
        if ec == NoError {
          return;
        }
        if ec != InProgress && ec != WouldBlock {
          continue;
        }
        ec := e.pollEc;
        if e.poll < 0 {
          continue;
        }
        if e.queryFails {
          ec := e.queryEc;
          return;
        }
        ec := e.soError;
        if ec == NoError {
          return;
        }
      }
    }

    /** Connect to one endpoint: both areas are reset, so pending output is dropped. */
    method Connect(e: ConnectEvent) returns (ok: bool)
      requires Valid()
      modifies this
      ensures Valid() && socket == old(socket)
      ensures getBuffer == old(getBuffer) && putBuffer == old(putBuffer)
      ensures ok == ec.NoError? && ec == ConnectAll([e], expiry).ec && expiry == old(expiry)
      ensures e.Sound() ==> (ok <==> Succeeds(e, expiry))
      ensures expiry < e.now ==> ec == TimedOut && !ok
      ensures SinkView() == ResetSink(old(SinkView())).(ec := ec)
      ensures SourceView() == ResetSource(old(SourceView())).(ec := ec)
    {
      InitBuffers();
      ec := NoError;
      var tried, last := ConnectToEndpoints([e]);
      if e.Sound() { RefusalIsAnError(e, expiry); }
      return ec == NoError;
    }
  }
}
