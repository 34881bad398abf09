/**
 The stream buffer of asio/basic_streambuf.hpp as an object: a character array that is
 shifted and grown in place, and the six area pointers of std::streambuf, as offsets.
 Every operation is proved to act on the snapshot exactly as StreambufSpec says.
 */
module Streambuf {
  import opened Common
  import Spec = StreambufSpec
  import opened StreambufSpec

  class BasicStreambuf {
    const maxSize: nat
    var buffer: array<char>
    var capacity: nat
    // get area
    var eback: int
    var gptr: int
    var egptr: int
    // put area
    var pbase: int
    var pptr: int
    var epptr: int

    ghost predicate Valid()
      reads this, buffer
    {
      && 0 == eback <= gptr <= egptr <= pptr <= epptr <= maxSize
      && 0 <= pbase <= pptr
      && buffer.Length == Max(epptr, 1) <= capacity
    }

    ghost function View(): (s: Snapshot)
      requires Valid()
      reads this, buffer
      ensures s.Valid()
    {
      Snapshot(buffer[..], gptr, egptr, pptr, epptr, maxSize)
    }

    constructor (maximumSize: nat)
      ensures Valid() && fresh(buffer)
      ensures maxSize == maximumSize && View() == Initial(maximumSize)
    {
      var pend := Min(maximumSize, BUFFER_DELTA);
      maxSize := maximumSize;
      buffer := new char[Max(pend, 1)](_ => '\0');
      capacity := Max(pend, 1);
      eback, gptr, egptr := 0, 0, 0;
      pbase, pptr, epptr := 0, 0, pend;
      new;
      assert buffer[..] == Zeros(Max(pend, 1));
    }

    method Size() returns (n: nat)
      requires Valid()
      ensures n == |View().Input()|
    {
      n := pptr - gptr;
    }

    /** The input sequence as a range of the array. */
    method Data() returns (start: nat, n: nat)
      requires Valid()
      ensures start + n <= buffer.Length && buffer[start..start + n] == View().Input()
    {
      start, n := gptr, pptr - gptr;
    }

    /** `std::memmove` of `count` characters from `source` to the start of the array. */
    method MoveToStart(source: nat, count: nat)
      requires source + count <= buffer.Length
      modifies buffer
      ensures buffer[..] == old(buffer[source..source + count]) + old(buffer[count..])
    {
      var i := 0;
      while i < count
        invariant i <= count
        invariant forall j :: 0 <= j < i ==> buffer[j] == old(buffer[source + j])
        invariant forall j :: i <= j < buffer.Length ==> buffer[j] == old(buffer[j])
      {
        buffer[i] := buffer[source + i];
        i := i + 1;
      }
    }

    /** `vector::resize` to a larger size; how far the capacity outgrows it is the vector's choice. */
    method Resize(n: nat)
      requires buffer.Length <= n && buffer.Length <= capacity
      modifies this`buffer, this`capacity
      ensures fresh(buffer) && buffer[..] == Grown(old(buffer[..]), n)
      ensures n <= capacity
      ensures n <= old(capacity) ==> capacity == old(capacity)
    {
      var grown := new char[n](_ => '\0');
      forall i | 0 <= i < buffer.Length {
        grown[i] := buffer[i];
      }
      buffer := grown;
      if capacity < n {
        var larger: nat :| n <= larger;
        capacity := larger;
      }
    }

    /** Moves the unread characters to the start of the array, leaving the pointers alone,
        and returns the offset at which they now end. */
    method Compact() returns (pnext: nat)
      requires Valid()
      modifies buffer
      ensures pnext == pptr - gptr
      ensures buffer[..] == Shifted(old(buffer[..]), gptr, pptr)
    {
      var gnext := gptr;
      pnext := pptr;
      if gnext > 0 {
        pnext := pnext - gnext;
        MoveToStart(gnext, pnext);
      } else {
        assert buffer[..] == Shifted(buffer[..], 0, pnext);
      }
    }

    /** Returns false where the original throws `std::length_error`. */
    method Reserve(n: nat) returns (ok: bool)
      requires Valid()
      modifies this, buffer
      ensures Valid() && (buffer == old(buffer) || fresh(buffer))
      ensures old(capacity) <= capacity
      ensures View() == Spec.Reserve(old(View()), n).s
      ensures ok == Spec.Reserve(old(View()), n).Done?
    {
      var room: nat := epptr - pptr;
      if n <= room {
        return true;
      }
      ok := MakeRoom(n);
    }

    /** The part of `reserve` for a put area that is too small. The locals are natural
        numbers: none of the size_t subtractions wraps. */
    method MakeRoom(n: nat) returns (ok: bool)
      requires Valid() && epptr - pptr < n
      modifies this, buffer
      ensures Valid() && (buffer == old(buffer) || fresh(buffer))
      ensures old(capacity) <= capacity
      ensures View() == Spec.Reserve(old(View()), n).s
      ensures ok == Spec.Reserve(old(View()), n).Done?
    {
      var pend: nat := epptr;
      var pnext := Compact();
      var room: nat := pend - pnext;
      if n > room {
        if n <= maxSize && pnext <= maxSize - n {
          pend := pnext + n;
          Resize(Max(pend, 1));
        } else {
          return false;
        }
      }
      SetAreas(pnext, pend);
      return true;
    }

    /** `setg` and `setp` with the input at the start of the array. */
    method SetAreas(pnext: nat, pend: nat)
      requires pnext <= pend <= maxSize && buffer.Length == Max(pend, 1) <= capacity
      modifies this`eback, this`gptr, this`egptr, this`pbase, this`pptr, this`epptr
      ensures Valid() && View() == Snapshot(buffer[..], 0, pnext, pnext, pend, maxSize)
    {
      eback, gptr, egptr := 0, 0, pnext;
      pbase, pptr, epptr := pnext, pnext, pend;
    }

    /** The output range, or false with an unspecified range where the original throws. */
    method Prepare(n: nat) returns (ok: bool, start: nat, length: nat)
      requires Valid()
      modifies this, buffer
      ensures Valid() && (buffer == old(buffer) || fresh(buffer))
      ensures ok <==> |old(View().Input())| + n <= maxSize
      ensures View() == Spec.Reserve(old(View()), n).s
      ensures ok ==> start == pptr && length == n && start + length <= epptr
    {
      ReserveMeaning(View(), n);
      ok := Reserve(n);
      start, length := pptr, n;
    }

    /** Stores into the range that `Prepare` returned. */
    method FillOutput(data: string)
      requires Valid() && pptr + |data| <= epptr
      modifies buffer
      ensures Valid() && View() == Fill(old(View()), data)
    {
      forall i | 0 <= i < |data| {
        buffer[pptr + i] := data[i];
      }
      assert buffer[..] == Fill(old(View()), data).buf;
    }

    /** The distance goes through an int, so a move of more than INT_MAX lands elsewhere. */
    method Commit(n: nat)
      requires Valid()
      modifies this
      ensures buffer == old(buffer)
      ensures var k := Min(n, old(epptr - pptr));
              && pptr == egptr == old(pptr) + AsInt(k)
              && (k <= INT_MAX ==> Valid() && View() == Spec.Commit(old(View()), n))
    {
      var k := Min(n, epptr - pptr);
      AsIntExact(k);
      pptr := pptr + AsInt(k);
      egptr := pptr;
    }

    method Consume(n: nat)
      requires Valid()
      modifies this
      ensures buffer == old(buffer)
      ensures var k := Min(n, old(pptr - gptr));
              && gptr == old(gptr) + AsInt(k)
              && (k <= INT_MAX ==> Valid() && View() == Spec.Consume(old(View()), n))
    {
      if egptr < pptr {
        eback, egptr := 0, pptr;
      }
      var k := n;
      if gptr + k > pptr {
        k := pptr - gptr;
      }
      AsIntExact(k);
      gptr := gptr + AsInt(k);
    }

    method Underflow() returns (c: IntType)
      requires Valid()
      modifies this
      ensures Valid() && buffer == old(buffer)
      ensures View() == Spec.Underflow(old(View()))
      ensures c == if old(View()).Input() == "" then Eof else Char(old(View()).Input()[0])
    {
      if gptr < pptr {
        eback, egptr := 0, pptr;
        return Char(buffer[gptr]);
      }
      return Eof;
    }

    /** Stores into the put area and advances. */
    method PutNext(c: char)
      requires Valid() && pptr < epptr
      modifies this`pptr, buffer
      ensures Valid() && View() == PutChar(old(View()), c)
    {
      buffer[pptr] := c;
      pptr := pptr + 1;
    }

    /** Returns the character, something other than eof for eof, or ok == false for a throw. */
    method Overflow(c: IntType) returns (ok: bool, r: IntType)
      requires Valid()
      modifies this, buffer
      ensures Valid() && (buffer == old(buffer) || fresh(buffer))
      ensures c.Eof? ==> ok && r.Char? && View() == old(View())
      ensures c.Char? ==>
                && View() == Spec.Overflow(old(View()), c.c).s
                && ok == Spec.Overflow(old(View()), c.c).Done?
                && (ok ==> r == c)
    {
      if c.Eof? {
        return true, Char('\0');
      }
      if pptr == epptr {
        var size: nat := pptr - gptr;
        var request: nat := if size < maxSize && maxSize - size < BUFFER_DELTA then maxSize - size else BUFFER_DELTA;
        ok := Reserve(request);
        if !ok {
          return false, Eof;
        }
      }
      PutNext(c.c);
      return true, c;
    }

    /** `std::streambuf::sgetc`. */
    method Sgetc() returns (c: IntType)
      requires Valid()
      modifies this
      ensures Valid() && buffer == old(buffer)
      ensures (View(), c) == Peek(old(View()))
    {
      if gptr < egptr {
        return Char(buffer[gptr]);
      }
      c := Underflow();
    }

    /** `std::streambuf::sbumpc`, which goes through `uflow` when the get area is used up. */
    method Sbumpc() returns (c: IntType)
      requires Valid()
      modifies this
      ensures Valid() && buffer == old(buffer)
      ensures (View(), c) == Bump(old(View()))
    {
      if gptr < egptr {
        c, gptr := Char(buffer[gptr]), gptr + 1;
        return;
      }
      c := Underflow();
      if c.Char? {
        gptr := gptr + 1;
      }
    }

    /** `std::streambuf::sputc`. */
    method Sputc(c: char) returns (ok: bool)
      requires Valid()
      modifies this, buffer
      ensures Valid() && (buffer == old(buffer) || fresh(buffer))
      ensures View() == Spec.Overflow(old(View()), c).s
      ensures ok == Spec.Overflow(old(View()), c).Done?
    {
      if pptr < epptr {
        PutNext(c);
        return true;
      }
      var r;
      ok, r := Overflow(Char(c));
    }

    method ReadSizeHelper(limit: nat) returns (n: nat)
      requires Valid()
      ensures n == ReadSize(View(), capacity, limit)
      ensures ReadFits(View(), capacity, limit, n) && !ReadFits(View(), capacity, limit, n + 1)
    {
      n := Min(Max(512, capacity - (pptr - gptr)), Min(limit, maxSize - (pptr - gptr)));
    }
  }
}
