/**
 `allocate` and `deallocate` of asio/any_completion_handler.hpp, over a memory whose raw
 blocks come from the handler's associated allocator.
 */
module AlignedMemory {
  import opened Common
  import Spec = AlignedSpec
  import opened AlignedSpec

  class HandlerMemory {
    var bytes: nat -> Byte
    var raw: map<nat, nat>
    var blocks: map<nat, Block> // what the callers hold

    ghost function View(): Memory
      reads this
    {
      Memory(bytes, raw, blocks)
    }

    constructor ()
      ensures Good(View()) && raw == map[] && blocks == map[]
    {
      bytes, raw, blocks := _ => 0, map[], map[];
    }

    /** `base` is where the underlying allocator puts the raw block and `garbage` what it
        holds. Returns None for bad_alloc, with the raw block still taken. Where the trailer
        overflows it lands outside the raw block, and nothing is promised about the rest. */
    method Allocate(size: nat, align: nat, base: nat, garbage: seq<Byte>) returns (p: Option<nat>)
      requires Good(View()) && Accepted(View(), size, align, base, garbage)
      modifies this
      ensures View() == AfterAllocate(old(View()), size, align, base, garbage)
      ensures Good(View()) <== !TrailerOverflows(size, align)
      ensures p == if Overflows(size, align) then None else Some(AlignUp(base, align))
      ensures p.Some? ==> p.value % align == 0 && base <= p.value
      ensures p.Some? ==> (p.value + size + WORD <= base + raw[base] <==> !TrailerOverflows(size, align))
      ensures p.None? ==> raw == old(raw)[base := |garbage|] && blocks == old(blocks)
    {
      var space := Wrap(size + align - 1);
      RawAllocate(base, garbage, Wrap(space + WORD));
      p := StdAlign(align, size, base, space);
      BadAllocIff(size, align, base);
      AlignUpAligned(base, align);
      if p.Some? {
        var off := p.value - base;
        bytes := Store(bytes, p.value + size, Encode(off, WORD));
        blocks := blocks[p.value := Block(base, size, align)];
        assert View() == Allocated(old(View()), size, align, base, garbage);
        TrailerFitsIff(size, align, base);
        if !TrailerOverflows(size, align) {
          AllocateKeeps(old(View()), size, align, base, garbage);
        }
      } else {
        assert View() == Taken(old(View()), base, garbage);
        TakenKeeps(old(View()), base, garbage);
      }
    }

    /** `any_completion_handler_allocator<T>::allocate`: throws (None) exactly when the handler
        it was obtained from has no function table, and then takes no raw block. */
    method AllocateObjects(hasTable: bool, sizeOf: nat, align: nat, count: nat, base: nat, garbage: seq<Byte>)
      returns (p: Option<nat>)
      requires ValueType(sizeOf, align) && Good(View())
      requires hasTable ==> Accepted(View(), Wrap(sizeOf * count), align, base, garbage)
      modifies this
      ensures p.Some? <==> hasTable
      ensures !hasTable ==> View() == old(View())
      ensures hasTable ==> p.value % align == 0
      ensures hasTable ==> View() == AfterAllocate(old(View()), Wrap(sizeOf * count), align, base, garbage)
      ensures Good(View()) <== !TrailerOverflows(Wrap(sizeOf * count), align)
      ensures hasTable ==>
                (p.value + sizeOf * count <= base + raw[base]
                 <==> sizeOf * count + align - 1 + WORD < ADDRESS_LIMIT)
    {
      if hasTable {
        p := Allocate(Wrap(sizeOf * count), align, base, garbage);
        AllocatorNeverOverflows(sizeOf, align, count, base);
        AllocatorRoomIff(sizeOf, align, count, base);
      } else {
        p := None;
      }
    }

    /** The underlying allocator's `allocate`. */
    method RawAllocate(base: nat, garbage: seq<Byte>, count: nat)
      requires |garbage| == count
      modifies this`bytes, this`raw
      ensures bytes == Store(old(bytes), base, garbage) && raw == old(raw)[base := count]
    {
      bytes := Store(bytes, base, garbage);
      raw := raw[base := count];
    }

    /** A caller's write to byte i of its block. */
    method Write(p: nat, i: nat, value: Byte)
      requires Good(View()) && Allowed(View(), Spec.Write(p, i, value))
      modifies this`bytes
      ensures Good(View()) && View() == Apply(old(View()), Spec.Write(p, i, value))
    {
      WriteKeeps(View(), p, i, value);
      bytes := Store(bytes, p + i, [value]);
    }

    /** The underlying allocator's `deallocate`, called by its other users. */
    method OtherFree(base: nat)
      requires Good(View()) && Allowed(View(), Spec.OtherFree(base))
      modifies this`raw
      ensures Good(View()) && View() == Apply(old(View()), Spec.OtherFree(base))
    {
      OtherKeeps(View(), Spec.OtherFree(base));
      raw := raw - {base};
    }

    /** Returns what goes back to the underlying allocator; nothing does for a null pointer. */
    method Deallocate(p: nat, size: nat, align: nat) returns (freed: Option<(nat, nat)>)
      requires Good(View())
      requires p != 0 ==> p in blocks && blocks[p].size == size && blocks[p].align == align
      modifies this
      ensures Good(View())
      ensures p == 0 ==> freed == None && View() == old(View())
      ensures p != 0 ==>
                && freed == Some((old(blocks)[p].base, old(raw)[old(blocks)[p].base]))
                && raw == old(raw) - {old(blocks)[p].base} && blocks == old(blocks) - {p}
                && bytes == old(bytes)
    {
      if p == 0 {
        return None;
      }
      DeallocateKeeps(View(), p);
      freed := Free(p, size, align);
    }

    /** The part of `deallocate` for a pointer that is not null. */
    method Free(p: nat, size: nat, align: nat) returns (freed: Option<(nat, nat)>)
      requires Good(View()) && p in blocks && blocks[p].size == size && blocks[p].align == align
      modifies this`raw, this`blocks
      ensures freed == Some((old(blocks)[p].base, old(raw)[old(blocks)[p].base]))
      ensures View() == Memory(bytes, old(raw) - {old(blocks)[p].base}, old(blocks) - {p})
    {
      BaseRecovered(View(), p);
      var off := Decode(Load(bytes, p + size, WORD));
      var base := p - off;
      assert base == FoundBase(View(), p, size);
      freed := Some((base, size + align - 1 + WORD));
      raw, blocks := raw - {base}, blocks - {p};
    }
  }
}
