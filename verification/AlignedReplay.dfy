/**
 The memory object through whole runs, so that the theorem about what goes back to the
 underlying allocator holds of the object.
 */
module AlignedReplay {
  import opened Common
  import opened AlignedSpec
  import opened AlignedMemory

  /** Deallocation by whoever holds the block at p. */
  method GiveBack(h: HandlerMemory, p: nat) returns (freed: Option<(nat, nat)>)
    requires Good(h.View()) && p in h.blocks
    modifies h
    ensures Good(h.View()) && h.View() == Apply(old(h.View()), Deallocate(p))
    ensures var k := old(h.blocks)[p];
            freed == Some((k.base, k.Count()))
  {
    assert Hidden(h.View(), p, h.blocks[p]);
    DeallocateKeeps(h.View(), p);
    freed := h.Deallocate(p, h.blocks[p].size, h.blocks[p].align);
  }

  /** One operation on the object. */
  method Perform(h: HandlerMemory, op: Op)
    requires Good(h.View()) && Allowed(h.View(), op)
    modifies h
    ensures Good(h.View()) && h.View() == Apply(old(h.View()), op)
  {
    match op {
      case Allocate(size, align, base, garbage) =>
        var _ := h.Allocate(size, align, base, garbage);
      case Write(p, i, value) =>
        h.Write(p, i, value);
      case Deallocate(p) =>
        var _ := GiveBack(h, p);
      case OtherAllocate(base, garbage) =>
        OtherKeeps(h.View(), op);
        h.RawAllocate(base, garbage, |garbage|);
      case OtherFree(base) =>
        h.OtherFree(base);
    }
  }

  /** The object goes through any allowed run as specified. */
  method Replay(h: HandlerMemory, ops: seq<Op>)
    requires Good(h.View()) && AllAllowed(h.View(), ops)
    modifies h
    ensures h.View() == Run(old(h.View()), ops)
  {
    for k := 0 to |ops|
      invariant Good(h.View()) && AllAllowed(h.View(), ops[k..])
      invariant Run(h.View(), ops[k..]) == Run(old(h.View()), ops)
    {
      assert ops[k..][0] == ops[k] && ops[k..][1..] == ops[k + 1..];
      Perform(h, ops[k]);
    }
  }

  /** A run, and then the deallocation of a block that it leaves. */
  method ReplayThenGiveBack(h: HandlerMemory, ops: seq<Op>, p: nat) returns (freed: Option<(nat, nat)>)
    requires Good(h.View()) && AllAllowed(h.View(), ops) && p in Run(h.View(), ops).blocks
    modifies h
    ensures h.View() == Apply(Run(old(h.View()), ops), Deallocate(p))
    ensures var k := Run(old(h.View()), ops).blocks[p];
            freed == Some((k.base, k.Count()))
  {
    Replay(h, ops);
    freed := GiveBack(h, p);
  }

  /** An allocation that does not overflow. */
  method AllocateBlock(h: HandlerMemory, size: nat, align: nat, base: nat, garbage: seq<Byte>) returns (p: nat)
    requires Good(h.View()) && Allowed(h.View(), Allocate(size, align, base, garbage)) && !Overflows(size, align)
    modifies h
    ensures h.View() == Allocated(old(h.View()), size, align, base, garbage)
    ensures p == AlignUp(base, align)
  {
    var r := h.Allocate(size, align, base, garbage);
    p := r.value;
  }

  /** A block is allocated, the object goes through any run that does not free it, and the
      block is given back: the raw block it came from returns to the underlying allocator. */
  method RoundTrip(h: HandlerMemory, size: nat, align: nat, base: nat, garbage: seq<Byte>, ops: seq<Op>)
    returns (freed: Option<(nat, nat)>)
    requires Good(h.View()) && Allowed(h.View(), Allocate(size, align, base, garbage)) && !Overflows(size, align)
    requires Good(Allocated(h.View(), size, align, base, garbage))
    requires AllAllowed(Allocated(h.View(), size, align, base, garbage), ops)
    requires Deallocate(AlignUp(base, align)) !in ops
    modifies h
    ensures freed == Some((base, size + align - 1 + WORD))
    ensures var t := Run(Allocated(old(h.View()), size, align, base, garbage), ops);
            h.raw == t.raw - {base} && h.blocks == t.blocks - {AlignUp(base, align)}
  {
    ghost var t := Run(Allocated(h.View(), size, align, base, garbage), ops);
    BlockRoundTrip(h.View(), size, align, base, garbage, ops);
    assert t.blocks[AlignUp(base, align)] == Block(base, size, align);
    var p := AllocateBlock(h, size, align, base, garbage);
    freed := ReplayThenGiveBack(h, ops, p);
  }
}
