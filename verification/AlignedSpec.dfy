/**
 Over-aligned allocation in asio/any_completion_handler.hpp: `allocate` hides the distance
 from the raw block to the aligned one behind the user's bytes, and `deallocate` reads it
 back. Memory is one flat space of bytes, in which a raw block is a range.
 */
module AlignedSpec {
  import opened Common

  const WORD := 8 // sizeof(std::ptrdiff_t)
  const ADDRESS_LIMIT := 0x1_0000_0000_0000_0000

  // ----- Alignment -----

  /** The first multiple of `align` at or after `a`. */
  function AlignUp(a: nat, align: nat): (p: nat)
    requires align >= 1
    ensures a <= p < a + align
  {
    if a % align == 0 then a else a + (align - a % align)
  }

  lemma AlignUpAligned(a: nat, align: nat)
    requires align >= 1
    ensures AlignUp(a, align) % align == 0
  {
    var q, d := a / align, a % align;
    assert a == align * q + d;
    if d != 0 {
      assert a + (align - d) == align * (q + 1);
      MultipleMod(align, q + 1);
    }
  }

  lemma MultipleMod(n: nat, q: nat)
    requires n >= 1
    ensures (n * q) % n == 0
  {
    var p, r := n * q / n, n * q % n;
    assert n * q == n * p + r;
    assert n * (q - p) == r;
    if q > p {
      AtLeastOnce(n, q - p);
    } else if q < p {
      AtLeastOnce(n, p - q);
    }
  }

  lemma AtLeastOnce(n: nat, k: nat)
    requires k >= 1
    ensures n * k >= n
  {
  }

  /** std::align, 20.6.5 of ISO/IEC 14882:2011: the aligned pointer, if size bytes still fit. */
  function StdAlign(align: nat, size: nat, ptr: nat, space: nat): (r: Option<nat>)
    requires align >= 1
  {
    var p := AlignUp(ptr, align);
    if size + (p - ptr) > space then None else Some(p)
  }

  function Wrap(n: nat): nat { n % ADDRESS_LIMIT }

  /** `size + align - 1` and the raw request, as size_t computes them. */
  function Space(size: nat, align: nat): nat
    requires align >= 1
  {
    Wrap(size + align - 1)
  }

  function Request(size: nat, align: nat): nat
    requires align >= 1
  {
    Wrap(Space(size, align) + WORD)
  }

  /** `size + align - 1` does not fit a size_t. */
  predicate Overflows(size: nat, align: nat) { size + align - 1 >= ADDRESS_LIMIT }

  /** It does, but not with the size of the trailer added: the raw block is then smaller than
      the trailer that is written far behind it (TrailerFitsIff). */
  predicate TrailerOverflows(size: nat, align: nat) {
    !Overflows(size, align) && size + align - 1 + WORD >= ADDRESS_LIMIT
  }

  /** The bad_alloc path is taken exactly when `size + align - 1` overflows, wherever the
      raw block lies. */
  lemma BadAllocIff(size: nat, align: nat, base: nat)
    requires 1 <= align < ADDRESS_LIMIT && size < ADDRESS_LIMIT
    ensures StdAlign(align, size, base, Space(size, align)).None? <==> Overflows(size, align)
  {
    if size + align - 1 >= ADDRESS_LIMIT {
      assert Space(size, align) == size + align - 1 - ADDRESS_LIMIT;
    }
  }

  /** When it is not taken, the user's bytes and the trailer lie in the raw block exactly
      when adding the trailer's size does not overflow either. */
  lemma TrailerFitsIff(size: nat, align: nat, base: nat)
    requires 1 <= align && size + align - 1 < ADDRESS_LIMIT
    ensures StdAlign(align, size, base, Space(size, align)).Some?
    ensures var p := StdAlign(align, size, base, Space(size, align)).value;
            && p % align == 0 && base <= p < base + align
            && (p + size + WORD <= base + Request(size, align)
                <==> size + align - 1 + WORD < ADDRESS_LIMIT)
  {
    AlignUpAligned(base, align);
    WrappedRequest(size, align);
  }

  lemma WrappedRequest(size: nat, align: nat)
    requires 1 <= align && size + align - 1 < ADDRESS_LIMIT
    ensures Space(size, align) == size + align - 1
    ensures Request(size, align) == if size + align - 1 + WORD < ADDRESS_LIMIT then size + align - 1 + WORD
                                    else size + align - 1 + WORD - ADDRESS_LIMIT
  {
  }

  // ----- What the allocator passes -----

  /** Size and alignment of a value type: alignments are powers of two, and an object of an
      array is followed by the next one. */
  predicate ValueType(sizeOf: nat, align: nat) {
    1 <= align < ADDRESS_LIMIT && sizeOf % align == 0 && ADDRESS_LIMIT % align == 0
  }

  /** `sizeof(T) * n`, as size_t computes it, is a multiple of the alignment, wrapped or not. */
  lemma WrappedProduct(sizeOf: nat, align: nat, count: nat)
    requires ValueType(sizeOf, align)
    ensures Wrap(sizeOf * count) % align == 0
    ensures Wrap(sizeOf * count) + align <= ADDRESS_LIMIT
    ensures align + align <= ADDRESS_LIMIT
  {
    var a, c, q := sizeOf / align, ADDRESS_LIMIT / align, sizeOf * count / ADDRESS_LIMIT;
    WrapFactors(align, a * count, c, q, sizeOf * count);
    LessMultiple(align, a * count - c * q, c);
    MultipleMod(align, a * count - c * q);
    LessMultiple(align, 1, c);
  }

  lemma WrapFactors(align: nat, a: nat, c: nat, q: nat, product: nat)
    requires align >= 1 && product == align * a && ADDRESS_LIMIT == align * c
    requires q == product / ADDRESS_LIMIT
    ensures a - c * q >= 0 && Wrap(product) == align * (a - c * q)
  {
    assert product == ADDRESS_LIMIT * q + Wrap(product);
    assert ADDRESS_LIMIT * q == align * (c * q);
    assert Wrap(product) == align * (a - c * q);
  }

  lemma LessMultiple(n: nat, k: int, l: int)
    requires n * k < n * l
    ensures n * k + n <= n * l
  {
    assert n * l == n * k + n * (l - k);
    AtLeastOnce(n, l - k);
  }

  /** No call of `any_completion_handler_allocator<T>::allocate` takes the bad_alloc path of
      `allocate`, however many objects are asked for. */
  lemma AllocatorNeverOverflows(sizeOf: nat, align: nat, count: nat, base: nat)
    requires ValueType(sizeOf, align)
    ensures var size := Wrap(sizeOf * count);
            !Overflows(size, align) && StdAlign(align, size, base, Space(size, align)).Some?
  {
    WrappedProduct(sizeOf, align, count);
    BadAllocIff(Wrap(sizeOf * count), align, base);
  }

  /** The pointer it returns has room for that many objects in its raw block exactly when
      neither the product nor the sums with the alignment and the trailer wrap around. */
  lemma AllocatorRoomIff(sizeOf: nat, align: nat, count: nat, base: nat)
    requires ValueType(sizeOf, align)
    ensures var size := Wrap(sizeOf * count);
            && StdAlign(align, size, base, Space(size, align)).Some?
            && var p := StdAlign(align, size, base, Space(size, align)).value;
            && p % align == 0
            && (p + sizeOf * count <= base + Request(size, align)
                <==> sizeOf * count + align - 1 + WORD < ADDRESS_LIMIT)
            && (p + sizeOf * count + WORD <= base + Request(size, align)
                <==> sizeOf * count + align - 1 + WORD < ADDRESS_LIMIT)
  {
    WrappedProduct(sizeOf, align, count);
    TrailerFitsIff(Wrap(sizeOf * count), align, base);
    RoomForProduct(sizeOf * count, align, AlignUp(base, align) - base);
  }

  lemma RoomForProduct(product: nat, align: nat, off: nat)
    requires 1 <= align && align + align <= ADDRESS_LIMIT && off < align
    requires Wrap(product) + align <= ADDRESS_LIMIT
    ensures off + product <= Request(Wrap(product), align) <==> product + align - 1 + WORD < ADDRESS_LIMIT
    ensures off + product + WORD <= Request(Wrap(product), align) <==> product + align - 1 + WORD < ADDRESS_LIMIT
  {
    WrappedRequest(Wrap(product), align);
  }

  /** Asked for 2^64 - 4 characters, it returns a pointer into a raw block of four bytes,
      behind which the trailer is written. */
  lemma TrailerOutside(base: nat)
    ensures ValueType(1, 1)
    ensures var size := ADDRESS_LIMIT - 4;
            && Wrap(1 * size) == size && TrailerOverflows(size, 1)
            && StdAlign(1, size, base, Space(size, 1)) == Some(base)
            && Request(size, 1) == 4 && base + size >= base + Request(size, 1)
  {
    WrappedRequest(ADDRESS_LIMIT - 4, 1);
  }

  // ----- The trailer -----

  type Byte = b: nat | b < 256

  function Encode(n: nat, width: nat): (s: seq<Byte>)
    ensures |s| == width
  {
    if width == 0 then [] else [n % 256] + Encode(n / 256, width - 1)
  }

  function Decode(s: seq<Byte>): nat {
    if s == [] then 0 else s[0] + 256 * Decode(s[1..])
  }

  function Power256(k: nat): nat {
    if k == 0 then 1 else 256 * Power256(k - 1)
  }

  /** What `memcpy` stores is what `memcpy` reads back. */
  lemma {:induction false} TrailerRoundTrip(n: nat, width: nat)
    requires n < Power256(width)
    ensures Decode(Encode(n, width)) == n
  {
    if width > 0 {
      TrailerRoundTrip(n / 256, width - 1);
      assert Encode(n, width)[1..] == Encode(n / 256, width - 1);
    }
  }

  lemma WordHoldsOffsets()
    ensures Power256(WORD) == ADDRESS_LIMIT
  {
    assert Power256(2) == 0x1_0000;
    assert Power256(4) == 0x1_0000_0000;
    assert Power256(6) == 0x1_0000_0000_0000;
  }

  // ----- Memory -----

  /** What the caller of `allocate` knows about a block, and (for the proof) its raw base. */
  datatype Block = Block(base: nat, size: nat, align: nat) {
    function Count(): nat { size + align + WORD - 1 }
  }

  /** `raw` maps the base of every raw block to its byte count; `blocks` maps the pointers
      that `allocate` returned and nobody gave back. */
  datatype Memory = Memory(bytes: nat -> Byte, raw: map<nat, nat>, blocks: map<nat, Block>)

  predicate Apart(b1: nat, n1: nat, b2: nat, n2: nat) { b1 + n1 <= b2 || b2 + n2 <= b1 }

  function Load(bytes: nat -> Byte, from: nat, n: nat): (s: seq<Byte>)
    ensures |s| == n && forall i :: 0 <= i < n ==> s[i] == bytes(from + i)
  {
    seq(n, i requires 0 <= i < n => bytes(from + i))
  }

  function Store(bytes: nat -> Byte, from: nat, s: seq<Byte>): (r: nat -> Byte)
    ensures forall a: nat :: r(a) == if from <= a < from + |s| then s[a - from] else bytes(a)
  {
    (a: nat) => if from <= a < from + |s| then s[a - from] else bytes(a)
  }

  /** Raw blocks are apart from each other. */
  ghost predicate RawApart(raw: map<nat, nat>) {
    forall b, c :: b in raw && c in raw && b != c ==> Apart(b, raw[b], c, raw[c])
  }

  /** The block at p lies in its raw block, with the trailer behind it. */
  ghost predicate Hidden(m: Memory, p: nat, k: Block) {
    && k.align >= 1 && k.Count() < ADDRESS_LIMIT && k.base > 0
    && k.base in m.raw && m.raw[k.base] == k.Count()
    && k.base <= p < k.base + k.align && p % k.align == 0
    && Load(m.bytes, p + k.size, WORD) == Encode(p - k.base, WORD)
  }

  ghost predicate Good(m: Memory) {
    && RawApart(m.raw)
    && (forall p :: p in m.blocks ==> Hidden(m, p, m.blocks[p]))
    && (forall p, q :: p in m.blocks && q in m.blocks && p != q ==> m.blocks[p].base != m.blocks[q].base)
  }

  /** Room for n bytes at a base that the underlying allocator may hand out: not null, not in
      use, and apart from every block that is. */
  ghost predicate Unused(m: Memory, base: nat, n: nat) {
    base > 0 && base !in m.raw && forall b :: b in m.raw ==> Apart(base, n, b, m.raw[b])
  }

  datatype Op =
    | Allocate(size: nat, align: nat, base: nat, garbage: seq<Byte>)
    | Write(p: nat, i: nat, value: Byte)
    | Deallocate(p: nat)
    | OtherAllocate(base: nat, garbage: seq<Byte>)
    | OtherFree(base: nat)

  /** What `allocate` accepts: any size and alignment. */
  ghost predicate Accepted(m: Memory, size: nat, align: nat, base: nat, garbage: seq<Byte>) {
    1 <= align < ADDRESS_LIMIT && size < ADDRESS_LIMIT
    && |garbage| == Request(size, align) && Unused(m, base, |garbage|)
  }

  /** The caller's side: any size and alignment except where the trailer alone overflows,
      writes inside the block, one deallocation for each allocation. Any other user of the
      underlying allocator may come and go. */
  ghost predicate Allowed(m: Memory, op: Op) {
    match op
    case Allocate(size, align, base, garbage) =>
      Accepted(m, size, align, base, garbage) && !TrailerOverflows(size, align)
    case Write(p, i, _) => p in m.blocks && i < m.blocks[p].size
    case Deallocate(p) => p in m.blocks
    case OtherAllocate(base, garbage) => Unused(m, base, |garbage|)
    case OtherFree(base) => base in m.raw && forall p :: p in m.blocks ==> m.blocks[p].base != base
  }

  /** `deallocate`: the base found through the trailer, whatever `blocks` says. */
  function FoundBase(m: Memory, p: nat, size: nat): int
  {
    p - Decode(Load(m.bytes, p + size, WORD))
  }

  function Allocated(m: Memory, size: nat, align: nat, base: nat, garbage: seq<Byte>): Memory
    requires align >= 1
  {
    var p := AlignUp(base, align);
    Memory(Store(Store(m.bytes, base, garbage), p + size, Encode(p - base, WORD)),
           m.raw[base := |garbage|], m.blocks[p := Block(base, size, align)])
  }

  /** An allocation that ends in bad_alloc: the raw block was taken and nobody has it. */
  function Taken(m: Memory, base: nat, garbage: seq<Byte>): Memory {
    m.(bytes := Store(m.bytes, base, garbage), raw := m.raw[base := |garbage|])
  }

  function AfterAllocate(m: Memory, size: nat, align: nat, base: nat, garbage: seq<Byte>): Memory
    requires align >= 1
  {
    if Overflows(size, align) then Taken(m, base, garbage) else Allocated(m, size, align, base, garbage)
  }

  ghost function Apply(m: Memory, op: Op): Memory
    requires Good(m) && Allowed(m, op)
  {
    match op
    case Allocate(size, align, base, garbage) => AfterAllocate(m, size, align, base, garbage)
    case Write(p, i, value) => m.(bytes := Store(m.bytes, p + i, [value]))
    case Deallocate(p) =>
      var base := FoundBase(m, p, m.blocks[p].size);
      m.(raw := map b | b in m.raw && b != base :: m.raw[b], blocks := m.blocks - {p})
    case OtherAllocate(base, garbage) => Taken(m, base, garbage)
    case OtherFree(base) => m.(raw := m.raw - {base})
  }

  /** `deallocate` recovers the base of the raw block, and gives back the count it was
      allocated with. */
  lemma BaseRecovered(m: Memory, p: nat)
    requires Good(m) && p in m.blocks
    ensures var k := m.blocks[p];
            && FoundBase(m, p, k.size) == k.base
            && k.base in m.raw && m.raw[k.base] == k.Count()
  {
    var k := m.blocks[p];
    assert Hidden(m, p, k);
    WordHoldsOffsets();
    TrailerRoundTrip(p - k.base, WORD);
  }

  /** Bytes of a hidden block survive whatever happens outside its raw block or inside the
      user's part of it. */
  lemma StillHidden(m: Memory, t: Memory, p: nat, k: Block)
    requires Hidden(m, p, k)
    requires k.base in t.raw && t.raw[k.base] == m.raw[k.base]
    requires forall a :: p + k.size <= a < p + k.size + WORD ==> t.bytes(a) == m.bytes(a)
    ensures Hidden(t, p, k)
  {
    assert Load(t.bytes, p + k.size, WORD) == Load(m.bytes, p + k.size, WORD);
  }

  lemma LoadStored(bytes: nat -> Byte, from: nat, s: seq<Byte>)
    ensures Load(Store(bytes, from, s), from, |s|) == s
  {
  }

  lemma NewBlockHidden(m: Memory, size: nat, align: nat, base: nat, garbage: seq<Byte>)
    requires align >= 1 && base > 0 && size + align - 1 + WORD < ADDRESS_LIMIT && |garbage| == size + align - 1 + WORD
    ensures Hidden(Allocated(m, size, align, base, garbage), AlignUp(base, align), Block(base, size, align))
  {
    var p := AlignUp(base, align);
    AlignUpAligned(base, align);
    LoadStored(Store(m.bytes, base, garbage), p + size, Encode(p - base, WORD));
  }

  lemma OldBlockHidden(m: Memory, size: nat, align: nat, base: nat, garbage: seq<Byte>, q: nat)
    requires Good(m) && Allowed(m, Allocate(size, align, base, garbage)) && !Overflows(size, align)
    requires q in m.blocks
    ensures q != AlignUp(base, align) && m.blocks[q].base != base
    ensures Hidden(Allocated(m, size, align, base, garbage), q, m.blocks[q])
  {
    var j := m.blocks[q];
    WrappedRequest(size, align);
    assert Hidden(m, q, j);
    assert Apart(base, |garbage|, j.base, m.raw[j.base]);
    StillHidden(m, Allocated(m, size, align, base, garbage), q, j);
  }

  lemma RawStaysApart(m: Memory, base: nat, n: nat)
    requires RawApart(m.raw) && Unused(m, base, n)
    ensures RawApart(m.raw[base := n])
  {
  }

  lemma AllocateKeeps(m: Memory, size: nat, align: nat, base: nat, garbage: seq<Byte>)
    requires Good(m) && Allowed(m, Allocate(size, align, base, garbage)) && !Overflows(size, align)
    ensures var t := Allocated(m, size, align, base, garbage);
            var p := AlignUp(base, align);
            && Good(t) && p !in m.blocks && t.blocks == m.blocks[p := Block(base, size, align)]
  {
    WrappedRequest(size, align);
    NewBlockHidden(m, size, align, base, garbage);
    RawStaysApart(m, base, |garbage|);
    forall q | q in m.blocks
      ensures q != AlignUp(base, align) && m.blocks[q].base != base
      ensures Hidden(Allocated(m, size, align, base, garbage), q, m.blocks[q])
    {
      OldBlockHidden(m, size, align, base, garbage, q);
    }
  }

  lemma WriteKeeps(m: Memory, p: nat, i: nat, value: Byte)
    requires Good(m) && Allowed(m, Write(p, i, value))
    ensures Good(Apply(m, Write(p, i, value)))
  {
    var t := Apply(m, Write(p, i, value));
    var k := m.blocks[p];
    assert Hidden(m, p, k);
    forall q | q in m.blocks
      ensures Hidden(t, q, m.blocks[q])
    {
      var j := m.blocks[q];
      assert Hidden(m, q, j);
      if q != p {
        assert Apart(k.base, m.raw[k.base], j.base, m.raw[j.base]);
      }
      StillHidden(m, t, q, j);
    }
  }

  lemma DeallocateKeeps(m: Memory, p: nat)
    requires Good(m) && p in m.blocks
    ensures var t := Apply(m, Deallocate(p));
            Good(t) && t == Memory(m.bytes, m.raw - {m.blocks[p].base}, m.blocks - {p})
  {
    BaseRecovered(m, p);
    var t := Apply(m, Deallocate(p));
    assert t.raw == m.raw - {m.blocks[p].base};
    forall q | q in t.blocks
      ensures Hidden(t, q, t.blocks[q])
    {
      assert Hidden(m, q, m.blocks[q]);
      StillHidden(m, t, q, m.blocks[q]);
    }
  }

  lemma OtherKeeps(m: Memory, op: Op)
    requires Good(m) && Allowed(m, op) && (op.OtherAllocate? || op.OtherFree?)
    ensures Good(Apply(m, op)) && Apply(m, op).blocks == m.blocks
  {
    if op.OtherAllocate? {
      TakenKeeps(m, op.base, op.garbage);
    } else {
      forall q | q in m.blocks
        ensures Hidden(Apply(m, op), q, m.blocks[q])
      {
        assert Hidden(m, q, m.blocks[q]);
        StillHidden(m, Apply(m, op), q, m.blocks[q]);
      }
    }
  }

  lemma TakenKeeps(m: Memory, base: nat, garbage: seq<Byte>)
    requires Good(m) && Unused(m, base, |garbage|)
    ensures Good(Taken(m, base, garbage))
  {
    RawStaysApart(m, base, |garbage|);
    forall q | q in m.blocks
      ensures Hidden(Taken(m, base, garbage), q, m.blocks[q])
    {
      var j := m.blocks[q];
      assert Hidden(m, q, j);
      assert Apart(base, |garbage|, j.base, m.raw[j.base]);
      StillHidden(m, Taken(m, base, garbage), q, j);
    }
  }

  lemma ApplyKeeps(m: Memory, op: Op)
    requires Good(m) && Allowed(m, op)
    ensures Good(Apply(m, op))
  {
    match op
    case Allocate(size, align, base, garbage) =>
      if Overflows(size, align) {
        TakenKeeps(m, base, garbage);
      } else {
        AllocateKeeps(m, size, align, base, garbage);
      }
    case Write(p, i, value) => WriteKeeps(m, p, i, value);
    case Deallocate(p) => DeallocateKeeps(m, p);
    case _ => OtherKeeps(m, op);
  }

  // ----- Runs -----

  ghost predicate AllAllowed(m: Memory, ops: seq<Op>)
    requires Good(m)
    decreases |ops|
  {
    ops == [] ||
    (Allowed(m, ops[0]) && (ApplyKeeps(m, ops[0]); AllAllowed(Apply(m, ops[0]), ops[1..])))
  }

  ghost function Run(m: Memory, ops: seq<Op>): (t: Memory)
    requires Good(m) && AllAllowed(m, ops)
    ensures Good(t)
    decreases |ops|
  {
    if ops == [] then m else (ApplyKeeps(m, ops[0]); Run(Apply(m, ops[0]), ops[1..]))
  }

  lemma {:induction false} BlockSurvives(m: Memory, ops: seq<Op>, p: nat)
    requires Good(m) && AllAllowed(m, ops) && p in m.blocks && Deallocate(p) !in ops
    ensures p in Run(m, ops).blocks && Run(m, ops).blocks[p] == m.blocks[p]
    decreases |ops|
  {
    if ops != [] {
      var t := Apply(m, ops[0]);
      ApplyKeeps(m, ops[0]);
      match ops[0] {
        case Allocate(size, align, base, garbage) =>
          if !Overflows(size, align) { AllocateKeeps(m, size, align, base, garbage); }
        case Deallocate(q) => DeallocateKeeps(m, q);
        case _ =>
      }
      assert ops[0] in ops && forall op :: op in ops[1..] ==> op in ops;
      BlockSurvives(t, ops[1..], p);
    }
  }

  // ----- What the user stored -----

  function Contents(m: Memory, p: nat): (s: seq<Byte>)
    requires p in m.blocks
    ensures |s| == m.blocks[p].size
  {
    Load(m.bytes, p, m.blocks[p].size)
  }

  /** The writes to the block at p, carried out on its contents alone. */
  function Written(s: seq<Byte>, p: nat, ops: seq<Op>): (r: seq<Byte>)
    ensures |r| == |s|
    decreases |ops|
  {
    if ops == [] then s
    else Written(if ops[0].Write? && ops[0].p == p && ops[0].i < |s| then s[ops[0].i := ops[0].value] else s,
                 p, ops[1..])
  }

  lemma AllocateContents(m: Memory, size: nat, align: nat, base: nat, garbage: seq<Byte>, p: nat)
    requires Good(m) && Allowed(m, Allocate(size, align, base, garbage)) && p in m.blocks
    ensures var t := Apply(m, Allocate(size, align, base, garbage));
            p in t.blocks && t.blocks[p] == m.blocks[p] && Contents(t, p) == Contents(m, p)
  {
    var k := m.blocks[p];
    assert Hidden(m, p, k);
    assert Apart(base, |garbage|, k.base, m.raw[k.base]);
    if !Overflows(size, align) {
      AllocateKeeps(m, size, align, base, garbage);
      WrappedRequest(size, align);
    }
  }

  lemma WriteContents(m: Memory, q: nat, i: nat, value: Byte, p: nat)
    requires Good(m) && Allowed(m, Write(q, i, value)) && p in m.blocks
    ensures Contents(Apply(m, Write(q, i, value)), p)
            == if p == q then Contents(m, p)[i := value] else Contents(m, p)
  {
    var j, k := m.blocks[q], m.blocks[p];
    assert Hidden(m, q, j) && Hidden(m, p, k);
    if p != q {
      assert Apart(j.base, m.raw[j.base], k.base, m.raw[k.base]);
    }
  }

  lemma OtherContents(m: Memory, op: Op, p: nat)
    requires Good(m) && Allowed(m, op) && (op.OtherAllocate? || op.OtherFree?) && p in m.blocks
    ensures Apply(m, op).blocks == m.blocks && Contents(Apply(m, op), p) == Contents(m, p)
  {
    var k := m.blocks[p];
    assert Hidden(m, p, k);
    if op.OtherAllocate? {
      assert Apart(op.base, |op.garbage|, k.base, m.raw[k.base]);
    }
  }

  lemma StepContents(m: Memory, op: Op, p: nat)
    requires Good(m) && Allowed(m, op) && p in m.blocks && op != Deallocate(p)
    ensures p in Apply(m, op).blocks && Apply(m, op).blocks[p] == m.blocks[p]
    ensures Contents(Apply(m, op), p) == Written(Contents(m, p), p, [op])
  {
    assert Written(Contents(m, p), p, [op])
           == if op.Write? && op.p == p && op.i < m.blocks[p].size then Contents(m, p)[op.i := op.value]
              else Contents(m, p) by { assert [op][1..] == []; }
    match op
    case Allocate(size, align, base, garbage) => AllocateContents(m, size, align, base, garbage, p);
    case Write(q, i, value) => WriteContents(m, q, i, value, p);
    case Deallocate(q) => DeallocateKeeps(m, q);
    case _ => OtherContents(m, op, p);
  }

  /** The user's bytes are the user's alone: over any run that does not free the block they are
      what its own writes make of them, whatever is allocated, written, freed or taken by
      others in between. */
  lemma {:induction false} ContentsAreWritten(m: Memory, ops: seq<Op>, p: nat)
    requires Good(m) && AllAllowed(m, ops) && p in m.blocks && Deallocate(p) !in ops
    ensures p in Run(m, ops).blocks && Contents(Run(m, ops), p) == Written(Contents(m, p), p, ops)
    decreases |ops|
  {
    if ops != [] {
      ApplyKeeps(m, ops[0]);
      StepContents(m, ops[0], p);
      assert ops[0] in ops && forall op :: op in ops[1..] ==> op in ops;
      ContentsAreWritten(Apply(m, ops[0]), ops[1..], p);
      WrittenFirst(Contents(m, p), p, ops);
    }
  }

  lemma WrittenFirst(s: seq<Byte>, p: nat, ops: seq<Op>)
    requires ops != []
    ensures Written(s, p, ops) == Written(Written(s, p, [ops[0]]), p, ops[1..])
  {
    assert [ops[0]][1..] == [];
  }

  /** Allocate a block, let anything happen that neither frees it nor writes outside user
      blocks, and deallocate it: exactly the raw block it came from goes back, base and
      byte count, and every other block stays as it is. */
  lemma BlockRoundTrip(m: Memory, size: nat, align: nat, base: nat, garbage: seq<Byte>, ops: seq<Op>)
    requires Good(m) && Allowed(m, Allocate(size, align, base, garbage)) && !Overflows(size, align)
    requires Good(Allocated(m, size, align, base, garbage))
    requires AllAllowed(Allocated(m, size, align, base, garbage), ops)
    requires Deallocate(AlignUp(base, align)) !in ops
    ensures var t := Run(Allocated(m, size, align, base, garbage), ops);
            var p := AlignUp(base, align);
            && p in t.blocks && t.blocks[p] == Block(base, size, align) && p > 0 && p % align == 0
            && base in t.raw && t.raw[base] == size + align - 1 + WORD
            && Apply(t, Deallocate(p)).raw == t.raw - {base}
            && Apply(t, Deallocate(p)).blocks == t.blocks - {p}
  {
    var p := AlignUp(base, align);
    AllocateKeeps(m, size, align, base, garbage);
    WrappedRequest(size, align);
    BlockSurvives(Allocated(m, size, align, base, garbage), ops, p);
    var t := Run(Allocated(m, size, align, base, garbage), ops);
    assert Hidden(t, p, Block(base, size, align));
    DeallocateKeeps(t, p);
  }

  /** A raw block that was taken by an overflowing allocation is in no user's block. */
  ghost predicate Ownerless(m: Memory, base: nat) {
    base in m.raw && forall p :: p in m.blocks ==> m.blocks[p].base != base
  }

  lemma {:induction false} OwnerlessStays(m: Memory, ops: seq<Op>, base: nat)
    requires Good(m) && AllAllowed(m, ops) && Ownerless(m, base) && OtherFree(base) !in ops
    ensures Ownerless(Run(m, ops), base)
    decreases |ops|
  {
    if ops != [] {
      var t := Apply(m, ops[0]);
      ApplyKeeps(m, ops[0]);
      match ops[0] {
        case Allocate(size, align, b, garbage) =>
          if !Overflows(size, align) { AllocateKeeps(m, size, align, b, garbage); }
        case Deallocate(q) => DeallocateKeeps(m, q);
        case _ =>
      }
      assert ops[0] in ops && forall op :: op in ops[1..] ==> op in ops;
      OwnerlessStays(t, ops[1..], base);
    }
  }

  /** Called with sizes that no allocator passes (AllocatorNeverOverflows), `allocate` leaks on
      its bad_alloc path: the raw block stays taken through everything that the callers of
      `allocate` and `deallocate` can do from there on. */
  lemma BadAllocLeaks(m: Memory, size: nat, align: nat, base: nat, garbage: seq<Byte>, ops: seq<Op>)
    requires Good(m) && Allowed(m, Allocate(size, align, base, garbage)) && Overflows(size, align)
    requires Good(Taken(m, base, garbage)) && AllAllowed(Taken(m, base, garbage), ops)
    requires OtherFree(base) !in ops
    ensures StdAlign(align, size, base, Space(size, align)).None?
    ensures var t := Run(Taken(m, base, garbage), ops);
            base in t.raw && forall p :: p in t.blocks ==> t.blocks[p].base != base
  {
    BadAllocIff(size, align, base);
    assert Ownerless(Taken(m, base, garbage), base) by {
      forall p | p in m.blocks
        ensures m.blocks[p].base != base
      {
        assert Hidden(m, p, m.blocks[p]);
      }
    }
    OwnerlessStays(Taken(m, base, garbage), ops, base);
  }
}
