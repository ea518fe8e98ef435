/** The bump allocator of support/src/Arena.cpp. Addresses are numbers. */
module Arena {
  import opened Basics

  const MAX_ALIGNMENT := 16   // alignof(std::max_align_t)
  const LEAST_BLOCK_SIZE := 4096
  const ADDRESS_LIMIT := 0x1_0000_0000_0000_0000

  /** A block of memory; its first `used` bytes are taken. */
  datatype Block = Block(base: nat, size: nat, used: nat)

  datatype Range = Range(start: nat, length: nat)

  predicate IsPowerOfTwo(n: nat) {
    n == 1 || (n > 1 && n % 2 == 0 && IsPowerOfTwo(n / 2))
  }

  function AlignUp(address: nat, alignment: nat): nat
    requires alignment > 0
  {
    (address + alignment - 1) / alignment * alignment
  }

  lemma AlignUpBounds(address: nat, alignment: nat)
    requires alignment > 0
    ensures address <= AlignUp(address, alignment) < address + alignment
    ensures AlignUp(address, alignment) % alignment == 0
  {
    var x := address + alignment - 1;
    assert x == x / alignment * alignment + x % alignment;
    MultipleHasNoRemainder(x / alignment, alignment);
  }

  lemma MultipleHasNoRemainder(k: nat, n: nat)
    requires n > 0
    ensures k * n % n == 0
  {
    var q, r := k * n / n, k * n % n;
    Difference(k, q, n, r);
  }

  /** Equal multiples up to a remainder below n have the remainder 0. */
  lemma Difference(k: int, q: int, n: nat, r: nat)
    requires k * n == q * n + r && r < n
    ensures r == 0
  {
    assert (k - q) * n == r;
    ProductBound(k - q, n);
  }

  lemma ProductBound(a: int, n: nat)
    ensures a >= 1 ==> a * n >= n
    ensures a <= -1 ==> a * n + n <= 0
  {
    if a >= 1 {
      assert a * n == (a - 1) * n + n;
      assert (a - 1) * n >= 0;
    } else if a <= -1 {
      assert a * n == -((-a - 1) * n) - n;
      assert (-a - 1) * n >= 0;
    }
  }

  /** A smaller power of two divides what the greatest fundamental alignment divides. */
  lemma SmallAlignment(address: nat, alignment: nat)
    requires IsPowerOfTwo(alignment) && alignment <= MAX_ALIGNMENT && address % MAX_ALIGNMENT == 0
    ensures address % alignment == 0
  {
    PowersUpToSixteen(alignment);
    DivisorsOfSixteen(address);
  }

  lemma DivisorsOfSixteen(address: nat)
    requires address % 16 == 0
    ensures address % 8 == 0 && address % 4 == 0 && address % 2 == 0 && address % 1 == 0
  {
    var k := address / 16;
    assert address == 16 * k;
    MultipleHasNoRemainder(2 * k, 8);
    MultipleHasNoRemainder(4 * k, 4);
    MultipleHasNoRemainder(8 * k, 2);
  }

  lemma PowersUpToSixteen(n: nat)
    requires IsPowerOfTwo(n) && n <= 16
    ensures n == 1 || n == 2 || n == 4 || n == 8 || n == 16
  {
    if n > 1 {
      PowersUpToEight(n / 2);
    }
  }

  lemma PowersUpToEight(n: nat)
    requires IsPowerOfTwo(n) && n <= 8
    ensures n == 1 || n == 2 || n == 4 || n == 8
  {
    if n > 2 {
      assert IsPowerOfTwo(n / 2) && IsPowerOfTwo(n / 2 / 2);
    }
  }

  /** std::align: the aligned address when the bytes fit in the space. */
  function Align(alignment: nat, bytes: nat, current: nat, space: nat): Option<nat>
    requires alignment > 0
  {
    var aligned := AlignUp(current, alignment);
    if space < bytes || aligned - current > space - bytes then None else Some(aligned)
  }

  /** The address given out, and the block afterwards. */
  function TryAllocate(b: Block, bytes: nat, alignment: nat): Option<(nat, Block)>
    requires alignment > 0 && b.used <= b.size
  {
    var aligned := Align(alignment, bytes, b.base + b.used, b.size - b.used);
    if aligned.None? then None
    else
      AlignUpBounds(b.base + b.used, alignment);
      Some((aligned.value, b.(used := aligned.value - b.base + bytes)))
  }

  /** What is given out is aligned, behind everything given out before, and inside the block. */
  lemma TryAllocateInBlock(b: Block, bytes: nat, alignment: nat)
    requires alignment > 0 && b.used <= b.size && TryAllocate(b, bytes, alignment).Some?
    ensures var (start, after) := TryAllocate(b, bytes, alignment).value;
            start % alignment == 0 && b.base + b.used <= start && after.base == b.base && after.size == b.size &&
            start + bytes == after.base + after.used && after.used <= after.size
  {
    AlignUpBounds(b.base + b.used, alignment);
  }

  /** There is no aligned address between the given one and the one aligned up to. */
  lemma AlignUpIsLeast(address: nat, alignment: nat, other: nat)
    requires alignment > 0 && address <= other && other % alignment == 0
    ensures AlignUp(address, alignment) <= other
  {
    var q, k := (address + alignment - 1) / alignment, other / alignment;
    AlignUpBounds(address, alignment);
    assert other == k * alignment;
    if other < q * alignment {
      MultiplesApart(k, q, alignment);
    }
  }

  lemma MultiplesApart(k: int, q: int, n: nat)
    requires k * n < q * n
    ensures k * n + n <= q * n
  {
    assert (q - k) * n == q * n - k * n;
    ProductBound(q - k, n);
    ProductSign(q - k, n);
  }

  lemma ProductSign(a: int, n: nat)
    ensures a <= 0 ==> a * n <= 0
  {
  }

  predicate Fits(b: Block, bytes: nat, alignment: nat, address: nat)
    requires alignment > 0
  {
    address % alignment == 0 && b.base + b.used <= address && address + bytes <= b.base + b.size
  }

  /** A block serves a request exactly if there is room at some aligned address, and gives out the least one. */
  lemma TryAllocateIff(b: Block, bytes: nat, alignment: nat)
    requires alignment > 0 && b.used <= b.size
    ensures TryAllocate(b, bytes, alignment).Some? <==> exists a: nat :: Fits(b, bytes, alignment, a)
    ensures TryAllocate(b, bytes, alignment).Some? ==>
              var (start, after) := TryAllocate(b, bytes, alignment).value;
              Fits(b, bytes, alignment, start) && after == b.(used := start + bytes - b.base) &&
              forall a: nat :: Fits(b, bytes, alignment, a) ==> start <= a
  {
    var address := b.base + b.used;
    AlignUpBounds(address, alignment);
    forall a: nat | Fits(b, bytes, alignment, a) ensures AlignUp(address, alignment) <= a {
      AlignUpIsLeast(address, alignment, a);
    }
    if TryAllocate(b, bytes, alignment).Some? {
      assert Fits(b, bytes, alignment, AlignUp(address, alignment));
    }
  }

  /** A new block made for a request can always serve it. */
  lemma NewBlockServes(base: nat, size: nat, bytes: nat, alignment: nat)
    requires alignment > 0 && bytes + alignment <= size
    ensures TryAllocate(Block(base, size, 0), bytes, alignment).Some?
  {
    AlignUpBounds(base, alignment);
  }

  // ---------------------------------------------------------------------------------------------
  // Any run of requests.

  predicate Within(r: Range, b: Block) {
    b.base <= r.start && r.start + r.length <= b.base + b.used
  }

  predicate Apart(start: nat, end: nat, otherStart: nat, otherEnd: nat) {
    end <= otherStart || otherEnd <= start
  }

  ghost predicate BlocksOk(blocks: seq<Block>) {
    && (forall i {:trigger blocks[i]} :: 0 <= i < |blocks| ==> blocks[i].used <= blocks[i].size)
    && (forall i, j {:trigger blocks[i], blocks[j]} :: 0 <= i < j < |blocks| ==>
          Apart(blocks[i].base, blocks[i].base + blocks[i].size, blocks[j].base, blocks[j].base + blocks[j].size))
  }

  predicate InSomeBlock(r: Range, blocks: seq<Block>) {
    exists i {:trigger blocks[i]} :: 0 <= i < |blocks| && Within(r, blocks[i])
  }

  /** Every range given out lies in the used part of a block, and no two overlap. */
  ghost predicate RangesOk(blocks: seq<Block>, ranges: seq<Range>) {
    && (forall k {:trigger ranges[k]} :: 0 <= k < |ranges| ==>
          ranges[k].length > 0 && InSomeBlock(ranges[k], blocks))
    && (forall k, l {:trigger ranges[k], ranges[l]} :: 0 <= k < l < |ranges| ==> Disjoint(ranges[k], ranges[l]))
  }

  predicate Disjoint(r: Range, s: Range) {
    Apart(r.start, r.start + r.length, s.start, s.start + s.length)
  }

  ghost predicate StateOk(blocks: seq<Block>, ranges: seq<Range>) {
    BlocksOk(blocks) && RangesOk(blocks, ranges)
  }

  /** A memory area the allocator may hand out for a new block. */
  ghost predicate FreeArea(blocks: seq<Block>, base: nat, size: nat) {
    forall i {:trigger blocks[i]} :: 0 <= i < |blocks| ==>
      Apart(blocks[i].base, blocks[i].base + blocks[i].size, base, base + size)
  }

  lemma AddBlockOk(blocks: seq<Block>, ranges: seq<Range>, base: nat, size: nat)
    requires StateOk(blocks, ranges) && FreeArea(blocks, base, size)
    ensures StateOk(blocks + [Block(base, size, 0)], ranges)
  {
    var after := blocks + [Block(base, size, 0)];
    forall k | 0 <= k < |ranges| ensures InSomeBlock(ranges[k], after) {
      assert ranges[k].length > 0;
      var i :| 0 <= i < |blocks| && Within(ranges[k], blocks[i]);
      assert after[i] == blocks[i];
    }
  }

  /** Serving a request from the last block keeps all ranges apart. */
  lemma ServeOk(blocks: seq<Block>, ranges: seq<Range>, bytes: nat, alignment: nat)
    requires StateOk(blocks, ranges) && blocks != [] && bytes > 0 && alignment > 0
    requires TryAllocate(blocks[|blocks| - 1], bytes, alignment).Some?
    ensures var (start, after) := TryAllocate(blocks[|blocks| - 1], bytes, alignment).value;
            StateOk(blocks[|blocks| - 1 := after], ranges + [Range(start, bytes)])
  {
    var last := |blocks| - 1;
    TryAllocateInBlock(blocks[last], bytes, alignment);
    var (start, after) := TryAllocate(blocks[last], bytes, alignment).value;
    var all := blocks[last := after];
    assert BlocksOk(all);
    forall k | 0 <= k < |ranges|
      ensures InSomeBlock(ranges[k], all) && Disjoint(ranges[k], Range(start, bytes))
    {
      assert ranges[k].length > 0;
      var i :| 0 <= i < |blocks| && Within(ranges[k], blocks[i]);
      assert Within(ranges[k], all[i]);
      if i < last {
        assert blocks[i].base + blocks[i].size <= blocks[last].base ||
               blocks[last].base + blocks[last].size <= blocks[i].base;
      }
    }
    var given := ranges + [Range(start, bytes)];
    assert Within(given[|ranges|], all[last]);
    forall k | 0 <= k < |given| ensures given[k].length > 0 && InSomeBlock(given[k], all) {
      assert k < |ranges| ==> given[k] == ranges[k];
    }
    forall k, l | 0 <= k < l < |given| ensures Disjoint(given[k], given[l]) {
      assert given[k] == ranges[k];
      assert l < |ranges| ==> given[l] == ranges[l];
    }
  }

  predicate LastServes(blocks: seq<Block>, bytes: nat, alignment: nat)
    requires alignment > 0 && forall b :: b in blocks ==> b.used <= b.size
  {
    blocks != [] && TryAllocate(blocks[|blocks| - 1], bytes, alignment).Some?
  }

  /** Only the last block changes. */
  predicate Given(blocks: seq<Block>, bytes: nat, alignment: nat, start: nat, after: seq<Block>)
    requires alignment > 0 && (forall b :: b in blocks ==> b.used <= b.size) && LastServes(blocks, bytes, alignment)
  {
    var (address, last) := TryAllocate(blocks[|blocks| - 1], bytes, alignment).value;
    start == address && after == blocks[|blocks| - 1 := last]
  }

  class Arena {
    const blockSize: nat
    var blocks: seq<Block>
    ghost var ranges: seq<Range>   // everything given out since the last reset

    constructor (blockSize: nat)
      ensures Valid() && ranges == []
    {
      this.blockSize := if blockSize < LEAST_BLOCK_SIZE then LEAST_BLOCK_SIZE else blockSize;
      blocks, ranges := [], [];
    }

    ghost predicate Valid()
      reads this
    {
      StateOk(blocks, ranges)
    }

    function SizeFor(least: nat): nat {
      if blockSize < least then least else blockSize
    }

    /** `base` is where the system places the new block. */
    method AddBlock(least: nat, base: nat)
      requires Valid() && FreeArea(blocks, base, SizeFor(least))
      modifies this`blocks
      ensures Valid() && blocks == old(blocks) + [Block(base, SizeFor(least), 0)]
    {
      AddBlockOk(blocks, ranges, base, SizeFor(least));
      blocks := blocks + [Block(base, SizeFor(least), 0)];
    }

    method Serve(bytes: nat, alignment: nat) returns (start: Option<nat>)
      requires Valid() && blocks != [] && bytes > 0 && alignment > 0
      modifies this
      ensures Valid() && |blocks| == |old(blocks)|
      ensures start.Some? <==> LastServes(old(blocks), bytes, alignment)
      ensures start.None? ==> blocks == old(blocks) && ranges == old(ranges)
      ensures start.Some? ==> Given(old(blocks), bytes, alignment, start.value, blocks)
      ensures start.Some? ==> start.value % alignment == 0 && ranges == old(ranges) + [Range(start.value, bytes)]
    {
      var last := |blocks| - 1;
      var served := TryAllocate(blocks[last], bytes, alignment);
      if served.None? {
        return None;
      }
      ServeOk(blocks, ranges, bytes, alignment);
      TryAllocateInBlock(blocks[last], bytes, alignment);
      blocks := blocks[last := served.value.1];
      ranges := ranges + [Range(served.value.0, bytes)];
      return Some(served.value.0);
    }

    /** Every request is served: the failure after the second attempt cannot happen. `bases` are the places of new
        blocks. */
    method Allocate(bytes: nat, alignment: nat, first: nat, second: nat) returns (start: nat)
      requires Valid() && IsPowerOfTwo(alignment)
      requires AtLeast(bytes, 1) + AtLeast(alignment, MAX_ALIGNMENT) < ADDRESS_LIMIT
      requires var size := SizeFor(AtLeast(bytes, 1) + AtLeast(alignment, MAX_ALIGNMENT));
               (blocks == [] ==> FreeArea([], first, size)) &&
               FreeArea(if blocks == [] then [Block(first, size, 0)] else blocks, second, size)
      modifies this
      ensures Valid() && alignment > 0 && start % alignment == 0 && start % AtLeast(alignment, MAX_ALIGNMENT) == 0
      ensures ranges == old(ranges) + [Range(start, AtLeast(bytes, 1))]
      ensures LastServes(old(blocks), AtLeast(bytes, 1), AtLeast(alignment, MAX_ALIGNMENT)) ==>
                |blocks| == |old(blocks)|
    {
      var size, unit := AtLeast(bytes, 1), AtLeast(alignment, MAX_ALIGNMENT);
      if blocks == [] {
        AddBlock(size + unit, first);
      }
      var served := Serve(size, unit);
      if served.None? {
        AddBlock(size + unit, second);
        NewBlockServes(second, SizeFor(size + unit), size, unit);
        served := Serve(size, unit);
      }
      start := served.value;
      if alignment <= MAX_ALIGNMENT {
        SmallAlignment(start, alignment);
      }
    }

    method Reset()
      modifies this
      ensures Valid() && blocks == [] && ranges == []
    {
      blocks, ranges := [], [];
    }
  }

  function AtLeast(x: nat, least: nat): nat {
    if x < least then least else x
  }
}
