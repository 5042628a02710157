/** The counting allocator given to tree-sitter (`bench_harness.rs`): a header before every block remembers the size
    asked for, and a counter adds the sizes up. */
module AllocLedger {
  import opened Basics

  const ISIZE_MAX := 0x7fff_ffff_ffff_ffff
  const HEADER := 16
  const NULL: nat := 0

  type usize = x: int | 0 <= x < U64_MODULUS

  /** The value an `i64` holds after wrapping. */
  function WrapI64(x: int): (r: int)
    ensures -0x8000_0000_0000_0000 <= r <= ISIZE_MAX
    ensures r == x <==> -0x8000_0000_0000_0000 <= x <= ISIZE_MAX
  {
    (x + 0x8000_0000_0000_0000) % U64_MODULUS - 0x8000_0000_0000_0000
  }

  lemma WrapIgnoresTurns(x: int, turns: int)
    ensures WrapI64(x + turns * U64_MODULUS) == WrapI64(x)
  {
    var y := x + 0x8000_0000_0000_0000;
    var q, r := y / U64_MODULUS, y % U64_MODULUS;
    assert y + turns * U64_MODULUS == (q + turns) * U64_MODULUS + r;
  }

  lemma WrapTurns(x: int) returns (turns: int)
    ensures WrapI64(x) == x + turns * U64_MODULUS
  {
    turns := -((x + 0x8000_0000_0000_0000) / U64_MODULUS);
  }

  lemma WrapAdds(a: int, b: int)
    ensures WrapI64(WrapI64(a) + WrapI64(b)) == WrapI64(a + b)
    ensures WrapI64(WrapI64(a) - WrapI64(b)) == WrapI64(a - b)
  {
    var j := WrapTurns(a);
    var k := WrapTurns(b);
    WrapIgnoresTurns(a + b, j + k);
    WrapIgnoresTurns(a - b, j - k);
  }

  /** `tree_sitter_layout`: the block's size with its header; `Layout` refuses sizes that pass `isize::MAX` once rounded
      up to the alignment. */
  function LayoutSize(size: usize): (r: Option<usize>)
    ensures r.Some? <==> size <= ISIZE_MAX - 31
    ensures r.Some? ==> r.value == size + HEADER
  {
    if size + HEADER >= U64_MODULUS || size + HEADER > ISIZE_MAX - (HEADER - 1) then None else Some(size + HEADER)
  }

  // ----- sums -----

  ghost function Sum(sizes: map<nat, usize>): (r: nat)
    decreases |sizes|
  {
    if sizes == map[] then 0
    else
      var p :| p in sizes;
      sizes[p] + Sum(sizes - {p})
  }

  lemma {:induction false} SumWithout(sizes: map<nat, usize>, p: nat)
    requires p in sizes
    ensures Sum(sizes) == sizes[p] + Sum(sizes - {p})
    decreases |sizes|
  {
    var q :| q in sizes && Sum(sizes) == sizes[q] + Sum(sizes - {q});
    if q != p {
      SumWithout(sizes - {q}, p);
      SumWithout(sizes - {p}, q);
      assert sizes - {p} - {q} == sizes - {q} - {p};
    }
  }

  lemma SumWith(sizes: map<nat, usize>, p: nat, size: usize)
    requires p !in sizes
    ensures Sum(sizes[p := size]) == size + Sum(sizes)
  {
    SumWithout(sizes[p := size], p);
    assert sizes[p := size] - {p} == sizes;
  }

  // ----- the allocator -----

  /** A block of the system allocator: the size of the layout it was allocated with, and the word at its start. */
  datatype Block = Block(layoutSize: usize, header: usize)

  /** What the block of a request of `size` bytes looks like. */
  ghost predicate Records(block: Block, size: usize) {
    block.header == size && LayoutSize(size) == Some(block.layoutSize)
  }

  ghost predicate IsHeld(blocks: map<nat, Block>, outstanding: map<nat, usize>, ptr: nat)
    requires ptr in outstanding
  {
    ptr > HEADER && ptr - HEADER in blocks && Records(blocks[ptr - HEADER], outstanding[ptr])
  }

  /** Every block was handed out, with the size asked for in its header and in its layout. */
  ghost predicate Matches(blocks: map<nat, Block>, outstanding: map<nat, usize>) {
    && (forall p {:trigger IsHeld(blocks, outstanding, p)} :: p in outstanding ==> IsHeld(blocks, outstanding, p))
    && (forall b :: b in blocks ==> b + HEADER in outstanding)
  }

  lemma MatchesWith(before: map<nat, Block>, outstanding: map<nat, usize>, block: nat, record: Block, size: usize)
    requires block != NULL && block !in before && Records(record, size)
    requires Matches(before, outstanding)
    ensures block + HEADER !in outstanding
    ensures Matches(before[block := record], outstanding[block + HEADER := size])
  {
    var ptr := block + HEADER;
    assert ptr in outstanding ==> IsHeld(before, outstanding, ptr);
    var after, held := before[block := record], outstanding[ptr := size];
    forall p | p in held
      ensures IsHeld(after, held, p)
    {
      assert p != ptr ==> IsHeld(before, outstanding, p);
    }
  }

  lemma MatchesWithout(blocks: map<nat, Block>, outstanding: map<nat, usize>, ptr: nat)
    requires Matches(blocks, outstanding) && ptr in outstanding
    ensures IsHeld(blocks, outstanding, ptr)
    ensures Matches(blocks - {ptr - HEADER}, outstanding - {ptr})
  {
    assert IsHeld(blocks, outstanding, ptr);
    var after, held := blocks - {ptr - HEADER}, outstanding - {ptr};
    forall p | p in held
      ensures IsHeld(after, held, p)
    {
      assert IsHeld(blocks, outstanding, p);
    }
  }

  /** The counter follows one size more, and one size less. */
  lemma CountsWith(live: int, outstanding: map<nat, usize>, ptr: nat, size: usize)
    requires ptr !in outstanding && live == WrapI64(Sum(outstanding))
    ensures WrapI64(live + WrapI64(size)) == WrapI64(Sum(outstanding[ptr := size]))
  {
    SumWith(outstanding, ptr, size);
    WrapAdds(Sum(outstanding), size);
  }

  lemma CountsWithout(live: int, outstanding: map<nat, usize>, ptr: nat)
    requires ptr in outstanding && live == WrapI64(Sum(outstanding))
    ensures WrapI64(live - WrapI64(outstanding[ptr])) == WrapI64(Sum(outstanding - {ptr}))
  {
    SumWithout(outstanding, ptr);
    WrapAdds(Sum(outstanding), outstanding[ptr]);
  }

  class TreeSitterAllocator {
    var blocks: map<nat, Block>
    var liveBytes: int

    /** What callers hold: for each pointer, the size they asked for. */
    ghost var outstanding: map<nat, usize>

    ghost predicate Valid()
      reads this
    {
      Matches(blocks, outstanding) && liveBytes == WrapI64(Sum(outstanding))
    }

    constructor ()
      ensures Valid() && blocks == map[] && outstanding == map[] && liveBytes == 0
    {
      blocks, liveBytes, outstanding := map[], 0, map[];
    }

    // ----- the system allocator: `granted` is the block it finds, or null -----

    predicate IsNew(granted: nat)
      reads this
    {
      granted !in blocks
    }

    method SystemAlloc(layoutSize: usize, header: usize, granted: nat) returns (block: nat)
      requires IsNew(granted)
      modifies this`blocks
      ensures block == granted
      ensures blocks == if granted == NULL then old(blocks) else old(blocks)[granted := Block(layoutSize, header)]
    {
      if granted != NULL {
        blocks := blocks[granted := Block(layoutSize, header)];
      }
      block := granted;
    }

    /** Asks for the layout the block was allocated with, and keeps its contents. */
    method SystemRealloc(block: nat, layoutSize: usize, newSize: usize, granted: nat) returns (next: nat)
      requires block in blocks && blocks[block].layoutSize == layoutSize
      requires IsNew(granted) || granted == block
      modifies this`blocks
      ensures next == granted
      ensures blocks == if granted == NULL then old(blocks)
                        else (old(blocks) - {block})[granted := Block(newSize, old(blocks)[block].header)]
    {
      if granted != NULL {
        blocks := (blocks - {block})[granted := Block(newSize, blocks[block].header)];
      }
      next := granted;
    }

    method SystemDealloc(block: nat, layoutSize: usize)
      requires block in blocks && blocks[block].layoutSize == layoutSize
      modifies this`blocks
      ensures blocks == old(blocks) - {block}
    {
      blocks := blocks - {block};
    }

    // ----- the four hooks -----

    /** Writes the header and counts the block; `before` are the other blocks. */
    method HandOut(block: nat, size: usize, ghost before: map<nat, Block>) returns (ptr: nat)
      requires Matches(before, outstanding)
      requires block == NULL ==> blocks == before
      requires block != NULL ==> block !in before && block in blocks && blocks == before[block := blocks[block]]
                                 && LayoutSize(size) == Some(blocks[block].layoutSize)
      modifies this
      ensures Matches(blocks, outstanding)
      ensures block == NULL ==> ptr == NULL && blocks == before && outstanding == old(outstanding)
                                && liveBytes == old(liveBytes)
      ensures block != NULL ==> ptr == block + HEADER && ptr !in old(outstanding)
                                && outstanding == old(outstanding)[ptr := size]
                                && liveBytes == WrapI64(old(liveBytes) + WrapI64(size))
    {
      if block == NULL {
        return NULL;
      }
      ptr := block + HEADER;
      var record := Block(blocks[block].layoutSize, size);
      MatchesWith(before, outstanding, block, record, size);
      blocks := blocks[block := record];
      liveBytes := WrapI64(liveBytes + WrapI64(size));
      outstanding := outstanding[ptr := size];
      assert blocks == before[block := record];
    }

    method Malloc(size: usize, granted: nat) returns (ptr: nat)
      requires Valid() && IsNew(granted)
      modifies this
      ensures Valid()
      ensures ptr == NULL <==> LayoutSize(size).None? || granted == NULL
      ensures ptr == NULL ==> blocks == old(blocks) && outstanding == old(outstanding) && liveBytes == old(liveBytes)
      ensures ptr != NULL ==> ptr == granted + HEADER && ptr !in old(outstanding)
                              && outstanding == old(outstanding)[ptr := size]
    {
      var layout := LayoutSize(size);
      if layout.None? {
        return NULL;
      }
      var header: usize := *;
      var block := SystemAlloc(layout.value, header, granted);
      ptr := HandOut(block, size, old(blocks));
      if ptr != NULL {
        CountsWith(old(liveBytes), old(outstanding), ptr, size);
      }
    }

    method Calloc(count: usize, size: usize, granted: nat) returns (ptr: nat)
      requires Valid() && IsNew(granted)
      modifies this
      ensures Valid()
      ensures ptr == NULL <==> count * size > ISIZE_MAX - 31 || granted == NULL
      ensures ptr == NULL ==> blocks == old(blocks) && outstanding == old(outstanding) && liveBytes == old(liveBytes)
      ensures ptr != NULL ==> ptr == granted + HEADER && ptr !in old(outstanding)
                              && outstanding == old(outstanding)[ptr := count * size]
    {
      var total: int := count * size;
      if total >= U64_MODULUS {
        return NULL;
      }
      assert total >= 0;
      var layout := LayoutSize(total);
      if layout.None? {
        return NULL;
      }
      var block := SystemAlloc(layout.value, 0, granted);
      ptr := HandOut(block, total, old(blocks));
      if ptr != NULL {
        CountsWith(old(liveBytes), old(outstanding), ptr, total);
      }
    }

    method Realloc(ptr: nat, size: usize, granted: nat) returns (next: nat)
      requires Valid() && (ptr == NULL || ptr in outstanding)
      requires IsNew(granted) || (ptr != NULL && granted == ptr - HEADER)
      modifies this
      ensures Valid()
      ensures next == NULL <==> LayoutSize(size).None? || granted == NULL
      ensures next == NULL ==> blocks == old(blocks) && outstanding == old(outstanding) && liveBytes == old(liveBytes)
      ensures next != NULL ==> next == granted + HEADER && next !in old(outstanding) - {ptr}
                               && outstanding == (old(outstanding) - {ptr})[next := size]
    {
      if ptr == NULL {
        next := Malloc(size, granted);
        assert ptr in old(outstanding) ==> IsHeld(old(blocks), old(outstanding), ptr);
        assert old(outstanding) - {ptr} == old(outstanding);
        return;
      }
      MatchesWithout(blocks, outstanding, ptr);
      var block := ptr - HEADER;
      var held := blocks[block].header;
      var layout, nextLayout := LayoutSize(held), LayoutSize(size);
      if layout.None? || nextLayout.None? {
        return NULL;
      }
      var moved := SystemRealloc(block, layout.value, nextLayout.value, granted);
      if moved == NULL {
        return NULL;
      }
      CountsWithout(liveBytes, outstanding, ptr);
      liveBytes := WrapI64(liveBytes - WrapI64(held));
      outstanding := outstanding - {ptr};
      ghost var live, rest := liveBytes, outstanding;
      next := HandOut(moved, size, old(blocks) - {block});
      CountsWith(live, rest, next, size);
    }

    method Free(ptr: nat)
      requires Valid() && (ptr == NULL || ptr in outstanding)
      modifies this
      ensures Valid()
      ensures outstanding == old(outstanding) - {ptr}
      ensures ptr == NULL ==> blocks == old(blocks)
    {
      if ptr == NULL {
        assert ptr in outstanding ==> IsHeld(blocks, outstanding, ptr);
        assert outstanding - {ptr} == outstanding;
        return;
      }
      MatchesWithout(blocks, outstanding, ptr);
      var block := ptr - HEADER;
      var held := blocks[block].header;
      var layout := LayoutSize(held);
      if layout.None? {
        return;
      }
      CountsWithout(liveBytes, outstanding, ptr);
      liveBytes := WrapI64(liveBytes - WrapI64(held));
      outstanding := outstanding - {ptr};
      SystemDealloc(block, layout.value);
    }
  }

  /** In every state a run reaches, the counter is the sum of the sizes callers hold, unless that passes `i64`, and
      every block's header holds the size asked for. */
  lemma LedgerIsExact(allocator: TreeSitterAllocator)
    requires allocator.Valid()
    ensures allocator.liveBytes == Sum(allocator.outstanding) <==> Sum(allocator.outstanding) <= ISIZE_MAX
    ensures forall p :: p in allocator.outstanding ==>
              p - HEADER in allocator.blocks && allocator.blocks[p - HEADER].header == allocator.outstanding[p]
    ensures forall b :: b in allocator.blocks ==> b + HEADER in allocator.outstanding
  {
    forall p | p in allocator.outstanding
      ensures p - HEADER in allocator.blocks && allocator.blocks[p - HEADER].header == allocator.outstanding[p]
    {
      assert IsHeld(allocator.blocks, allocator.outstanding, p);
    }
  }
}
