/** The heap (src/Heap.cpp, lines 13-213): up to 256 blocks of 64 KB, each with a pool of 16-byte
    units and memory that is committed on first use. One thread. */
module Heap {
  import opened Arith
  import opened Bits
  import opened Kernel
  import opened PageMapping
  import opened PoolProtocol
  import opened PoolSafety
  import opened PoolSearch
  import opened PoolWords
  import opened SequentialPool

  const PAGES_PER_BLOCK: nat := 16
  const BLOCK_SIZE: nat := 0x1_0000
  const GRANULARITY: nat := 16
  const UNITS: nat := 0x1000
  const MAX_BLOCKS: nat := 256
  const PAGE_SIZE: nat := 0x1000

  /** `OutOfPages` stands for a page allocation that failed, which the layer below does not report. */
  datatype Result = Allocated(addr: nat) | HeapPanic | OutOfPages

  /** `(x + AllocationGranularity - 1) / AllocationGranularity`, computed in 64 bits and stored in 32 */
  function ToUnits(x: nat): nat { (x + GRANULARITY - 1) % 0x1_0000_0000_0000_0000 / GRANULARITY % 0x1_0000_0000 }

  /** The byte address of unit `index` of a block whose memory starts at page `base`. */
  function AddressOf(base: nat, index: nat): nat { base * PAGE_SIZE + index * GRANULARITY }

  /** What one block makes of a request. */
  datatype Placement = Placed(index: nat) | Full | Panic | NoPages

  /** The pointer lies in a committed block. */
  predicate Contains(memory: Option<nat>, ptr: nat) {
    memory.Some? && memory.value * PAGE_SIZE <= ptr < memory.value * PAGE_SIZE + BLOCK_SIZE
  }

  function UnitOf(memory: Option<nat>, ptr: nat): nat
    requires Contains(memory, ptr)
  {
    (ptr - memory.value * PAGE_SIZE) / GRANULARITY
  }

  ghost predicate OthersKept(i: nat, memory: seq<Option<nat>>, memory': seq<Option<nat>>) {
    && |memory'| == |memory|
    && forall j :: 0 <= j < |memory| && (j != i || memory[j].Some?) ==> memory'[j] == memory[j]
  }

  /** Each block's memory is a virtual allocation of its own. */
  ghost predicate MemoryOk(memory: seq<Option<nat>>, virtual: map<nat, nat>) {
    && (forall i :: 0 <= i < |memory| && memory[i].Some? ==>
          && VIRTUAL_OFFSET <= memory[i].value && memory[i].value - VIRTUAL_OFFSET in virtual
          && virtual[memory[i].value - VIRTUAL_OFFSET] == PAGES_PER_BLOCK)
    && (forall i, j :: 0 <= i < j < |memory| && memory[i].Some? && memory[j].Some? ==> memory[i] != memory[j])
  }

  /** Every page of every block's memory is committed. */
  ghost predicate PagesIn(memory: seq<Option<nat>>, data: map<nat, nat>) {
    forall i, v :: 0 <= i < |memory| && memory[i].Some? && memory[i].value <= v < memory[i].value + PAGES_PER_BLOCK ==> v in data
  }

  /** No physical page is left, or no run of virtual pages for another block. */
  ghost predicate NoPagesLeft(mmu: Mmu)
    reads mmu, mmu.physical, mmu.physical.words, mmu.virtual, mmu.virtual.words
  {
    NoFitFrom(mmu.physical.words[..], 1, 1, 0) || NoFitFrom(mmu.virtual.words[..], PAGES_PER_BLOCK, 1, 0)
  }

  /** In the rotation from `start` over `count` blocks, `i` comes before `j`. */
  predicate Earlier(i: nat, j: nat, start: nat, count: nat) {
    Turn(i, start, count) < Turn(j, start, count)
  }

  function Turn(i: nat, start: nat, count: nat): int { if i >= start then i - start else i + count - start }

  /** The first `n` pools have no fitting run. */
  ghost predicate FullUpTo(ws: seq<seq<Word>>, n: nat, units: nat, alignment: nat)
    requires n <= |ws|
  {
    forall i :: 0 <= i < n ==> NoFitFrom(ws[i], units, alignment, 0)
  }

  /** Nor have those of the first `count` that come before `block` in the rotation from `start`. */
  ghost predicate FullBefore(ws: seq<seq<Word>>, block: nat, start: nat, count: nat, units: nat, alignment: nat)
    requires count <= |ws|
  {
    forall i :: 0 <= i < count && Earlier(i, block, start, count) ==> NoFitFrom(ws[i], units, alignment, 0)
  }

  /** The blocks of the first `turns` turns have no fitting run. */
  ghost predicate TurnsFull(ws: seq<seq<Word>>, turns: nat, start: nat, count: nat, units: nat, alignment: nat)
    requires count <= |ws|
  {
    forall i :: 0 <= i < count && Turn(i, start, count) < turns ==> NoFitFrom(ws[i], units, alignment, 0)
  }

  lemma NextTurn(ws: seq<seq<Word>>, turns: nat, block: nat, start: nat, count: nat, units: nat, alignment: nat)
    requires start < count <= |ws| && block < count && Turn(block, start, count) == turns
    requires TurnsFull(ws, turns, start, count, units, alignment)
    ensures FullBefore(ws, block, start, count, units, alignment)
    ensures NoFitFrom(ws[block], units, alignment, 0) ==> TurnsFull(ws, turns + 1, start, count, units, alignment)
    ensures turns + 1 == count && NoFitFrom(ws[block], units, alignment, 0) ==> FullUpTo(ws, count, units, alignment)
  {
    hide NoFitFrom;
  }

  lemma NoTurns(ws: seq<seq<Word>>, start: nat, count: nat, units: nat, alignment: nat)
    requires count <= |ws| && (start <= count || count == 0)
    ensures TurnsFull(ws, 0, start, count, units, alignment)
    ensures count == 0 ==> FullUpTo(ws, count, units, alignment)
  {
    hide NoFitFrom;
  }

  /** A request that the checks of lines 120-133 and of the pool let through. */
  ghost predicate GoodRequest(size: nat, alignment: nat) {
    && 0 < size && 0 < alignment
    && 0 < ToUnits(size) <= UNITS && SomePower(ToUnits(alignment))
  }

  class Heap {
    const mmu: Mmu
    const pools: seq<PoolAllocator>
    /** the words of each pool */
    const words: seq<array<Word>>
    /** `Memory` of each block: its first virtual page */
    var memory: seq<Option<nat>>
    var blockCount: nat
    var hint: nat

    /** The pools and the memory map are different objects. */
    ghost predicate Separate() {
      && |pools| == |words| == MAX_BLOCKS
      && (forall i :: 0 <= i < MAX_BLOCKS ==> pools[i].words == words[i] && pools[i].poolSize == UNITS)
      && (forall i, j :: 0 <= i < j < MAX_BLOCKS ==> pools[i] != pools[j] && words[i] != words[j])
      && (forall i :: 0 <= i < MAX_BLOCKS ==>
            pools[i] !in {mmu.physical, mmu.virtual} && words[i] !in {mmu.physical.words, mmu.virtual.words})
    }

    ghost predicate PoolsValid()
      requires Separate()
      reads pools, words
    {
      forall i :: 0 <= i < MAX_BLOCKS ==> pools[i].Valid()
    }

    /** Only committed blocks below the count have allocations. */
    ghost predicate UseOk()
      requires Separate() && |memory| == MAX_BLOCKS
      reads this`memory, this`blockCount, pools
    {
      forall i :: 0 <= i < MAX_BLOCKS && pools[i].blocks != map[] ==> memory[i].Some? && i < blockCount
    }

    ghost predicate Valid()
      reads this, pools, words, mmu, mmu.l1, mmu.physical, mmu.physical.words, mmu.virtual, mmu.virtual.words
    {
      && Separate() && mmu.Valid() && PoolsValid()
      && |memory| == MAX_BLOCKS && blockCount <= MAX_BLOCKS && UseOk()
      && (blockCount == 0 ==> hint == 0) && MemoryOk(memory, mmu.virtual.blocks) && PagesIn(memory, mmu.data)
    }

    /** Lines 83-97, given the memory for the structure itself */
    constructor (mmu: Mmu)
      requires mmu.Valid()
      ensures Valid() && this.mmu == mmu && blockCount == 0 && fresh(pools) && fresh(words)
      ensures forall i :: 0 <= i < MAX_BLOCKS ==> pools[i].blocks == map[]
    {
      hide Shows, Mmu.Valid;
      var ps: seq<PoolAllocator>, ws: seq<array<Word>> := [], [];
      while |ps| < MAX_BLOCKS
        invariant |ps| == |ws| <= MAX_BLOCKS && fresh(ps) && fresh(ws) && mmu.Valid()
        invariant forall i :: 0 <= i < |ps| ==> ps[i].words == ws[i] && ps[i].poolSize == UNITS && ps[i].Valid() && ps[i].blocks == map[]
        invariant forall i, j :: 0 <= i < j < |ps| ==> ps[i] != ps[j] && ws[i] != ws[j]
      {
        var pool := new PoolAllocator(UNITS);
        ps, ws := ps + [pool], ws + [pool.words];
      }
      this.mmu := mmu;
      pools, words := ps, ws;
      memory := seq(MAX_BLOCKS, _ => None);
      blockCount, hint := 0, 0;
    }

    /** Lines 31-55 */
    method CommitIfNeeded(i: nat) returns (ok: bool)
      requires Valid() && i < blockCount
      modifies this`memory, mmu, mmu.l1, mmu.physical, mmu.physical.words, mmu.virtual, mmu.virtual.words
      ensures Valid() && (ok ==> memory[i].Some?)
      ensures forall j :: 0 <= j < MAX_BLOCKS && j != i ==> memory[j] == old(memory[j])
      ensures old(memory[i].Some?) ==> ok && memory == old(memory)
      ensures !ok ==> NoPagesLeft(mmu)
    {
      hide MemoryOk, PagesIn, Shows, NoFitFrom, WindowsKept, DataOk, RolesOk, NewlyHandedOut;
      if memory[i].Some? {
        return true;
      }
      var base := mmu.AllocateAndCommitPages(PAGES_PER_BLOCK);
      MemoryStays(memory, old(mmu.virtual.blocks), mmu.virtual.blocks, old(mmu.data), mmu.data);
      if base.Some? {
        MemoryGrows(memory, old(mmu.virtual.blocks), mmu.data, i, base.value);
        memory := memory[i := base];
      }
      ok := base.Some?;
    }

    /** Lines 57-74 */
    method AllocateInBlock(i: nat, units: nat, alignment: nat) returns (r: Placement)
      requires Valid() && i < blockCount && units <= UNITS && alignment < 0x1_0000_0000
      modifies this`memory, mmu, mmu.l1, mmu.physical, mmu.physical.words, mmu.virtual, mmu.virtual.words,
               pools[i], words[i]
      ensures Valid() && OthersKept(i, old(memory), memory)
      ensures r.Panic? ==> units == 0 || !SomePower(alignment)
      ensures r.Placed? ==> Aligned(r.index, alignment) && memory[i].Some? && OnlyAdded(i, r.index, units)
      ensures !r.Placed? ==> PoolsKept()
      ensures r.Full? ==> NoFitFrom(Contents()[i], units, alignment, 0)
      ensures r.Full? || r.Placed? ==> 0 < units && SomePower(alignment)
      ensures r.NoPages? ==> NoPagesLeft(mmu)
    {
      hide MemoryOk, PagesIn, NoPagesLeft, Shows, NoFitFrom, NoFit, Fits, SomePower, Aligned, Mmu.Valid, PoolsValid, UseOk;
      var ok := CommitIfNeeded(i);
      if !ok {
        return NoPages;
      }
      r := PlaceInBlock(i, units, alignment);
    }

    /** Lines 65-73, with the memory in place. */
    method PlaceInBlock(i: nat, units: nat, alignment: nat) returns (r: Placement)
      requires Valid() && i < blockCount && memory[i].Some? && units <= UNITS && alignment < 0x1_0000_0000
      modifies pools[i], words[i]
      ensures Valid() && !r.NoPages?
      ensures r.Panic? ==> units == 0 || !SomePower(alignment)
      ensures r.Placed? ==> Aligned(r.index, alignment) && OnlyAdded(i, r.index, units)
      ensures !r.Placed? ==> PoolsKept()
      ensures r.Full? ==> NoFitFrom(Contents()[i], units, alignment, 0)
      ensures r.Full? || r.Placed? ==> 0 < units && SomePower(alignment)
    {
      hide MemoryOk, PagesIn, NoPagesLeft, Shows, NoFitFrom, NoFit, Fits, SomePower, Aligned, Mmu.Valid;
      var index := pools[i].Allocate(units, alignment);
      r := if index.Panics? then Panic else if index.value == NO_ROOM then Full else Placed(index.value);
    }

    /** One allocation has been added, and no other pool has changed. */
    twostate predicate OnlyAdded(block: nat, index: nat, units: nat)
      requires |pools| == |words| == MAX_BLOCKS && block < MAX_BLOCKS
      reads pools, words
    {
      && index !in old(pools[block].blocks) && pools[block].blocks == old(pools[block].blocks)[index := units]
      && forall i :: 0 <= i < MAX_BLOCKS && i != block ==> pools[i].blocks == old(pools[i].blocks)
    }

    /** The words of all pools. */
    ghost function Contents(): (ws: seq<seq<Word>>)
      reads words
      ensures |ws| == |words|
    {
      seq(|words|, i requires 0 <= i < |words| reads words => words[i][..])
    }

    /** No pool has changed. */
    twostate predicate PoolsKept()
      requires |pools| == |words| == MAX_BLOCKS
      reads pools, words
    {
      Contents() == old(Contents()) && forall i :: 0 <= i < MAX_BLOCKS ==> pools[i].blocks == old(pools[i].blocks)
    }

    /** Lines 141-161: the blocks are tried in turn from `start`, wrapping at `count`, the number
        of blocks read before; right after growing, `start` is the new block behind them. */
    method TryBlocks(start: nat, count: nat, units: nat, alignment: nat) returns (r: Placement, block: nat, next: nat)
      requires Valid() && units <= UNITS && alignment < 0x1_0000_0000
      requires || (count == blockCount && (start < count || count == 0))
               || (count + 1 == blockCount && start == count && pools[start].blocks == map[])
      modifies this`memory, mmu, mmu.l1, mmu.physical, mmu.physical.words, mmu.virtual, mmu.virtual.words, pools, words
      ensures Valid()
      ensures r.Panic? ==> units == 0 || !SomePower(alignment)
      ensures r.Placed? ==>
                && block < blockCount && Aligned(r.index, alignment) && memory[block].Some? && (count == 0 || next < count)
                && next <= count && OnlyAdded(block, r.index, units)
      ensures !r.Placed? ==> PoolsKept()
      ensures r.Placed? ==> 0 < units && SomePower(alignment)
      ensures r.NoPages? ==> NoPagesLeft(mmu)
      ensures r.Placed? ==> next == if block + 1 >= count then 0 else block + 1
      ensures r.Placed? && count == blockCount ==> FullBefore(old(Contents()), block, start, count, units, alignment)
      ensures r.Placed? && count < blockCount ==> block == count
      ensures r.Full? ==> count == blockCount && FullUpTo(Contents(), count, units, alignment)
    {
      hide MemoryOk, PagesIn, NoPagesLeft, Shows, NoFitFrom, NoFit, Fits, SomePower, Aligned, Mmu.Valid, PoolsValid, UseOk, FullUpTo, FullBefore, TurnsFull, Heap.Contents;
      NoTurns(Contents(), start, count, units, alignment);
      block, next := start, start;
      var attempt := 0;
      while attempt < blockCount
        invariant Valid() && attempt <= blockCount && PoolsKept()
        invariant attempt > 0 ==> count == blockCount
        invariant attempt < blockCount && attempt > 0 ==> next < count && Turn(next, start, count) == attempt
        invariant attempt == 0 ==> next == start
        invariant TurnsFull(Contents(), attempt, start, count, units, alignment)
        invariant attempt == blockCount ==> FullUpTo(Contents(), count, units, alignment)
      {
        block := next;
        next := next + 1;
        if next >= count {
          next := 0;
        }
        if start < count {
          NextTurn(Contents(), attempt, block, start, count, units, alignment);
        }
        r := AllocateInBlock(block, units, alignment);
        if !r.Full? {
          return;
        }
        if count != blockCount {
          PowerOfTwoIff(alignment);
          FreshBlockFits(this, block, units, alignment);
        }
        attempt := attempt + 1;
      }
      r := Full;
    }

    /** Lines 118-133 and, for a request that passes the checks, lines 135-176. The rotation starts at the
        hint, which then moves behind the block; a block is added only when all others are full. */
    method AllocateAligned(size: nat, alignment: nat) returns (r: Result, ghost block: nat, ghost index: nat)
      requires Valid() && size < 0x1_0000_0000_0000_0000 && alignment < 0x1_0000_0000_0000_0000
      modifies this`memory, this`blockCount, this`hint,
               mmu, mmu.l1, mmu.physical, mmu.physical.words, mmu.virtual, mmu.virtual.words, pools, words
      ensures Valid() && old(blockCount) <= blockCount <= old(blockCount) + 1
      ensures r.Allocated? ==>
                && block < blockCount && memory[block].Some? && Aligned(index, ToUnits(alignment))
                && r.addr == memory[block].value * 0x1000 + index * 16
                && OnlyAdded(block, index, ToUnits(size))
      ensures !r.Allocated? ==> PoolsKept()
      ensures r.Allocated? ==> GoodRequest(size, alignment)
      ensures r.HeapPanic? ==> !GoodRequest(size, alignment) || NoRoomAnywhere(ToUnits(size), ToUnits(alignment))
      ensures r.OutOfPages? ==> NoPagesLeft(mmu)
      ensures hint == if !r.Allocated? then old(hint) else if block + 1 >= old(blockCount) then 0 else block + 1
      ensures blockCount > old(blockCount) || (r.Allocated? && block == old(blockCount)) ==>
        FullUpTo(old(Contents()), old(blockCount), ToUnits(size), ToUnits(alignment))
      ensures r.Allocated? && block < old(blockCount) ==>
        FullBefore(old(Contents()), block, old(hint) % old(blockCount), old(blockCount), ToUnits(size), ToUnits(alignment))
    {
      hide MemoryOk, PagesIn, NoPagesLeft, Shows, NoRoomAnywhere, SomePower, Aligned, Mmu.Valid, ToUnits;
      if size == 0 || alignment == 0 || ToUnits(size) > UNITS {
        return HeapPanic, 0, 0;
      }
      UnitsFit(alignment);
      var a, at := PlaceUnits(ToUnits(size), ToUnits(alignment));
      match a {
        case Placed(k) => return Allocated(AddressOf(memory[at].value, k)), at, k;
        case NoPages => return OutOfPages, 0, 0;
        case _ => return HeapPanic, 0, 0;
      }
    }

    /** All 256 blocks are in use and none has a fitting run. */
    ghost predicate NoRoomAnywhere(units: nat, alignment: nat)
      reads this, words
    {
      blockCount == MAX_BLOCKS == |words| && FullUpTo(Contents(), 256, units, alignment)
    }

    /** Lines 135-176. Two rounds at most: the blocks there are, then one more, which is empty. */
    method PlaceUnits(units: nat, alignment: nat) returns (r: Placement, block: nat)
      requires Valid() && units <= UNITS && alignment < 0x1_0000_0000
      modifies this`memory, this`blockCount, this`hint,
               mmu, mmu.l1, mmu.physical, mmu.physical.words, mmu.virtual, mmu.virtual.words, pools, words
      ensures Valid() && old(blockCount) <= blockCount <= old(blockCount) + 1
      ensures r.Placed? ==>
                block < blockCount && Aligned(r.index, alignment) && memory[block].Some? && OnlyAdded(block, r.index, units)
      ensures !r.Placed? ==> PoolsKept()
      ensures r.Placed? ==> 0 < units && SomePower(alignment)
      ensures r.Panic? ==> units == 0 || !SomePower(alignment)
      ensures r.Full? ==> NoRoomAnywhere(units, alignment)
      ensures r.NoPages? ==> NoPagesLeft(mmu)
      ensures r.Placed? ==> hint == if block + 1 >= old(blockCount) then 0 else block + 1
      ensures !r.Placed? ==> hint == old(hint)
      ensures blockCount > old(blockCount) || (r.Placed? && block == old(blockCount)) ==>
        FullUpTo(old(Contents()), old(blockCount), units, alignment)
      ensures r.Placed? && block < old(blockCount) ==>
        FullBefore(old(Contents()), block, old(hint) % old(blockCount), old(blockCount), units, alignment)
    {
      hide MemoryOk, PagesIn, NoPagesLeft, Shows, NoFitFrom, SomePower, Aligned, Mmu.Valid, PoolsValid, UseOk, FullUpTo, FullBefore, Heap.Contents;
      var count: nat := blockCount;
      // `hint % 0` is `hint` on this hardware, and 0 as long as there is no block.
      var blockIndex: nat := if count == 0 then hint else hint % count;
      var next;
      while true
        invariant Valid() && PoolsKept() && count == old(blockCount)
        invariant hint == old(hint)
        invariant || (blockCount == count && blockIndex == if count == 0 then 0 else hint % count)
                  || (blockCount == count + 1 && blockIndex == count && pools[count].blocks == map[])
        invariant blockCount > count ==> FullUpTo(Contents(), count, units, alignment)
        decreases count + 1 - blockCount
      {
        r, block, next := TryBlocks(blockIndex, count, units, alignment);
        if r.Placed? {
          StoreHint(next);
        }
        if !r.Full? || count >= MAX_BLOCKS {
          return;
        }
        blockIndex := count;
        Grow();
      }
    }

    /** Line 156 */
    method StoreHint(next: nat)
      requires Valid() && (blockCount == 0 ==> next == 0)
      modifies this`hint
      ensures Valid() && hint == next
    {
      hide MemoryOk, PagesIn, Shows, Mmu.Valid, PoolsValid, UseOk;
      hint := next;
    }

    /** Lines 163-174: one more block, with nothing in it. */
    method Grow()
      requires Valid() && blockCount < MAX_BLOCKS
      modifies this`blockCount
      ensures Valid() && blockCount == old(blockCount) + 1 && pools[old(blockCount)].blocks == map[]
    {
      hide MemoryOk, PagesIn, Shows, Mmu.Valid, PoolsValid;
      blockCount := blockCount + 1;
    }

    /** Lines 178-213. The one block that contains the pointer gives back exactly that allocation;
        a pointer into no block, or to nothing live in its block, panics. The address of a live
        allocation frees exactly that allocation. */
    method Deallocate(ptr: nat) returns (r: Outcome<()>, ghost block: nat)
      requires Valid()
      modifies pools, words
      ensures Valid() && (ptr == 0 ==> r.Returns? && PoolsKept())
      ensures ptr != 0 && r.Returns? ==>
                block < blockCount && Contains(memory[block], ptr) && OnlyRemoved(block, (ptr - memory[block].value * 0x1000) / 16)
      ensures r.Panics? ==>
                && PoolsKept()
                && forall i :: 0 <= i < blockCount && Contains(memory[i], ptr) ==>
                     (ptr - memory[i].value * 0x1000) / 16 !in old(pools[i].blocks)
      ensures forall i: nat, a: nat :: i < MAX_BLOCKS && a in old(pools[i].blocks) && IsAddress(memory[i], a, ptr) ==>
                r.Returns? && block == i && OnlyRemoved(i, a)
    {
      hide MemoryOk, PagesIn, Shows, Mmu.Valid;
      block := 0;
      forall i: nat, a: nat | i < MAX_BLOCKS && a in pools[i].blocks && IsAddress(memory[i], a, ptr)
        ensures 0 < ptr && i < blockCount && Contains(memory[i], ptr) && UnitOf(memory[i], ptr) == a
      {
        LivePointer(this, i, a, ptr);
      }
      if ptr == 0 {
        return Returns(()), 0;
      }
      var blockIndex := 0;
      while blockIndex < blockCount
        invariant blockIndex <= blockCount && Valid() && PoolsKept()
        invariant forall i :: 0 <= i < blockIndex ==> !Contains(memory[i], ptr)
      {
        if Contains(memory[blockIndex], ptr) {
          MmuVirtual(this);
          OneContains(memory, mmu.virtual, ptr, blockIndex);
          var freed := pools[blockIndex].Deallocate(UnitOf(memory[blockIndex], ptr));
          return freed, blockIndex;
        }
        blockIndex := blockIndex + 1;
      }
      r := Panics;
    }

    /** One allocation is gone, and no other pool has changed. */
    twostate predicate OnlyRemoved(block: nat, unit: nat)
      requires |pools| == MAX_BLOCKS && block < MAX_BLOCKS
      reads pools
    {
      && unit in old(pools[block].blocks) && pools[block].blocks == old(pools[block].blocks) - {unit}
      && forall i :: 0 <= i < MAX_BLOCKS && i != block ==> pools[i].blocks == old(pools[i].blocks)
    }
  }

  /** Byte address `ptr` is where unit `a` of the block begins. */
  predicate IsAddress(memory: Option<nat>, a: nat, ptr: nat) {
    memory.Some? && ptr == memory.value * 0x1000 + a * 16
  }

  lemma LivePointer(h: Heap, i: nat, a: nat, ptr: nat)
    requires h.Valid() && i < MAX_BLOCKS && a in h.pools[i].blocks && IsAddress(h.memory[i], a, ptr)
    ensures 0 < ptr && i < h.blockCount && Contains(h.memory[i], ptr)
    ensures UnitOf(h.memory[i], ptr) == a == (ptr - h.memory[i].value * 0x1000) / 16
  {
    hide Shows, Mmu.Valid;
    assert h.pools[i].blocks != map[];
    var p := h.pools[i];
    BlocksInside(p.poolSize, p.words[..], p.blocks, p.owners);
    assert 0 < p.blocks[a] && a + p.blocks[a] <= UNITS;
  }

  /** What was just allocated is freed, and every other allocation stays. */
  method AllocateThenDeallocate(heap: Heap, size: nat, alignment: nat) returns (r: Result)
    requires heap.Valid() && size < 0x1_0000_0000_0000_0000 && alignment < 0x1_0000_0000_0000_0000
    modifies heap`memory, heap`blockCount, heap`hint, heap.mmu, heap.mmu.l1, heap.mmu.physical, heap.mmu.physical.words,
             heap.mmu.virtual, heap.mmu.virtual.words, heap.pools, heap.words
    ensures heap.Valid()
    ensures forall i :: 0 <= i < MAX_BLOCKS ==> heap.pools[i].blocks == old(heap.pools[i].blocks)
  {
    hide MemoryOk, PagesIn, Shows, Mmu.Valid, Aligned, SomePower, GoodRequest, NoPagesLeft, FullUpTo, FullBefore, Heap.Contents, ToUnits, Contains, Heap.NoRoomAnywhere, Heap.PoolsValid;
    ghost var block, index;
    r, block, index := heap.AllocateAligned(size, alignment);
    if r.Allocated? {
      assert index in heap.pools[block].blocks && IsAddress(heap.memory[block], index, r.addr);
      ghost var was := heap.pools[block].blocks;
      var freed, from := heap.Deallocate(r.addr);
      AddedAndRemoved(old(heap.pools[block].blocks), index, ToUnits(size));
      assert heap.pools[block].blocks == was - {index};
    }
  }

  lemma AddedAndRemoved(blocks: map<nat, nat>, index: nat, units: nat)
    requires index !in blocks
    ensures blocks[index := units] - {index} == blocks
  {
  }

  /** The memory of two blocks does not overlap, so no pointer lies in both. */
  lemma OneContains(memory: seq<Option<nat>>, virtual: PoolAllocator, ptr: nat, i: nat)
    requires virtual.Valid() && MemoryOk(memory, virtual.blocks) && i < |memory| && Contains(memory[i], ptr)
    ensures forall j :: 0 <= j < |memory| && j != i ==> !Contains(memory[j], ptr)
  {
    hide Shows;
    forall j | 0 <= j < |memory| && j != i ensures !Contains(memory[j], ptr) {
      if memory[j].Some? {
        var b, c := memory[i].value - VIRTUAL_OFFSET, memory[j].value - VIRTUAL_OFFSET;
        assert b != c;
        if b < c {
          BlocksDisjoint(virtual.poolSize, virtual.words[..], virtual.blocks, virtual.owners, b, c);
        } else {
          BlocksDisjoint(virtual.poolSize, virtual.words[..], virtual.blocks, virtual.owners, c, b);
        }
      }
    }
  }

  /** Live allocations are disjoint byte ranges, each inside its own block. */
  lemma LiveAllocationsDisjoint(h: Heap, i: nat, a: nat, j: nat, b: nat)
    requires h.Valid() && i < MAX_BLOCKS && j < MAX_BLOCKS
    requires a in h.pools[i].blocks && b in h.pools[j].blocks && (i != j || a < b)
    ensures h.memory[i].Some? && h.memory[j].Some? && i < h.blockCount
    ensures var lo := AddressOf(h.memory[i].value, a);
            var hi := lo + h.pools[i].blocks[a] * GRANULARITY;
            && h.memory[i].value * PAGE_SIZE <= lo < hi <= h.memory[i].value * PAGE_SIZE + BLOCK_SIZE
            && var lo' := AddressOf(h.memory[j].value, b);
               var hi' := lo' + h.pools[j].blocks[b] * GRANULARITY;
               hi <= lo' || hi' <= lo
  {
    hide Shows, Mmu.Valid;
    assert h.pools[i].blocks != map[] && h.pools[j].blocks != map[];
    var p, q := h.pools[i], h.pools[j];
    BlocksInside(p.poolSize, p.words[..], p.blocks, p.owners);
    BlocksInside(q.poolSize, q.words[..], q.blocks, q.owners);
    assert 0 < p.blocks[a] && a + p.blocks[a] <= UNITS && b + q.blocks[b] <= UNITS;
    if i == j {
      BlocksDisjoint(p.poolSize, p.words[..], p.blocks, p.owners, a, b);
    } else {
      var lo, lo' := AddressOf(h.memory[i].value, a), AddressOf(h.memory[j].value, b);
      MmuVirtual(h);
      OneContains(h.memory, h.mmu.virtual, lo, i);
      OneContains(h.memory, h.mmu.virtual, lo', j);
    }
  }

  /** Where byte `x` of the heap lies in physical memory. */
  ghost function PhysicalByte(data: map<nat, nat>, x: nat): nat
    requires x / PAGE_SIZE in data
  {
    data[x / PAGE_SIZE] * PAGE_SIZE + x % PAGE_SIZE
  }

  /** Every byte of a live allocation is committed, and no two bytes of committed pages share a
      byte of physical memory or lie in a table: live allocations are apart physically, too. */
  lemma LiveBytesAreBacked(h: Heap, i: nat, a: nat, x: nat)
    requires h.Valid() && i < MAX_BLOCKS && a in h.pools[i].blocks
    ensures h.memory[i].Some?
    ensures var lo := AddressOf(h.memory[i].value, a);
            lo <= x < lo + h.pools[i].blocks[a] * GRANULARITY ==>
              && x / PAGE_SIZE in h.mmu.data && h.mmu.data[x / PAGE_SIZE] !in h.mmu.mem
              && forall y: nat :: y != x && y / PAGE_SIZE in h.mmu.data ==>
                   PhysicalByte(h.mmu.data, y) != PhysicalByte(h.mmu.data, x)
  {
    hide Shows, Mmu.Valid;
    assert h.pools[i].blocks != map[];
    var p := h.pools[i];
    BlocksInside(p.poolSize, p.words[..], p.blocks, p.owners);
    assert 0 < p.blocks[a] && a + p.blocks[a] <= UNITS;
    PagesAreDistinct(h.mmu);
    var base := h.memory[i].value;
    var lo := AddressOf(base, a);
    if lo <= x < lo + p.blocks[a] * GRANULARITY {
      assert base <= x / PAGE_SIZE < base + PAGES_PER_BLOCK;
      forall y: nat | y != x && y / PAGE_SIZE in h.mmu.data
        ensures PhysicalByte(h.mmu.data, y) != PhysicalByte(h.mmu.data, x)
      {
        BytesApart(h.mmu.data, x, y);
      }
    }
  }

  lemma BytesApart(data: map<nat, nat>, x: nat, y: nat)
    requires x != y && x / PAGE_SIZE in data && y / PAGE_SIZE in data
    requires x / PAGE_SIZE != y / PAGE_SIZE ==> data[x / PAGE_SIZE] != data[y / PAGE_SIZE]
    ensures PhysicalByte(data, x) != PhysicalByte(data, y)
  {
  }

  lemma MmuVirtual(h: Heap)
    requires h.Valid()
    ensures h.mmu.virtual.Valid()
  {
  }

  /** A unit aligned to the request is an address aligned to it, up to the page size. */
  lemma AddressAligned(base: nat, index: nat, alignment: nat)
    requires IsPowerOfTwo(alignment) && alignment <= PAGE_SIZE && Aligned(index, ToUnits(alignment))
    ensures AddressOf(base, index) % alignment == 0
  {
    hide IsPowerOfTwo, AddressOf, ToUnits;
    SmallPowers(alignment);
    if alignment <= 16 {
      UnitAligned(base, index, alignment);
    } else {
      UnitsPerAlignment(alignment);
      MultipleAligned(base, index, alignment, alignment / 16, PAGE_SIZE / alignment);
    }
  }

  /** Beyond the page size it takes luck: the address is aligned exactly when the block's first page is,
      which nothing sees to. */
  lemma BeyondPagesAlignedIff(base: nat, index: nat, alignment: nat)
    requires IsPowerOfTwo(alignment) && PAGE_SIZE <= alignment <= 0xF_FFFF_FFF0 && Aligned(index, ToUnits(alignment))
    ensures AddressOf(base, index) % alignment == 0 <==> base % (alignment / PAGE_SIZE) == 0
  {
    hide IsPowerOfTwo, ToUnits;
    LargePowers(alignment);
    UnitsOfLarge(alignment);
    PagesAligned(base, index, alignment, alignment / PAGE_SIZE);
  }

  lemma {:induction false} LargePowers(n: nat)
    requires IsPowerOfTwo(n) && PAGE_SIZE <= n
    ensures n == PAGE_SIZE * (n / PAGE_SIZE) && 0 < n / PAGE_SIZE
  {
    hide IsPowerOfTwo;
    if n > PAGE_SIZE {
      HalfNotTooSmall(n);
      LargePowers(n / 2);
      ModUnique(n, PAGE_SIZE, 2 * (n / 2 / PAGE_SIZE), 0);
    }
  }

  lemma HalfNotTooSmall(n: nat)
    requires IsPowerOfTwo(n) && PAGE_SIZE < n
    ensures IsPowerOfTwo(n / 2) && n == 2 * (n / 2) && PAGE_SIZE <= n / 2
  {
    if n / 2 < PAGE_SIZE {
      SmallPowers(n / 2);
    }
  }

  lemma UnitsOfLarge(alignment: nat)
    requires alignment % GRANULARITY == 0 && alignment <= 0xF_FFFF_FFF0
    ensures ToUnits(alignment) == alignment / GRANULARITY
  {
  }

  lemma PagesAligned(base: nat, index: nat, alignment: nat, k: nat)
    requires 0 < k && alignment == PAGE_SIZE * k && index % (alignment / GRANULARITY) == 0
    ensures AddressOf(base, index) % alignment == 0 <==> base % k == 0
  {
    var u := alignment / GRANULARITY;
    var q, b, m := index / u, base / k, base % k;
    assert index == u * q && GRANULARITY * u == alignment && base == k * b + m;
    Scaled(GRANULARITY, u, q);
    Scaled(PAGE_SIZE, k, b);
    assert alignment * (b + q) == alignment * b + alignment * q;
    ModUnique(AddressOf(base, index), alignment, b + q, PAGE_SIZE * m);
  }

  lemma Scaled(a: nat, b: nat, c: nat)
    ensures (b * c) * a == (a * b) * c
  {
  }

  /** Unit 0 of a block on an odd page passes for aligned to two pages. */
  lemma OddBlockIsNotAligned(base: nat)
    requires base % 2 == 1
    ensures Aligned(0, ToUnits(0x2000)) && AddressOf(base, 0) % 0x2000 != 0
  {
    assert IsPowerOfTwo(0x2000);
    BeyondPagesAlignedIff(base, 0, 0x2000);
  }

  lemma UnitAligned(base: nat, index: nat, alignment: nat)
    requires alignment in {1, 2, 4, 8, 16}
    ensures AddressOf(base, index) % alignment == 0
  {
    var k, x := 16 / alignment, base * 256 + index;
    assert AddressOf(base, index) == 16 * x;
    assert alignment * k == 16;
    assert alignment * (k * x) == (alignment * k) * x;
    MultipleMod(k * x, alignment);
  }

  lemma UnitsPerAlignment(alignment: nat)
    requires alignment in {32, 64, 128, 256, 512, 1024, 2048, 4096}
    ensures ToUnits(alignment) == alignment / 16 && alignment == 16 * (alignment / 16)
    ensures PAGE_SIZE == alignment * (PAGE_SIZE / alignment)
  {
  }

  lemma MultipleAligned(base: nat, index: nat, alignment: nat, u: nat, k: nat)
    requires 0 < u && alignment == 16 * u && PAGE_SIZE == alignment * k && index % u == 0
    ensures AddressOf(base, index) % alignment == 0
  {
    var q := index / u;
    assert index == u * q;
    assert 16 * (u * q) == alignment * q && base * PAGE_SIZE == alignment * (base * k);
    assert AddressOf(base, index) == alignment * (base * k + q);
    MultipleMod(base * k + q, alignment);
  }

  lemma {:induction false} SmallPowers(n: nat)
    requires IsPowerOfTwo(n) && n <= 4096
    ensures n in {1, 2, 4, 8, 16, 32, 64, 128, 256, 512, 1024, 2048, 4096}
  {
    if n > 1 {
      SmallPowers(n / 2);
      assert n == 2 * (n / 2);
    }
  }

  /** The units cover the size asked for exactly when it is below 64 GB: beyond, storing the count
      in 32 bits makes the block too short. */
  lemma UnitsCoverSizeIff(size: nat)
    requires size < 0x1_0000_0000_0000_0000
    ensures ToUnits(size) * GRANULARITY >= size <==> size <= 0xF_FFFF_FFF0
    ensures size <= 0xF_FFFF_FFF0 ==> ToUnits(size) * GRANULARITY < size + GRANULARITY
  {
  }

  /** Blocks of 64 KB in 16 pages of 4 KB and 4096 units of 16 bytes, 256 of them. */
  lemma Geometry()
    ensures BLOCK_SIZE == 0x1_0000 && PAGES_PER_BLOCK == 16 && PAGE_SIZE == 0x1000 && UNITS == 4096
    ensures GRANULARITY == 16 && MAX_BLOCKS == 256
    ensures BLOCK_SIZE == PAGES_PER_BLOCK * PAGE_SIZE == UNITS * GRANULARITY
  {
  }

  /** 64 GB and 16 bytes are taken for 16 bytes. */
  lemma OversizeIsTruncated()
    ensures ToUnits(0x10_0000_0010) == 1
  {
  }

  lemma UnitsFit(x: nat)
    ensures ToUnits(x) < 0x1_0000_0000
  {
  }

  lemma MemoryStays(memory: seq<Option<nat>>, virtual: map<nat, nat>, virtual': map<nat, nat>,
                    data: map<nat, nat>, data': map<nat, nat>)
    requires MemoryOk(memory, virtual) && forall b :: b in virtual ==> b in virtual' && virtual'[b] == virtual[b]
    requires PagesIn(memory, data) && forall v :: v in data ==> v in data'
    ensures MemoryOk(memory, virtual') && PagesIn(memory, data')
  {
  }

  lemma MemoryGrows(memory: seq<Option<nat>>, virtual: map<nat, nat>, data: map<nat, nat>, i: nat, base: nat)
    requires MemoryOk(memory, virtual) && PagesIn(memory, data) && i < |memory|
    requires VIRTUAL_OFFSET <= base && base - VIRTUAL_OFFSET !in virtual
    requires forall v :: base <= v < base + PAGES_PER_BLOCK ==> v in data
    ensures MemoryOk(memory[i := Some(base)], virtual[base - VIRTUAL_OFFSET := PAGES_PER_BLOCK])
    ensures PagesIn(memory[i := Some(base)], data)
  {
  }

  lemma FreshBlockFits(h: Heap, i: nat, units: nat, alignment: nat)
    requires h.Valid() && i < MAX_BLOCKS && h.pools[i].blocks == map[] && units <= UNITS && IsPowerOfTwo(alignment)
    ensures !NoFitFrom(h.Contents()[i], units, alignment, 0)
  {
    hide Mmu.Valid, Shows, NoFitFrom, MemoryOk, PagesIn, Heap.UseOk;
    FreshPoolFits(h.pools[i].poolSize, h.words[i][..], h.pools[i].owners, units, alignment);
  }

  /** A pool without blocks has room for anything up to its size. */
  lemma FreshPoolFits(poolSize: nat, ws: seq<Word>, o: seq<Owner>, units: nat, alignment: nat)
    requires Shows(poolSize, ws, map[], Idle, o) && units <= poolSize && IsPowerOfTwo(alignment)
    ensures !NoFitFrom(ws, units, alignment, 0)
  {
    var pool, s := Pool(poolSize, Intended), State(ws, map[], [Idle]);
    forall g: nat | g < units ensures !Used(ws, g) {
      assert (o[g] == Tail) == Extent(pool, s, Tail).Has(g);
      assert forall t :: !Extent(pool, s, Thread(t)).Has(g);
      var c := o[g];
      assert c == Free || Extent(pool, s, c).Has(g);
    }
    assert Fits(ws, 0, units) && Aligned(0, alignment);
  }
}
