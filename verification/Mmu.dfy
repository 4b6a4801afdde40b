/** Mapping pages (src/Mmu.cpp, lines 388-512) on top of two pools: one hands out physical pages,
    the other virtual page numbers. */
module PageMapping {
  import opened Bits
  import opened Kernel
  import opened PageTable
  import opened PoolSearch
  import opened SequentialPool

  const PHYSICAL_PAGES: nat := 0x1_0000
  const PHYSICAL_OFFSET: nat := 0x2_0000
  const VIRTUAL_PAGES: nat := 0x4_0000
  const VIRTUAL_OFFSET: nat := 0x10_0000
  const APERTURE: nat := 0x70_0000
  const GPU_WINDOW: nat := 0xC_0000

  /** What a physical block is used for. */
  datatype Role = TablePage | DataPage(v: nat) | GpuBlock

  /** The physical page behind a virtual page. */
  function Translate(leaf: Leaf, v: nat): Option<nat> {
    match leaf
    case Block1(e) => Some(BlockBase(e) + v % 0x4_0000)
    case Page(e) => Some(OutputPage(e))
    case _ => None
  }

  /** A page of the region that the virtual allocator hands out: all of it lies under entry 4. */
  predicate InRegion(v: nat) { VIRTUAL_OFFSET <= v < VIRTUAL_OFFSET + VIRTUAL_PAGES }

  /** What each physical block is for; the tables are exactly where they should be. */
  ghost predicate RolesOk(mem: map<nat, Table>, blocks: map<nat, nat>, role: map<nat, Role>) {
    && role.Keys == blocks.Keys
    && (forall b :: b in role && !role[b].GpuBlock? ==> blocks[b] == 1)
    && (forall t :: t in mem ==> PHYSICAL_OFFSET <= t && t - PHYSICAL_OFFSET in role && role[t - PHYSICAL_OFFSET] == TablePage)
  }

  /** Every committed page has a physical page of its own and translates to it. */
  ghost predicate DataOk(l1: seq<nat>, mem: map<nat, Table>, role: map<nat, Role>, data: map<nat, nat>)
    requires |l1| == 512
  {
    forall v :: v in data ==>
      && InRegion(v) && PHYSICAL_OFFSET <= data[v]
      && data[v] - PHYSICAL_OFFSET in role && role[data[v] - PHYSICAL_OFFSET] == DataPage(v)
      && Walk(l1, mem, v) == Page(L3NormalMem(data[v] * PAGE))
  }

  /** Level 1 is as it was set up, but for the region's entry. */
  ghost predicate WindowsKept(l1: seq<nat>, isRpi4: bool)
    requires |l1| == 512
  {
    (forall i :: 0 <= i < 512 && i != 4 ==> l1[i] == InitialEntry(isRpi4, i)) && !IsBlock(l1[4])
  }

  /** All translations are the same, but perhaps that of `v`. */
  ghost predicate SameBut(l1: seq<nat>, mem: map<nat, Table>, l1': seq<nat>, mem': map<nat, Table>, v: nat)
    requires |l1| == 512 && |l1'| == 512
  {
    forall u: nat :: u < 0x800_0000 && u != v ==> Walk(l1', mem', u) == Walk(l1, mem, u)
  }

  /** All translations are the same, but perhaps those of the pages `lo .. hi`. */
  ghost predicate SameOutside(l1: seq<nat>, mem: map<nat, Table>, l1': seq<nat>, mem': map<nat, Table>, lo: nat, hi: nat)
    requires |l1| == 512 && |l1'| == 512
  {
    forall u: nat :: u < 0x800_0000 && !(lo <= u < hi) ==> Walk(l1', mem', u) == Walk(l1, mem, u)
  }

  /** The pages `lo .. hi` are committed; every other page is, with its physical page, as before. */
  ghost predicate CommittedOnly(data: map<nat, nat>, data': map<nat, nat>, lo: nat, hi: nat) {
    && (forall v :: lo <= v < hi ==> v in data')
    && (forall v :: v in data' && !(lo <= v < hi) ==> v in data && data'[v] == data[v])
    && (forall v :: v in data ==> v in data')
  }

  /** Page `v` belongs to a virtual block that is in `blocks'` and was not in `blocks`. */
  ghost predicate NewlyHandedOut(blocks: map<nat, nat>, blocks': map<nat, nat>, v: nat) {
    exists b :: b in blocks' && b !in blocks && VIRTUAL_OFFSET + b <= v < VIRTUAL_OFFSET + b + blocks'[b]
  }

  ghost predicate Extends(role: map<nat, Role>, role': map<nat, Role>) {
    forall b :: b in role ==> b in role' && role'[b] == role[b]
  }

  class Mmu {
    const isRpi4: bool
    const l1: array<nat>
    /** the tables in physical memory, by physical page number */
    var mem: map<nat, Table>
    const physical: PoolAllocator
    const virtual: PoolAllocator
    ghost var place: map<nat, Place>
    ghost var role: map<nat, Role>
    /** the committed pages: virtual to physical page number */
    ghost var data: map<nat, nat>

    /** The tables form a tree whose nodes are pages taken from the physical pool. */
    ghost predicate TablesOk()
      reads this, l1, physical, physical.words
    {
      && physical.Valid() && physical.poolSize == PHYSICAL_PAGES
      && l1.Length == 512 && Tree(l1[..], mem, place) && RolesOk(mem, physical.blocks, role)
    }

    ghost predicate Valid()
      reads this, l1, physical, physical.words, virtual, virtual.words
    {
      && physical != virtual && physical.words != virtual.words
      && TablesOk() && virtual.Valid() && virtual.poolSize == VIRTUAL_PAGES
      && WindowsKept(l1[..], isRpi4) && DataOk(l1[..], mem, role, data)
    }

    constructor (isRpi4: bool)
      ensures Valid() && this.isRpi4 == isRpi4 && data == map[] && mem == map[]
      ensures fresh(l1) && fresh(physical) && fresh(physical.words) && fresh(virtual) && fresh(virtual.words)
    {
      this.isRpi4 := isRpi4;
      l1 := new nat[512](i => InitialEntry(isRpi4, i));
      physical := new PoolAllocator(PHYSICAL_PAGES);
      virtual := new PoolAllocator(VIRTUAL_PAGES);
      mem, place, role, data := map[], map[], map[], map[];
      new;
      InitialTree(isRpi4);
      assert l1[..] == InitialL1(isRpi4);
    }

    /** `PhysicalMemoryAllocator.Allocate(1) + PhysicalMemoryAllocatorPageOffset`; `None` when no
        page is left, which the source does not check. */
    method TakePage(ghost r: Role) returns (p: Option<nat>)
      requires TablesOk() && !r.GpuBlock?
      modifies physical`blocks, physical`owners, physical.words, this`role
      ensures TablesOk() && Extends(old(role), role)
      ensures p.None? ==> NoFitFrom(physical.words[..], 1, 1, 0)
      ensures p.Some? ==>
                && PHYSICAL_OFFSET <= p.value < PHYSICAL_OFFSET + PHYSICAL_PAGES && p.value !in mem
                && p.value - PHYSICAL_OFFSET !in old(role) && role == old(role)[p.value - PHYSICAL_OFFSET := r]
    {
      hide Tree, NoFitFrom, IsFirstFit, Shows, SomePower;
      assert role.Keys == physical.blocks.Keys;
      OneIsPower();
      var index := physical.Allocate(1, 1);
      if index.value == NO_ROOM {
        return None;
      }
      BlocksInside(physical.poolSize, physical.words[..], physical.blocks, physical.owners);
      assert index.value !in role && physical.blocks[index.value] == 1;
      role := role[index.value := r];
      p := Some(index.value + PHYSICAL_OFFSET);
      assert p.value - PHYSICAL_OFFSET == index.value;
    }

    /** Lines 437-457: finds or creates the level 2 table. */
    method MapOnePage(v: nat, e: nat) returns (ok: bool)
      requires TablesOk() && v < 0x800_0000 && !IsBlock(l1[I1(v)])
      modifies this`mem, this`place, this`role, l1, physical`blocks, physical`owners, physical.words
      ensures TablesOk() && Extends(old(role), role)
      ensures !ok ==> NoFitFrom(physical.words[..], 1, 1, 0) && Walk(l1[..], mem, v) == old(Walk(l1[..], mem, v))
      ensures ok ==> Walk(l1[..], mem, v) == if IsValid(e) then Page(e) else Unmapped
      ensures SameBut(old(l1[..]), old(mem), l1[..], mem, v)
      ensures forall i :: 0 <= i < 512 && i != I1(v) ==> l1[i] == old(l1[i])
      ensures !IsBlock(l1[I1(v)])
    {
      hide Tree, NoFitFrom, Walk, TableDescriptor, OutputPage, WithNewTable, Shows, IsTable, IsValid, IsBlock;
      Kinds();
      var i := v / 0x4_0000;
      if !IsValid(l1[i]) {
        var p := TakePage(TablePage);
        if p.None? {
          return false;
        }
        AddLevel2(l1[..], mem, place, i, p.value);
        TableDescriptorDecodes(p.value);
        l1[i] := TableDescriptor(p.value * PAGE);
        place := place[p.value := Level2(i)];
        NewTableRole(mem, physical.blocks, role, p.value);
        mem := WithNewTable(mem, p.value);
      }
      ok := MapInLevel2(OutputPage(l1[i]), v % 0x4_0000, e, v);
    }

    /** Lines 415-435: finds or creates the level 3 table, then sets the entry (lines 405-413). */
    method MapInLevel2(t: nat, v18: nat, e: nat, ghost v: nat) returns (ok: bool)
      requires TablesOk() && v < 0x800_0000 && v18 == v % 0x4_0000
      requires IsTable(l1[I1(v)]) && t == OutputPage(l1[I1(v)])
      modifies this`mem, this`place, this`role, physical`blocks, physical`owners, physical.words
      ensures TablesOk() && Extends(old(role), role)
      ensures !ok ==> NoFitFrom(physical.words[..], 1, 1, 0) && Walk(l1[..], mem, v) == old(Walk(l1[..], mem, v))
      ensures ok ==> Walk(l1[..], mem, v) == if IsValid(e) then Page(e) else Unmapped
      ensures SameBut(l1[..], old(mem), l1[..], mem, v)
    {
      hide Tree, NoFitFrom, Walk, TableDescriptor, OutputPage, WithEntry, I1, I2, I3, Shows;
      LowerIndices(v);
      var j := v18 / 0x200;
      ok := NeedLevel3(t, I1(v), j);
      if ok {
        SetPage(l1[..], mem, place, v, e);
        SameKeys(mem, OutputPage(mem[t][j]), v18 % 0x200, e);
        mem := WithEntry(mem, OutputPage(mem[t][j]), v18 % 0x200, e);
      }
    }

    /** Lines 465-486: every page of the range gets a physical page of its own. Nothing else moves,
        even when the pages run out. */
    method CommitPages(basePage: nat, pageCount: nat) returns (ok: bool)
      requires Valid() && VIRTUAL_OFFSET <= basePage && basePage + pageCount <= VIRTUAL_OFFSET + VIRTUAL_PAGES
      modifies this`mem, this`place, this`role, this`data, l1, physical`blocks, physical`owners, physical.words
      ensures Valid()
      ensures ok ==> CommittedOnly(old(data), data, basePage, basePage + pageCount)
      ensures !ok ==> exists stop: nat :: stop < basePage + pageCount && CommittedOnly(old(data), data, basePage, stop)
      ensures SameOutside(old(l1[..]), old(mem), l1[..], mem, basePage, basePage + pageCount)
      ensures !ok ==> NoFitFrom(physical.words[..], 1, 1, 0)
    {
      hide Tree, NoFitFrom, Walk, Shows, CommittedOnly, SameOutside, SameBut;
      NothingCommitted(data, l1[..], mem, basePage, basePage + pageCount);
      for i := 0 to pageCount
        invariant Valid()
        invariant CommittedOnly(old(data), data, basePage, basePage + i)
        invariant SameOutside(old(l1[..]), old(mem), l1[..], mem, basePage, basePage + pageCount)
      {
        ghost var was, wasMem, wasData := l1[..], mem, data;
        ok := CommitOne(basePage + i);
        OutsideOn(old(l1[..]), old(mem), was, wasMem, l1[..], mem, basePage, basePage + pageCount, basePage + i);
        if !ok {
          assert CommittedOnly(old(data), data, basePage, basePage + i);
          return;
        }
        CommittedOn(old(data), wasData, data, basePage, basePage + i);
      }
      ok := true;
    }

    method CommitOne(v: nat) returns (ok: bool)
      requires Valid() && InRegion(v)
      modifies this`mem, this`place, this`role, this`data, l1, physical`blocks, physical`owners, physical.words
      ensures Valid()
      ensures !ok ==> data == old(data) && NoFitFrom(physical.words[..], 1, 1, 0)
      ensures ok ==> v in data && data == old(data)[v := data[v]]
      ensures SameBut(old(l1[..]), old(mem), l1[..], mem, v)
    {
      hide Tree, NoFitFrom, Walk, Shows, L3NormalMem;
      var p := TakePage(DataPage(v));
      DataStays(l1[..], mem, old(role), role, data);
      if p.None? {
        return false;
      }
      PageDescriptorDecodes(p.value);
      ghost var was, wasRole := l1[..], role;
      ghost var wasMem := mem;
      ok := MapOnePage(v, L3NormalMem(p.value * PAGE));
      if ok {
        data := data[v := p.value];
      }
      WindowsStay(was, l1[..], isRpi4);
      DataMoves(was, wasMem, wasRole, l1[..], mem, role, old(data), v, p.value, ok);
    }

    /** Lines 488-499. `None` when either pool has no room left, which the source does not check. */
    method AllocateAndCommitPages(pageCount: nat) returns (base: Option<nat>)
      requires Valid() && 0 < pageCount <= 0x1_0000_0000 - 64
      modifies this`mem, this`place, this`role, this`data, l1, physical`blocks, physical`owners, physical.words,
               virtual`blocks, virtual`owners, virtual.words
      ensures Valid()
      ensures forall v :: v in old(data) ==> v in data
      ensures forall v: nat :: v in old(data) && !NewlyHandedOut(old(virtual.blocks), virtual.blocks, v) ==> data[v] == old(data)[v]
      ensures forall u: nat :: u < 0x800_0000 && !NewlyHandedOut(old(virtual.blocks), virtual.blocks, u) ==>
                Walk(l1[..], mem, u) == old(Walk(l1[..], mem, u))
      ensures forall b :: b in old(virtual.blocks) ==> b in virtual.blocks && virtual.blocks[b] == old(virtual.blocks)[b]
      ensures base.None? ==> NoFitFrom(physical.words[..], 1, 1, 0) || NoFitFrom(virtual.words[..], pageCount, 1, 0)
      ensures base.Some? ==>
                && VIRTUAL_OFFSET <= base.value && base.value + pageCount <= VIRTUAL_OFFSET + VIRTUAL_PAGES
                && base.value - VIRTUAL_OFFSET !in old(virtual.blocks)
                && virtual.blocks == old(virtual.blocks)[base.value - VIRTUAL_OFFSET := pageCount]
                && forall v :: base.value <= v < base.value + pageCount ==> v in data
    {
      hide Tree, NoFitFrom, Walk, Shows, IsFirstFit, Fits, NewlyHandedOut, SomePower;
      OneIsPower();
      var index := virtual.Allocate(pageCount, 1);
      if index.value == NO_ROOM {
        return None;
      }
      BlocksInside(virtual.poolSize, virtual.words[..], virtual.blocks, virtual.owners);
      assert virtual.blocks[index.value] == pageCount;
      NewBlock(old(virtual.blocks), virtual.blocks, index.value);
      var ok := CommitPages(index.value + VIRTUAL_OFFSET, pageCount);
      base := if ok then Some(index.value + VIRTUAL_OFFSET) else None;
    }

    /** Lines 507-512: the pages are reached through the window at 0xC000'0000. */
    method AllocateGpuMemory(pageCount: nat) returns (base: Option<nat>)
      requires Valid() && 0 < pageCount <= 0x1_0000_0000 - 64
      modifies this`role, physical`blocks, physical`owners, physical.words
      ensures Valid() && Extends(old(role), role)
      ensures base.None? ==> NoFitFrom(physical.words[..], pageCount, 1, 0)
      ensures base.Some? ==>
                && GPU_WINDOW + PHYSICAL_OFFSET <= base.value
                && var b := base.value - GPU_WINDOW - PHYSICAL_OFFSET;
                   b !in old(role) && role == old(role)[b := GpuBlock] && physical.blocks == old(physical.blocks)[b := pageCount]
      ensures base.Some? ==> GpuPages(l1[..], mem, base.value, pageCount)
    {
      hide Tree, NoFitFrom, Walk, Shows, IsFirstFit, Fits, GpuPages, SomePower;
      assert role.Keys == physical.blocks.Keys;
      OneIsPower();
      var index := physical.Allocate(pageCount, 1);
      if index.value == NO_ROOM {
        return None;
      }
      BlocksInside(physical.poolSize, physical.words[..], physical.blocks, physical.owners);
      assert index.value !in role;
      role := role[index.value := GpuBlock];
      DataStays(l1[..], mem, old(role), role, data);
      assert physical.blocks[index.value] == pageCount;
      base := Some(index.value + PHYSICAL_OFFSET + GPU_WINDOW);
      GpuPagesReached(l1[..], mem, isRpi4, base.value, pageCount);
    }

    /** Lines 418-432 */
    method NeedLevel3(t: nat, ghost i: nat, j: nat) returns (ok: bool)
      requires TablesOk() && i < 512 && j < 512 && IsTable(l1[i]) && t == OutputPage(l1[i])
      modifies this`mem, this`place, this`role, physical`blocks, physical`owners, physical.words
      ensures TablesOk() && Extends(old(role), role) && t in mem && |mem[t]| == 512
      ensures if ok then IsValid(mem[t][j]) else NoFitFrom(physical.words[..], 1, 1, 0)
      ensures forall v: nat :: v < 0x800_0000 ==> Walk(l1[..], mem, v) == old(Walk(l1[..], mem, v))
    {
      hide Tree, NoFitFrom, Walk, TableDescriptor, OutputPage, WithLevel3, Shows;
      TableAt(l1[..], mem, place, i);
      if !IsValid(mem[t][j]) {
        var p := TakePage(TablePage);
        if p.None? {
          return false;
        }
        AddLevel3(l1[..], mem, place, i, j, p.value);
        Level3Added(mem, t, j, p.value);
        NewTableRole(mem, physical.blocks, role, p.value);
        place := place[p.value := Level3(i, j)];
        mem := WithLevel3(mem, t, j, p.value);
      }
      ok := true;
    }
  }

  /** Each of the pages translates to the physical page it stands for. */
  ghost predicate GpuPages(l1: seq<nat>, mem: map<nat, Table>, base: nat, count: nat)
    requires |l1| == 512
  {
    forall v: nat :: base <= v < base + count ==>
      GPU_WINDOW <= v < 0x800_0000 && Translate(Walk(l1, mem, v), v) == Some(v - GPU_WINDOW)
  }

  lemma GpuPagesReached(l1: seq<nat>, mem: map<nat, Table>, isRpi4: bool, base: nat, count: nat)
    requires |l1| == 512 && WindowsKept(l1, isRpi4) && GPU_WINDOW <= base && base + count <= GPU_WINDOW + 0x4_0000
    ensures GpuPages(l1, mem, base, count)
  {
    forall v: nat | base <= v < base + count ensures Translate(Walk(l1, mem, v), v) == Some(v - GPU_WINDOW) {
      GpuWindow(l1, mem, isRpi4, v - GPU_WINDOW);
    }
  }

  lemma DataStays(l1: seq<nat>, mem: map<nat, Table>, role: map<nat, Role>, role': map<nat, Role>, data: map<nat, nat>)
    requires |l1| == 512 && DataOk(l1, mem, role, data) && Extends(role, role')
    ensures DataOk(l1, mem, role', data)
  {
  }

  lemma WindowsStay(l1: seq<nat>, l1': seq<nat>, isRpi4: bool)
    requires |l1| == 512 && |l1'| == 512 && WindowsKept(l1, isRpi4)
    requires forall i :: 0 <= i < 512 && i != 4 ==> l1'[i] == l1[i]
    requires !IsBlock(l1'[4])
    ensures WindowsKept(l1', isRpi4)
  {
  }

  lemma DataMoves(l1: seq<nat>, mem: map<nat, Table>, role: map<nat, Role>,
                  l1': seq<nat>, mem': map<nat, Table>, role': map<nat, Role>, data: map<nat, nat>, v: nat, p: nat, ok: bool)
    requires |l1| == 512 && |l1'| == 512 && DataOk(l1, mem, role, data) && Extends(role, role')
    requires InRegion(v) && PHYSICAL_OFFSET <= p && p - PHYSICAL_OFFSET in role && role[p - PHYSICAL_OFFSET] == DataPage(v)
    requires SameBut(l1, mem, l1', mem', v)
    requires if ok then Walk(l1', mem', v) == Page(L3NormalMem(p * PAGE)) else Walk(l1', mem', v) == Walk(l1, mem, v)
    ensures DataOk(l1', mem', role', if ok then data[v := p] else data)
  {
    hide Walk;
  }

  lemma NewBlock(blocks: map<nat, nat>, blocks': map<nat, nat>, b: nat)
    requires b !in blocks && b in blocks' && blocks' == blocks[b := blocks'[b]]
    ensures forall v: nat :: NewlyHandedOut(blocks, blocks', v) <==> VIRTUAL_OFFSET + b <= v < VIRTUAL_OFFSET + b + blocks'[b]
  {
  }

  lemma NothingCommitted(data: map<nat, nat>, l1: seq<nat>, mem: map<nat, Table>, lo: nat, hi: nat)
    requires |l1| == 512
    ensures CommittedOnly(data, data, lo, lo) && SameOutside(l1, mem, l1, mem, lo, hi)
  {
  }

  lemma CommittedOn(data: map<nat, nat>, data': map<nat, nat>, data'': map<nat, nat>, lo: nat, v: nat)
    requires CommittedOnly(data, data', lo, v) && lo <= v && v in data'' && data'' == data'[v := data''[v]]
    ensures CommittedOnly(data, data'', lo, v + 1)
  {
  }

  lemma OutsideOn(l1: seq<nat>, mem: map<nat, Table>, l1': seq<nat>, mem': map<nat, Table>,
                  l1'': seq<nat>, mem'': map<nat, Table>, lo: nat, hi: nat, v: nat)
    requires |l1| == |l1'| == |l1''| == 512 && lo <= v < hi
    requires SameOutside(l1, mem, l1', mem', lo, hi) && SameBut(l1', mem', l1'', mem'', v)
    ensures SameOutside(l1, mem, l1'', mem'', lo, hi)
  {
    hide Walk;
  }

  lemma InitialTree(isRpi4: bool)
    ensures Tree(InitialL1(isRpi4), map[], map[]) && !IsBlock(InitialEntry(isRpi4, 4))
  {
    hide InitialEntry;
    forall i: nat ensures !IsTable(InitialEntry(isRpi4, i)) {
      NoInitialTable(isRpi4, i);
    }
    NoInitialTable(isRpi4, 4);
  }

  lemma NoInitialTable(isRpi4: bool, i: nat)
    ensures !IsTable(InitialEntry(isRpi4, i)) && !IsBlock(InitialEntry(isRpi4, 4))
  {
  }

  /** A table page just taken can be added to the tables. */
  lemma NewTableRole(mem: map<nat, Table>, blocks: map<nat, nat>, role: map<nat, Role>, p: nat)
    requires RolesOk(mem, blocks, role) && PHYSICAL_OFFSET <= p
    requires p - PHYSICAL_OFFSET in role && role[p - PHYSICAL_OFFSET] == TablePage
    ensures forall mem': map<nat, Table> :: mem'.Keys == mem.Keys + {p} ==> RolesOk(mem', blocks, role)
    ensures WithNewTable(mem, p).Keys == mem.Keys + {p}
  {
  }

  lemma TableAt(l1: seq<nat>, mem: map<nat, Table>, place: map<nat, Place>, i: nat)
    requires Tree(l1, mem, place) && i < 512 && IsTable(l1[i])
    ensures OutputPage(l1[i]) in mem && |mem[OutputPage(l1[i])]| == 512
  {
  }

  lemma Level3Added(mem: map<nat, Table>, t: nat, j: nat, p: nat)
    requires t in mem && j < |mem[t]| && p < 0x10_0000_0000 && p !in mem
    ensures WithLevel3(mem, t, j, p).Keys == mem.Keys + {p} && |WithLevel3(mem, t, j, p)[t]| == |mem[t]|
    ensures WithLevel3(mem, t, j, p)[t][j] == TableDescriptor(p * PAGE) && IsValid(TableDescriptor(p * PAGE))
  {
    TableDescriptorDecodes(p);
  }

  lemma SameKeys(mem: map<nat, Table>, t: nat, k: nat, e: nat)
    requires t in mem && k < |mem[t]|
    ensures WithEntry(mem, t, k, e).Keys == mem.Keys
  {
  }

  // ---------- What holds between calls ----------

  /** The window at 0x7'0000'0000 maps the first 8 GB of physical memory one to one. */
  lemma ApertureWindow(l1: seq<nat>, mem: map<nat, Table>, isRpi4: bool, x: nat)
    requires |l1| == 512 && WindowsKept(l1, isRpi4) && x < 0x20_0000
    ensures Translate(Walk(l1, mem, APERTURE + x), APERTURE + x) == Some(x)
  {
    var g := x / 0x4_0000;
    assert I1(APERTURE + x) == 28 + g && (APERTURE + x) % 0x4_0000 == x % 0x4_0000;
    assert l1[28 + g] == InitialEntry(isRpi4, 28 + g) == L1GpuMem(g * BLOCK1);
    BlockDescriptorDecodes(g, 2, 2, true);
    hide L1GpuMem, BlockBase, InitialEntry;
  }

  /** The window at 0xC000'0000 maps the first gigabyte. */
  lemma GpuWindow(l1: seq<nat>, mem: map<nat, Table>, isRpi4: bool, x: nat)
    requires |l1| == 512 && WindowsKept(l1, isRpi4) && x < 0x4_0000
    ensures Translate(Walk(l1, mem, GPU_WINDOW + x), GPU_WINDOW + x) == Some(x)
  {
    assert I1(GPU_WINDOW + x) == 3 && (GPU_WINDOW + x) % 0x4_0000 == x;
    assert l1[3] == InitialEntry(isRpi4, 3) == L1GpuMem(0);
    BlockDescriptorDecodes(0, 2, 2, true);
    hide L1GpuMem, BlockBase, InitialEntry;
  }

  /** The leaf of page `x` is a block `gigabytes` up, with these attributes, and translates to `to`. */
  ghost predicate MapsTo(l1: seq<nat>, mem: map<nat, Table>, x: nat, gigabytes: nat, attr: nat, sh: nat, xn: nat)
    requires |l1| == 512 && x < 0x800_0000
  {
    && Walk(l1, mem, x).Block1? && BlockFields(Walk(l1, mem, x).entry, gigabytes, attr, sh, xn)
    && Translate(Walk(l1, mem, x), x) == Some(gigabytes * 0x4_0000 + x % 0x4_0000)
  }

  /** What every page outside the allocator's first gigabyte translates to, in every reachable state:
      normal memory, device memory and the two windows as each board lays them out, and nothing
      elsewhere. */
  lemma WhereEveryPageGoes(l1: seq<nat>, mem: map<nat, Table>, isRpi4: bool, x: nat)
    requires |l1| == 512 && WindowsKept(l1, isRpi4) && x < 0x800_0000 && !(0x10_0000 <= x < 0x14_0000)
    ensures var i := x / 0x4_0000;
      && (i == 0 ==> MapsTo(l1, mem, x, 0, 0, 3, 0))
      && (i == 1 ==> MapsTo(l1, mem, x, if isRpi4 then 1 else 0, 1, 2, 3))
      && (i == 2 ==> MapsTo(l1, mem, x, if isRpi4 then 3 else 1, 1, 2, 3))
      && (i == 3 ==> MapsTo(l1, mem, x, 0, 2, 2, 3))
      && (isRpi4 && i in {17, 19, 24} ==> MapsTo(l1, mem, x, i, 1, 2, 3))
      && (28 <= i <= 35 ==> MapsTo(l1, mem, x, i - 28, 2, 2, 3))
      && (i > 3 && !(isRpi4 && i in {17, 19, 24}) && !(28 <= i <= 35) ==> Walk(l1, mem, x) == Unmapped)
  {
    hide L1NormalMem, L1DeviceMem, L1GpuMem, BlockFields;
    var i := x / 0x4_0000;
    var g := if i == 1 then (if isRpi4 then 1 else 0) else if i == 2 then (if isRpi4 then 3 else 1)
             else if i == 0 || i == 3 then 0 else if 28 <= i <= 35 then i - 28 else i;
    assert l1[i] == InitialEntry(isRpi4, i);
    BlockKinds(g);
    BlockLeaf(l1, mem, x, g, 0, 3, 0);
    BlockLeaf(l1, mem, x, g, 1, 2, 3);
    BlockLeaf(l1, mem, x, g, 2, 2, 3);
    NoLeaf(l1, mem, x);
  }

  lemma BlockLeaf(l1: seq<nat>, mem: map<nat, Table>, x: nat, g: nat, attr: nat, sh: nat, xn: nat)
    requires |l1| == 512 && x < 0x800_0000
    ensures BlockFields(l1[x / 0x4_0000], g, attr, sh, xn) ==> MapsTo(l1, mem, x, g, attr, sh, xn)
  {
    Kinds();
  }

  lemma NoLeaf(l1: seq<nat>, mem: map<nat, Table>, x: nat)
    requires |l1| == 512 && x < 0x800_0000
    ensures l1[x / 0x4_0000] == 0 ==> Walk(l1, mem, x) == Unmapped
  {
  }

  /** Where the allocators' pages are: 1 GB of addresses from 4 GB on, 256 MB of memory from 512 MB
      on. Every committed page reads as normal memory. */
  lemma WhereCommittedPagesAre(m: Mmu)
    requires m.Valid()
    ensures forall v :: v in m.data ==>
      && 0x10_0000 <= v < 0x14_0000 && 0x2_0000 <= m.data[v] < 0x3_0000
      && Walk(m.l1[..], m.mem, v) == Page(m.data[v] * 0x1000 + 0x703)
    ensures forall t :: t in m.mem ==> 0x2_0000 <= t < 0x3_0000
  {
    hide Shows, Tree, WindowsKept, L3NormalMem;
    var p := m.physical;
    BlocksInside(p.poolSize, p.words[..], p.blocks, p.owners);
    forall v | v in m.data ensures m.data[v] < 0x3_0000 && L3NormalMem(m.data[v] * 0x1000) == m.data[v] * 0x1000 + 0x703 {
      assert m.data[v] - PHYSICAL_OFFSET in m.role;
      PageKind(m.data[v]);
    }
    forall t | t in m.mem ensures t < 0x3_0000 {
      assert t - PHYSICAL_OFFSET in m.role;
    }
  }

  /** Committed pages have different physical pages, none of which holds a table. */
  lemma PagesAreDistinct(m: Mmu)
    requires m.Valid()
    ensures forall u, v :: u in m.data && v in m.data && u != v ==> m.data[u] != m.data[v]
    ensures forall u :: u in m.data ==> m.data[u] !in m.mem
  {
    hide Shows, Tree, Walk, WindowsKept;
    forall u, v | u in m.data && v in m.data && u != v ensures m.data[u] != m.data[v] {
      assert m.role[m.data[u] - PHYSICAL_OFFSET] == DataPage(u) && m.role[m.data[v] - PHYSICAL_OFFSET] == DataPage(v);
    }
    forall u | u in m.data ensures m.data[u] !in m.mem {
      assert m.role[m.data[u] - PHYSICAL_OFFSET] == DataPage(u);
    }
  }

  /** Memory handed to the GPU holds no committed page and no table. */
  lemma GpuBlocksApart(m: Mmu, b: nat)
    requires m.Valid() && b in m.role && m.role[b].GpuBlock?
    ensures b in m.physical.blocks
    ensures var lo, hi := b + PHYSICAL_OFFSET, b + PHYSICAL_OFFSET + m.physical.blocks[b];
            && (forall u :: u in m.data ==> !(lo <= m.data[u] < hi))
            && (forall t :: t in m.mem ==> !(lo <= t < hi))
  {
    hide Shows, Tree, Walk, WindowsKept;
    var p := m.physical;
    forall x | x in m.role && !m.role[x].GpuBlock? ensures !(b <= x < b + p.blocks[b]) {
      if b < x {
        BlocksDisjoint(p.poolSize, p.words[..], p.blocks, p.owners, b, x);
      }
    }
  }
}
