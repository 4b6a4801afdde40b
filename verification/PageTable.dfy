/** Translation tables (src/Mmu.cpp, lines 17-463): descriptors, the three-level walk of section
    D8.3 of Arm ARM DDI 0487, and what adding tables and mapping one page do to it. */
module PageTable {
  import opened Arith
  import opened Kernel

  // ---------- Descriptors, as 64-bit numbers ----------

  const PAGE: nat := 0x1000
  const BLOCK1: nat := 0x4000_0000

  /** bit 0 */
  predicate IsValid(e: nat) { e % 2 == 1 }

  /** bits 1:0 = 0b11 */
  predicate IsTable(e: nat) { e % 4 == 3 }

  /** bits 1:0 = 0b01 */
  predicate IsBlock(e: nat) { e % 4 == 1 }

  /** `output_addr` of a table or page descriptor, bits 47:12: a physical page number */
  function OutputPage(e: nat): nat { (e / PAGE) % 0x10_0000_0000 }

  /** `output_addr` of a level 1 block descriptor, bits 47:30, as a physical page number */
  function BlockBase(e: nat): nat { (e / BLOCK1) % 0x4_0000 * 0x4_0000 }

  function TableDescriptor(addr: nat): nat {
    3 + (addr / PAGE) % 0x10_0000_0000 * PAGE
  }

  /** attribute index 0, inner shareable, accessed */
  function L3NormalMem(addr: nat): nat {
    3 + 3 * 0x100 + 0x400 + (addr / PAGE) % 0x10_0000_0000 * PAGE
  }

  /** A level 1 block: attribute index, shareability, accessed, execute-never if `xn` */
  function L1Block(addr: nat, attr: nat, sh: nat, xn: bool): nat
    requires attr < 8 && sh < 4
  {
    1 + attr * 4 + sh * 0x100 + 0x400 + (addr / BLOCK1) % 0x4_0000 * BLOCK1
    + (if xn then 0x60_0000_0000_0000 else 0)
  }

  function L1NormalMem(addr: nat): nat { L1Block(addr, 0, 3, false) }
  function L1GpuMem(addr: nat): nat { L1Block(addr, 2, 2, true) }
  function L1DeviceMem(addr: nat): nat { L1Block(addr, 1, 2, true) }

  /** The low two bits sort an entry. */
  lemma Kinds()
    ensures forall e: nat :: IsTable(e) ==> IsValid(e) && !IsBlock(e)
    ensures forall e: nat :: IsBlock(e) ==> IsValid(e) && !IsTable(e)
    ensures forall e: nat :: IsValid(e) ==> IsTable(e) || IsBlock(e)
    ensures !IsValid(0)
  {
    hide IsTable, IsValid, IsBlock;
    forall e: nat ensures IsValid(e) <==> IsTable(e) || IsBlock(e) ensures !(IsTable(e) && IsBlock(e)) {
      Kind(e);
    }
    Kind(0);
  }

  lemma Kind(e: nat)
    ensures (IsValid(e) <==> IsTable(e) || IsBlock(e)) && !(IsTable(e) && IsBlock(e)) && !IsValid(0)
  {
    var q, r := e / 4, e % 4;
    ModUnique(e, 2, 2 * q + r / 2, r % 2);
  }

  lemma TableDescriptorDecodes(p: nat)
    requires p < 0x10_0000_0000
    ensures IsTable(TableDescriptor(p * PAGE)) && IsValid(TableDescriptor(p * PAGE))
    ensures OutputPage(TableDescriptor(p * PAGE)) == p
  {
    var e := p * PAGE + 3;
    ModUnique(p * PAGE, PAGE, p, 0);
    assert TableDescriptor(p * PAGE) == e;
    ModUnique(e, PAGE, p, 3);
    ModUnique(e, 4, p * 0x400, 3);
    ModUnique(e, 2, p * 0x800 + 1, 1);
  }

  lemma PageDescriptorDecodes(p: nat)
    requires p < 0x10_0000_0000
    ensures IsValid(L3NormalMem(p * PAGE)) && OutputPage(L3NormalMem(p * PAGE)) == p
  {
  }

  lemma BlockDescriptorDecodes(g: nat, attr: nat, sh: nat, xn: bool)
    requires g < 0x4_0000 && attr < 8 && sh < 4
    ensures IsBlock(L1Block(g * BLOCK1, attr, sh, xn)) && IsValid(L1Block(g * BLOCK1, attr, sh, xn))
    ensures BlockBase(L1Block(g * BLOCK1, attr, sh, xn)) == g * 0x4_0000
  {
  }

  /** A level 1 block of `g` gigabytes up, as the manual lays it out: valid block in bits 1:0, attribute
      index in 4:2, clear 7:5, shareability in 9:8, access flag in 10, clear 11, address in 47:30,
      execute-never in 54:53, nothing else. */
  predicate BlockFields(e: nat, g: nat, attr: nat, sh: nat, xn: nat) {
    && e % 4 == 1 && e / 4 % 8 == attr && e / 0x20 % 8 == 0 && e / 0x100 % 4 == sh
    && e / 0x400 % 2 == 1 && e / 0x800 % 0x8_0000 == 0 && e / 0x4000_0000 % 0x4_0000 == g
    && e / 0x1_0000_0000_0000 % 0x20 == 0 && e / 0x20_0000_0000_0000 == xn
  }

  /** Normal memory: attribute 0, inner shareable. GPU memory: attribute 2, device memory:
      attribute 1, both outer shareable and never executed. */
  lemma BlockKinds(g: nat)
    requires g < 0x4_0000
    ensures BlockFields(L1NormalMem(g * 0x4000_0000), g, 0, 3, 0)
    ensures BlockFields(L1GpuMem(g * 0x4000_0000), g, 2, 2, 3)
    ensures BlockFields(L1DeviceMem(g * 0x4000_0000), g, 1, 2, 3)
  {
    assert L1NormalMem(g * 0x4000_0000) == g * 0x4000_0000 + 0x701;
    assert L1GpuMem(g * 0x4000_0000) == 0x60_0000_0000_0000 + g * 0x4000_0000 + 0x609;
    assert L1DeviceMem(g * 0x4000_0000) == 0x60_0000_0000_0000 + g * 0x4000_0000 + 0x605;
    FieldsOf(g, 0, 3, 0);
    FieldsOf(g, 2, 2, 3);
    FieldsOf(g, 1, 2, 3);
  }

  lemma FieldsOf(g: nat, attr: nat, sh: nat, xn: nat)
    requires g < 0x4_0000 && attr < 8 && sh < 4 && xn < 4
    ensures BlockFields(xn * 0x20_0000_0000_0000 + g * 0x4000_0000 + 0x401 + attr * 4 + sh * 0x100, g, attr, sh, xn)
  {
    var low := 0x401 + attr * 4 + sh * 0x100;
    var e := xn * 0x20_0000_0000_0000 + g * 0x4000_0000 + low;
    // from the top down, what is left of the entry above each field
    ModUnique(e, 0x20_0000_0000_0000, xn, g * 0x4000_0000 + low);
    ModUnique(e, 0x1_0000_0000_0000, xn * 0x20, g * 0x4000_0000 + low);
    ModUnique(xn * 0x20, 0x20, xn, 0);
    ModUnique(e, 0x4000_0000, xn * 0x80_0000 + g, low);
    ModUnique(xn * 0x80_0000 + g, 0x4_0000, xn * 0x20, g);
    var h := xn * 0x80_0000 + g;
    ModUnique(e, 0x800, h * 0x8_0000, low);
    ModUnique(h * 0x8_0000, 0x8_0000, h, 0);
    ModUnique(e, 0x400, h * 0x10_0000 + 1, low - 0x400);
    ModUnique(h * 0x10_0000 + 1, 2, h * 0x8_0000, 1);
    ModUnique(e, 0x100, h * 0x40_0000 + 4 + sh, attr * 4 + 1);
    ModUnique(h * 0x40_0000 + 4 + sh, 4, h * 0x10_0000 + 1, sh);
    ModUnique(e, 0x20, h * 0x200_0000 + 0x20 + sh * 8, attr * 4 + 1);
    ModUnique(h * 0x200_0000 + 0x20 + sh * 8, 8, h * 0x40_0000 + 4 + sh, 0);
    ModUnique(e, 4, h * 0x1000_0000 + 0x100 + sh * 0x40 + attr, 1);
    ModUnique(h * 0x1000_0000 + 0x100 + sh * 0x40 + attr, 8, h * 0x200_0000 + 0x20 + sh * 8, attr);
  }

  /** A page: valid page in bits 1:0, attribute 0, inner shareable, access flag, address in 47:12. */
  lemma PageKind(p: nat)
    requires p < 0x10_0000_0000
    ensures L3NormalMem(p * 0x1000) == p * 0x1000 + 0x703 && TableDescriptor(p * 0x1000) == p * 0x1000 + 3
  {
  }

  // ---------- The initial level 1 tables (lines 306-386) ----------

  function InitialEntry(isRpi4: bool, i: nat): nat {
    if i == 0 then L1NormalMem(0)
    else if i == 1 then (if isRpi4 then L1DeviceMem(0x4000_0000) else L1DeviceMem(0))
    else if i == 2 then (if isRpi4 then L1DeviceMem(0xC000_0000) else L1DeviceMem(0x4000_0000))
    else if i == 3 then L1GpuMem(0)
    else if isRpi4 && (i == 17 || i == 19 || i == 24) then L1DeviceMem(i * BLOCK1)
    else if 28 <= i < 36 then L1GpuMem((i - 28) * BLOCK1)
    else 0
  }

  function InitialL1(isRpi4: bool): (l1: seq<nat>)
    ensures |l1| == 512
  {
    seq(512, i requires 0 <= i < 512 => InitialEntry(isRpi4, i))
  }

  // ---------- The walk ----------

  /** What the hardware finds for a virtual page: nothing, a level 1 block, or a page entry. */
  datatype Leaf = Unmapped | Block1(entry: nat) | Page(entry: nat) | Broken

  function I1(v: nat): nat { v / 0x4_0000 }
  function I2(v: nat): nat { v / 0x200 % 0x200 }
  function I3(v: nat): nat { v % 0x200 }

  /** The entries of one table */
  type Table = seq<nat>

  /** A new table: every entry invalid */
  function NoEntries(): (t: Table)
    ensures |t| == 512 && forall k :: 0 <= k < 512 ==> t[k] == 0
  {
    seq(512, _ => 0)
  }

  function WithNewTable(mem: map<nat, Table>, p: nat): map<nat, Table> {
    var empty: Table := NoEntries();
    mem[p := empty]
  }

  function WithEntry(mem: map<nat, Table>, t: nat, k: nat, e: nat): map<nat, Table>
    requires t in mem && k < |mem[t]|
  {
    var table: Table := mem[t][k := e];
    mem[t := table]
  }

  /** Table `t`, entry `k` of the tables in physical memory. */
  function Entry(mem: map<nat, Table>, t: nat, k: nat): Option<nat> {
    if t in mem && k < |mem[t]| then Some(mem[t][k]) else None
  }

  /** The walk from level 1 entry `e1` with the indices of the other two levels. */
  function WalkFrom(mem: map<nat, Table>, e1: nat, j: nat, k: nat): Leaf {
    if !IsValid(e1) then Unmapped
    else if IsBlock(e1) then Block1(e1)
    else match Entry(mem, OutputPage(e1), j)
      case None => Broken
      case Some(e2) =>
        if !IsValid(e2) then Unmapped
        else if IsBlock(e2) then Broken
        else match Entry(mem, OutputPage(e2), k)
          case None => Broken
          case Some(e3) => if IsValid(e3) then Page(e3) else Unmapped
  }

  /** A virtual page number has 27 bits. */
  function Walk(l1: seq<nat>, mem: map<nat, Table>, v: nat): Leaf
    requires |l1| == 512 && v < 0x800_0000
  {
    WalkFrom(mem, l1[I1(v)], I2(v), I3(v))
  }

  /** A walk in the manual's terms: bits 38:30, 29:21 and 20:12 of the address choose the entries. */
  lemma WalkOfThreeLevels(l1: seq<nat>, mem: map<nat, Table>, i: nat, j: nat, k: nat)
    requires |l1| == 512 && i < 512 && j < 512 && k < 512
    ensures var v, e1 := i * 0x4_0000 + j * 0x200 + k, l1[i];
      && v < 0x800_0000
      && (e1 % 2 == 0 ==> Walk(l1, mem, v) == Unmapped)
      && (e1 % 4 == 1 ==> Walk(l1, mem, v) == Block1(e1))
      && (e1 % 4 == 3 && e1 / 0x1000 % 0x10_0000_0000 in mem && j < |mem[e1 / 0x1000 % 0x10_0000_0000]| ==>
            var e2 := mem[e1 / 0x1000 % 0x10_0000_0000][j];
            && (e2 % 2 == 0 ==> Walk(l1, mem, v) == Unmapped)
            && (e2 % 4 == 3 && e2 / 0x1000 % 0x10_0000_0000 in mem && k < |mem[e2 / 0x1000 % 0x10_0000_0000]| ==>
                  var e3 := mem[e2 / 0x1000 % 0x10_0000_0000][k];
                  Walk(l1, mem, v) == if e3 % 2 == 1 then Page(e3) else Unmapped))
  {
    var v := i * 0x4_0000 + j * 0x200 + k;
    ModUnique(v, 0x4_0000, i, j * 0x200 + k);
    ModUnique(v, 0x200, i * 0x200 + j, k);
    ModUnique(i * 0x200 + j, 0x200, i, j);
    Kinds();
    assert I1(v) == i && I2(v) == j && I3(v) == k;
    hide I1, I2, I3;
  }

  // ---------- The tables form a tree ----------

  /** Where a table hangs: under entry `i` of level 1, or under entry `j` of the table there. */
  datatype Place = Level2(i: nat) | Level3(i: nat, j: nat)

  ghost predicate Tree(l1: seq<nat>, mem: map<nat, Table>, place: map<nat, Place>) {
    && |l1| == 512 && place.Keys == mem.Keys
    && (forall t :: t in mem ==> |mem[t]| == 512)
    && (forall i :: 0 <= i < 512 && IsTable(l1[i]) ==>
          OutputPage(l1[i]) in mem && place[OutputPage(l1[i])] == Level2(i))
    && (forall t, j :: t in mem && place[t].Level2? && 0 <= j < 512 && IsValid(mem[t][j]) ==>
          && IsTable(mem[t][j]) && OutputPage(mem[t][j]) in mem
          && place[OutputPage(mem[t][j])] == Level3(place[t].i, j))
  }


  /** Hanging an empty level 2 table under an unused level 1 entry changes no translation. */
  lemma AddLevel2(l1: seq<nat>, mem: map<nat, Table>, place: map<nat, Place>, i: nat, p: nat)
    requires Tree(l1, mem, place) && i < 512 && !IsValid(l1[i]) && p !in mem && p < 0x10_0000_0000
    ensures var l1' := l1[i := TableDescriptor(p * PAGE)];
            var mem' := WithNewTable(mem, p);
            && Tree(l1', mem', place[p := Level2(i)])
            && forall v: nat :: v < 0x800_0000 ==> Walk(l1', mem', v) == Walk(l1, mem, v)
  {
    hide TableDescriptor, OutputPage, IsTable, IsValid, IsBlock;
    TableDescriptorDecodes(p);
    Kinds();
    var l1' := l1[i := TableDescriptor(p * PAGE)];
    var mem' := WithNewTable(mem, p);
    forall v: nat | v < 0x800_0000 ensures Walk(l1', mem', v) == Walk(l1, mem, v) {
    }
  }

  /** Entry `j` of the level 2 table under `i` can take a new level 3 table `p`. */
  ghost predicate CanAdd3(l1: seq<nat>, mem: map<nat, Table>, place: map<nat, Place>, i: nat, j: nat, p: nat) {
    && Tree(l1, mem, place) && i < 512 && j < 512 && IsTable(l1[i]) && p !in mem && p < 0x10_0000_0000
    && !IsValid(mem[OutputPage(l1[i])][j])
  }

  function WithLevel3(mem: map<nat, Table>, t: nat, j: nat, p: nat): map<nat, Table>
    requires t in mem && j < |mem[t]|
  {
    WithNewTable(WithEntry(mem, t, j, TableDescriptor(p * PAGE)), p)
  }

  lemma AddLevel3Tree(l1: seq<nat>, mem: map<nat, Table>, place: map<nat, Place>, i: nat, j: nat, p: nat)
    requires CanAdd3(l1, mem, place, i, j, p)
    ensures Tree(l1, WithLevel3(mem, OutputPage(l1[i]), j, p), place[p := Level3(i, j)])
  {
    hide TableDescriptor, OutputPage, IsTable, IsValid, IsBlock;
    TableDescriptorDecodes(p);
    Kinds();
    var t := OutputPage(l1[i]);
    var mem', place' := WithLevel3(mem, t, j, p), place[p := Level3(i, j)];
    forall t2, k | t2 in mem' && place'[t2].Level2? && 0 <= k < 512 && IsValid(mem'[t2][k])
      ensures IsTable(mem'[t2][k]) && OutputPage(mem'[t2][k]) in mem'
              && place'[OutputPage(mem'[t2][k])] == Level3(place'[t2].i, k)
    {
      if t2 == t && k == j {
        assert mem'[t2][k] == TableDescriptor(p * PAGE);
      } else {
        assert mem'[t2][k] == mem[t2][k];
      }
    }
  }

  /** Hanging an empty level 3 table under an unused level 2 entry changes no translation. */
  lemma AddLevel3(l1: seq<nat>, mem: map<nat, Table>, place: map<nat, Place>, i: nat, j: nat, p: nat)
    requires CanAdd3(l1, mem, place, i, j, p)
    ensures var mem' := WithLevel3(mem, OutputPage(l1[i]), j, p);
            && Tree(l1, mem', place[p := Level3(i, j)])
            && forall v: nat :: v < 0x800_0000 ==> Walk(l1, mem', v) == Walk(l1, mem, v)
  {
    AddLevel3Tree(l1, mem, place, i, j, p);
    forall v: nat | v < 0x800_0000
      ensures Walk(l1, WithLevel3(mem, OutputPage(l1[i]), j, p), v) == Walk(l1, mem, v)
    {
      AddLevel3Walk(l1, mem, place, i, j, p, I1(v), I2(v), I3(v));
    }
  }

  lemma AddLevel3Walk(l1: seq<nat>, mem: map<nat, Table>, place: map<nat, Place>, i: nat, j: nat, p: nat, a: nat, b: nat, c: nat)
    requires CanAdd3(l1, mem, place, i, j, p) && a < 512 && b < 512 && c < 512
    ensures WalkFrom(WithLevel3(mem, OutputPage(l1[i]), j, p), l1[a], b, c) == WalkFrom(mem, l1[a], b, c)
  {
    hide TableDescriptor, OutputPage, IsTable, IsValid, IsBlock;
    TableDescriptorDecodes(p);
    Kinds();
    var t: nat := OutputPage(l1[i]);
    var mem' := WithLevel3(mem, t, j, p);
    if IsTable(l1[a]) {
      var t2: nat := OutputPage(l1[a]);
      assert place[t2] == Level2(a) && place[t] == Level2(i);
      if t2 == t && b == j {
        assert mem'[t2][b] == TableDescriptor(p * PAGE) && mem'[p] == NoEntries();
      } else {
        assert mem'[t2][b] == mem[t2][b];
        assert IsValid(mem[t2][b]) ==> place[OutputPage(mem[t2][b])] == Level3(a, b);
      }
    }
  }

  /** Writing entry `k` of the level 3 table at (`i`, `j`) changes the translation of that one
      virtual page, and of no other. */
  lemma SetPage(l1: seq<nat>, mem: map<nat, Table>, place: map<nat, Place>, v: nat, e: nat)
    requires Tree(l1, mem, place) && v < 0x800_0000 && IsTable(l1[I1(v)])
    requires IsValid(mem[OutputPage(l1[I1(v)])][I2(v)])
    ensures var t := OutputPage(mem[OutputPage(l1[I1(v)])][I2(v)]);
            && t in mem && |mem[t]| == 512
            && var mem' := WithEntry(mem, t, I3(v), e);
               && Tree(l1, mem', place)
               && Walk(l1, mem', v) == (if IsValid(e) then Page(e) else Unmapped)
               && forall u: nat :: u < 0x800_0000 && u != v ==> Walk(l1, mem', u) == Walk(l1, mem, u)
  {
    hide OutputPage;
    var t := OutputPage(mem[OutputPage(l1[I1(v)])][I2(v)]);
    var mem' := WithEntry(mem, t, I3(v), e);
    hide I1, I2, I3;
    LowerIndices(v);
    SetPageHere(l1, mem, place, I1(v), I2(v), I3(v), e);
    SetPageTree(l1, mem, place, I1(v), I2(v), I3(v), e);
    forall u: nat | u < 0x800_0000 && u != v ensures Walk(l1, mem', u) == Walk(l1, mem, u) {
      Indices(u, v);
      LowerIndices(u);
      SetPageElsewhere(l1, mem, place, I1(v), I2(v), I3(v), e, I1(u), I2(u), I3(u));
    }
  }

  ghost predicate HasLevel3(l1: seq<nat>, mem: map<nat, Table>, place: map<nat, Place>, i: nat, j: nat) {
    && Tree(l1, mem, place) && i < 512 && j < 512 && IsTable(l1[i])
    && IsValid(mem[OutputPage(l1[i])][j])
  }

  lemma SetPageHere(l1: seq<nat>, mem: map<nat, Table>, place: map<nat, Place>, i: nat, j: nat, k: nat, e: nat)
    requires HasLevel3(l1, mem, place, i, j) && k < 512
    ensures var t := OutputPage(mem[OutputPage(l1[i])][j]);
            && t in mem && |mem[t]| == 512
            && WalkFrom(WithEntry(mem, t, k, e), l1[i], j, k) == (if IsValid(e) then Page(e) else Unmapped)
  {
    hide OutputPage, IsTable, IsValid, IsBlock;
    Kinds();
    assert place[OutputPage(mem[OutputPage(l1[i])][j])] == Level3(i, j);
  }

  lemma SetPageTree(l1: seq<nat>, mem: map<nat, Table>, place: map<nat, Place>, i: nat, j: nat, k: nat, e: nat)
    requires HasLevel3(l1, mem, place, i, j) && k < 512
    ensures var t := OutputPage(mem[OutputPage(l1[i])][j]);
            t in mem && |mem[t]| == 512 && Tree(l1, WithEntry(mem, t, k, e), place)
  {
    hide OutputPage, IsTable, IsValid;
    var t := OutputPage(mem[OutputPage(l1[i])][j]);
    assert place[t] == Level3(i, j);
    var mem' := WithEntry(mem, t, k, e);
    assert mem'.Keys == mem.Keys;
  }

  lemma SetPageElsewhere(l1: seq<nat>, mem: map<nat, Table>, place: map<nat, Place>, i: nat, j: nat, k: nat, e: nat, a: nat, b: nat, c: nat)
    requires HasLevel3(l1, mem, place, i, j) && k < 512 && a < 512 && b < 512 && c < 512 && (a, b, c) != (i, j, k)
    ensures var t := OutputPage(mem[OutputPage(l1[i])][j]);
            t in mem && |mem[t]| == 512 && WalkFrom(WithEntry(mem, t, k, e), l1[a], b, c) == WalkFrom(mem, l1[a], b, c)
  {
    hide OutputPage, IsTable, IsValid, IsBlock;
    Kinds();
    assert place[OutputPage(mem[OutputPage(l1[i])][j])] == Level3(i, j);
    if IsTable(l1[a]) && IsValid(mem[OutputPage(l1[a])][b]) {
      assert place[OutputPage(mem[OutputPage(l1[a])][b])] == Level3(a, b);
    }
  }

  /** The three indices determine a virtual page. */
  lemma Indices(u: nat, v: nat)
    ensures I1(u) == I1(v) && I2(u) == I2(v) && I3(u) == I3(v) ==> u == v
  {
  }

  /** The masks of the overloads (lines 434 and 456) leave the indices of the lower levels. */
  lemma LowerIndices(v: nat)
    ensures v % 0x4_0000 / 0x200 == I2(v) < 0x200 && v % 0x4_0000 % 0x200 == I3(v) < 0x200
    ensures v < 0x800_0000 ==> I1(v) < 0x200
  {
    var q, r := v / 0x200, v % 0x200;
    var a, b := q / 0x200, q % 0x200;
    var low := 0x200 * b + r;
    ModUnique(v, 0x4_0000, a, low);
    ModUnique(low, 0x200, b, r);
  }
}
