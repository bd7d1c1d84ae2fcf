/** The kernel's page-table operations (kernel/memory.c) and create_page_dir
    (userprog/process.c). They reach the page structures through the recursive
    self-map that the loader installed. */
module PageTableOps {
  import opened Words
  import opened PhysicalMemory
  import opened Paging
  import opened Cpu
  import opened PageTables
  import opened KernelMap
  import opened ElfImage
  import opened FramePool

  // ----- The pointer arithmetic -----

  function PteIdx(va: u32): nat { Shr(And32(va, 0x003ff000), 12) }

  function PdeIdx(va: u32): nat { Shr(And32(va, 0xffc00000), 22) }

  /** pte_ptr and pde_ptr, masks and shifts as written. */
  function PtePtr(va: u32): u32
  {
    (0xffc00000 + Shr(And32(va, 0xffc00000), 10) + PteIdx(va) * 4) % 0x1_0000_0000
  }

  function PdePtr(va: u32): u32 { (0xfffff000 + PdeIdx(va) * 4) % 0x1_0000_0000 }

  lemma {:induction false} LowBitsSmall(x: nat, k: nat)
    requires x < Shl(1, k)
    ensures LowBits(x, k) == x
  {
    if k > 0 { LowBitsSmall(x / 2, k - 1); }
  }

  lemma LowBits10(x: nat)
    ensures LowBits(x, 10) == x % 1024
  {
    hide LowBits, Shl, Shr;
    LowBitsSplit(x, 10);
    ShiftBy10(1);
    ShiftBy10(Shr(x, 10));
  }

  lemma DirectoryMask(va: u32, mask: u32)
    requires mask == 0xffc00000
    ensures And32(va, mask) == 0x40_0000 * PdIndex(va)
  {
    hide LowBits, Shl, Shr, BitAnd;
    ShiftBy22(va);
    ShiftBy22(1023);
    ShiftBy10(1);
    BitAndShiftedMask(va, 1023, 22);
    BitAndLowMask(va / 0x40_0000, 10);
    LowBits10(va / 0x40_0000);
    ShiftBy22(va / 0x40_0000);
  }

  lemma TableMask(va: u32, mask: u32)
    requires mask == 0x003ff000
    ensures And32(va, mask) == 0x1000 * PtIndex(va)
  {
    hide LowBits, Shl, Shr, BitAnd;
    ShiftBy12(va);
    ShiftBy12(1023);
    ShiftBy10(1);
    BitAndShiftedMask(va, 1023, 12);
    BitAndLowMask(va / 0x1000, 10);
    LowBits10(va / 0x1000);
    ShiftBy12(PtIndex(va));
  }

  lemma IndexMacros(va: u32)
    ensures PteIdx(va) == PtIndex(va) && PdeIdx(va) == PdIndex(va)
    ensures Shr(And32(va, 0xffc00000), 10) == 0x1000 * PdIndex(va)
  {
    hide And32, Shr, PdIndex, PtIndex;
    DirectoryMask(va, 0xffc00000);
    TableMask(va, 0x003ff000);
    ShiftBy10(0x40_0000 * PdIndex(va));
    ShiftBy22(0x40_0000 * PdIndex(va));
    ShiftBy12(0x1000 * PtIndex(va));
  }

  /** The pointers are the window addresses of the self-map. */
  lemma PointersAreWindows(va: u32)
    ensures PtePtr(va) == PteWindow(va) && PdePtr(va) == PdeWindow(va)
  {
    hide And32, Shr, PteIdx, PdeIdx;
    IndexMacros(va);
    assert va / 0x1000 == 1024 * PdIndex(va) + PtIndex(va);
  }

  /** frame | PG_US_U | PG_RW_W | PG_P_1 */
  function EntryFor(frame: Frame): u32
  {
    Or32(Or32(Or32(4096 * frame, PG_US_U), PG_RW_W), PG_P)
  }

  lemma EntryForValue(frame: Frame)
    ensures EntryFor(frame) == 4096 * frame + 7
  {
    hide BitOr;
    OrFlags(frame, 4);
    assert Shl(1, 2) == 4 && Shl(1024 * frame + 1, 2) == 4096 * frame + 4;
    BitOrDisjoint(1024 * frame + 1, 2, 2);
    assert Shl(1, 1) == 2 && Shl(2048 * frame + 3, 1) == 4096 * frame + 6;
    BitOrDisjoint(2048 * frame + 3, 1, 1);
  }

  // ----- What the operations compute -----

  /** n bytes from a on cleared. */
  function Cleared(m: Ram, a: nat, n: nat): Ram
    requires a + n <= RAM_SIZE
  {
    m[..a] + seq(n, _ => 0) + m[a + n..]
  }

  /** va has a page table; va is not mapped. */
  predicate HasTable(m: Ram, d: Frame, va: u32) { Present(Entry(m, d, PdIndex(va))) }

  predicate Unmapped(m: Ram, d: Frame, va: u32)
  {
    HasTable(m, d, va) ==> !Present(Entry(m, FrameOf(Entry(m, d, PdIndex(va))), PtIndex(va)))
  }

  lemma BitZero(e: u32, one: u32)
    requires one == 1
    ensures And32(e, one) == e % 2 && (Present(e) <==> And32(e, one) == 1)
  {
    hide BitAnd;
    BitAndLowMask(e, 1);
    assert e % 0x1000 % 2 == e % 2;
  }

  /** The present bit is bit 0, and without it or without a table an address
      faults: these are the addresses page_table_add maps. */
  lemma UnmappedFaults(m: Ram, d: Frame, va: u32)
    ensures Unmapped(m, d, va) <==> Translate(m, d, va) == None
    ensures HasTable(m, d, va) <==> And32(Entry(m, d, PdIndex(va)), 1) == 1
    ensures SelfMapped(m, d) ==> (HasTable(m, d, va) <==> Translate(m, d, PteWindow(va)).Some?)
  {
    hide Entry, And32;
    BitZero(Entry(m, d, PdIndex(va)), 1);
    if SelfMapped(m, d) { SelfMapTranslates(m, d, va); }
  }

  /** page_table_add under directory d: the page of va is mapped to a frame;
      table is the frame palloc answers, asked for only when va has no page
      table yet. None is the assertion that the page was not mapped, which
      never returns. */
  function AddMapping(m: Ram, d: Frame, va: u32, frame: Frame, table: Frame): Option<Ram>
  {
    var pde := Entry(m, d, PdIndex(va));
    if Present(pde) then
      if Present(Entry(m, FrameOf(pde), PtIndex(va))) then None
      else Some(SetEntry(m, FrameOf(pde), PtIndex(va), 4096 * frame + 7))
    else
      Some(SetEntry(Cleared(SetEntry(m, d, PdIndex(va), 4096 * table + 7), 4096 * table, 4096),
                    table, PtIndex(va), 4096 * frame + 7))
  }

  function WithoutPresent(e: u32): u32 { e - e % 2 }

  /** page_table_pte_remove: the present bit goes, the frame stays; a page
      fault when va has no table. */
  function RemoveMapping(m: Ram, d: Frame, va: u32): Option<Ram>
  {
    var pde := Entry(m, d, PdIndex(va));
    if !Present(pde) then None
    else
      Some(SetEntry(m, FrameOf(pde), PtIndex(va), WithoutPresent(Entry(m, FrameOf(pde), PtIndex(va)))))
  }

  // ----- Effects, entry by entry -----

  lemma ClearedElsewhere(m: Ram, f: Frame, g: Frame, j: nat)
    requires g != f && j < 1024
    ensures Entry(Cleared(m, 4096 * f, 4096), g, j) == Entry(m, g, j)
  {
    hide FromBytes;
    assert SameOutside(m, Cleared(m, 4096 * f, 4096), 4096 * f, 4096 * f + 4096);
    EntrySameOutside(m, Cleared(m, 4096 * f, 4096), 4096 * f, 4096 * f + 4096, g);
  }

  lemma ClearedEntries(m: Ram, f: Frame)
    ensures forall j: nat :: j < 1024 ==> Entry(Cleared(m, 4096 * f, 4096), f, j) == 0
    ensures forall g: Frame, j: nat {:trigger Entry(Cleared(m, 4096 * f, 4096), g, j)} ::
              g != f && j < 1024 ==> Entry(Cleared(m, 4096 * f, 4096), g, j) == Entry(m, g, j)
  {
    var n := Cleared(m, 4096 * f, 4096);
    forall j: nat | j < 1024
      ensures Entry(n, f, j) == 0
    {
      var a := 4096 * f + 4 * j;
      assert n[a] == 0 && n[a + 1] == 0 && n[a + 2] == 0 && n[a + 3] == 0;
    }
    forall g: Frame, j: nat | g != f && j < 1024
      ensures Entry(n, g, j) == Entry(m, g, j)
    {
      ClearedElsewhere(m, f, g, j);
    }
  }

  /** With a table in place, page_table_add writes exactly the governing entry. */
  lemma AddWithTable(m: Ram, d: Frame, va: u32, frame: Frame, table: Frame, g: Frame, j: nat)
    requires HasTable(m, d, va) && Unmapped(m, d, va) && j < 1024
    ensures AddMapping(m, d, va, frame, table).Some?
    ensures Entry(AddMapping(m, d, va, frame, table).value, g, j) ==
            if g == FrameOf(Entry(m, d, PdIndex(va))) && j == PtIndex(va) then 4096 * frame + 7 else Entry(m, g, j)
  {
    hide Entry, SetEntry;
    EntryAfterSet(m, FrameOf(Entry(m, d, PdIndex(va))), PtIndex(va), 4096 * frame + 7);
  }

  /** Without one, it links the new table, clears it and fills one entry. */
  lemma AddNewTable(m: Ram, d: Frame, va: u32, frame: Frame, table: Frame, g: Frame, j: nat)
    requires !HasTable(m, d, va) && table != d && j < 1024
    ensures AddMapping(m, d, va, frame, table).Some?
    ensures Entry(AddMapping(m, d, va, frame, table).value, g, j) ==
            if g == table then (if j == PtIndex(va) then 4096 * frame + 7 else 0)
            else if g == d && j == PdIndex(va) then 4096 * table + 7
            else Entry(m, g, j)
  {
    hide Entry, SetEntry, Cleared;
    var m1 := SetEntry(m, d, PdIndex(va), 4096 * table + 7);
    EntryAfterSet(m, d, PdIndex(va), 4096 * table + 7);
    var m2 := Cleared(m1, 4096 * table, 4096);
    ClearedEntries(m1, table);
    EntryAfterSet(m2, table, PtIndex(va), 4096 * frame + 7);
  }

  lemma RemoveWithTable(m: Ram, d: Frame, va: u32, g: Frame, j: nat)
    requires HasTable(m, d, va) && j < 1024
    ensures RemoveMapping(m, d, va).Some?
    ensures var e := Entry(m, g, j);
            Entry(RemoveMapping(m, d, va).value, g, j) ==
            if g == FrameOf(Entry(m, d, PdIndex(va))) && j == PtIndex(va) then WithoutPresent(e) else e
  {
    hide Entry, SetEntry;
    var t := FrameOf(Entry(m, d, PdIndex(va)));
    var e := Entry(m, t, PtIndex(va));
    EntryAfterSet(m, t, PtIndex(va), WithoutPresent(e));
  }

  function PagePlusOffset(pte: u32, va: u32): u32
  {
    Add32(And32(pte, 0xfffff000), And32(va, 0x00000fff))
  }

  lemma TwentyOnes()
    ensures Shl(1, 20) == 0x10_0000
  {
    ShlAdd(1, 10, 10);
    ShiftBy10(1);
    ShiftBy10(0x400);
  }

  lemma FrameMask(e: u32, mask: u32)
    requires mask == 0xfffff000
    ensures And32(e, mask) == 0x1000 * FrameOf(e)
  {
    hide LowBits, Shl, Shr, BitAnd;
    ShiftBy12(e);
    ShiftBy12(0xfffff);
    ShlAdd(1, 8, 12);
    ShiftBy12(1);
    TwentyOnes();
    BitAndShiftedMask(e, 0xfffff, 12);
    BitAndLowMask(e / 0x1000, 20);
    LowBitsSmall(e / 0x1000, 20);
    ShiftBy12(e / 0x1000);
  }

  lemma OffsetMask(va: u32, mask: u32)
    requires mask == 0xfff
    ensures And32(va, mask) == va % 0x1000
  {
    hide LowBits, Shl, Shr, BitAnd;
    ShiftBy12(1);
    BitAndLowMask(va, 12);
    LowBitsSplit(va, 12);
    ShiftBy12(Shr(va, 12));
  }

  lemma PagePlusOffsetValue(pte: u32, va: u32)
    ensures PagePlusOffset(pte, va) == 0x1000 * FrameOf(pte) + va % 0x1000
  {
    hide And32, Add32;
    FrameMask(pte, 0xfffff000);
    OffsetMask(va, 0x00000fff);
    AddExact(0x1000 * FrameOf(pte), va % 0x1000);
  }

  /** addr_v2p: the frame in the governing entry plus the page offset. */
  function AddrV2P(m: Ram, d: Frame, va: u32): Option<u32>
  {
    var pte :- Load32(m, Mmu(true, d), PtePtr(va));
    Some(PagePlusOffset(pte, va))
  }

  /** addr_v2p agrees with the page walk on every mapped address; it faults
      when there is no table, and it does not look at the present bit. */
  lemma AddrV2PIsTranslate(m: Ram, d: Frame, va: u32)
    requires SelfMapped(m, d)
    ensures AddrV2P(m, d, va).Some? <==> Present(Entry(m, d, PdIndex(va)))
    ensures Translate(m, d, va).Some? ==> AddrV2P(m, d, va) == Translate(m, d, va)
    ensures AddrV2P(m, d, va).Some? && Translate(m, d, va).None? ==>
              !Present(Entry(m, FrameOf(Entry(m, d, PdIndex(va))), PtIndex(va)))
  {
    hide Entry, PagePlusOffset, PtePtr, PteWindow, Load32, SelfMapped, Present, FrameOf;
    PointersAreWindows(va);
    PteWindowAccess(m, d, va, 0);
    if Present(Entry(m, d, PdIndex(va))) {
      PagePlusOffsetValue(Entry(m, FrameOf(Entry(m, d, PdIndex(va))), PtIndex(va)), va);
    }
  }

  ghost function FilledDirectory(m1: Ram, d: Frame, frame: Frame): Ram
  {
    var m2 := Cleared(m1, 4096 * frame, 4096);
    SetEntry(Copied(m2, 4096 * d + 3072, 4096 * frame + 3072, 1024), frame, 1023, 4096 * frame + 7)
  }

  /** create_page_dir: a page is mapped at dva, cleared, given the entries 768
      and up of the current directory, and entry 1023 pointed at itself. */
  ghost function NewDirectory(m: Ram, d: Frame, dva: u32, frame: Frame, table: Frame): Option<Ram>
  {
    var m1 :- AddMapping(m, d, dva, frame, table);
    Some(FilledDirectory(m1, d, frame))
  }

  lemma CopiedEntries(m: Ram, d: Frame, frame: Frame, g: Frame, j: nat)
    requires frame != d && j < 1024
    ensures var n := Copied(m, 4096 * d + 3072, 4096 * frame + 3072, 1024);
            Entry(n, g, j) == if g == frame && j >= 768 then Entry(m, d, j) else Entry(m, g, j)
  {
    hide Copied, FromBytes;
    CopiedFrame(m, 4096 * d + 3072, 4096 * frame + 3072, 1024);
    CopiedApart(m, 4096 * d + 3072, 4096 * frame + 3072, 1024);
    var a := 4096 * g + 4 * j;
    var n := Copied(m, 4096 * d + 3072, 4096 * frame + 3072, 1024);
    assert a + 3 < RAM_SIZE;
    if g == frame && j >= 768 {
      assert 4096 * d + 3072 + (a - (4096 * frame + 3072)) == 4096 * d + 4 * j;
    } else {
      assert n[a] == m[a] && n[a + 1] == m[a + 1] && n[a + 2] == m[a + 2] && n[a + 3] == m[a + 3];
    }
  }

  lemma FilledEntries(m1: Ram, d: Frame, frame: Frame, g: Frame, j: nat)
    requires frame != d && j < 1024
    ensures Entry(FilledDirectory(m1, d, frame), g, j) ==
            if g != frame then Entry(m1, g, j)
            else if j < 768 then 0
            else if j < 1023 then Entry(m1, d, j)
            else 4096 * frame + 7
  {
    hide Entry, SetEntry, Cleared, Copied;
    var m2 := Cleared(m1, 4096 * frame, 4096);
    ClearedEntries(m1, frame);
    var m3 := Copied(m2, 4096 * d + 3072, 4096 * frame + 3072, 1024);
    CopiedEntries(m2, d, frame, g, j);
    EntryAfterSet(m3, frame, 1023, 4096 * frame + 7);
  }

  // ----- The code -----

  lemma ThirtyOneOnes()
    ensures Shl(1, 31) == 0x8000_0000
    ensures forall x: nat :: Shl(x, 1) == 2 * x && Shr(x, 1) == x / 2
  {
    ShlAdd(1, 1, 30);
    ShiftBy30(1);
  }

  lemma AndNotPresent(e: u32, mask: u32)
    requires mask == 0xfffffffe
    ensures And32(e, mask) == WithoutPresent(e)
  {
    hide LowBits, BitAnd;
    ThirtyOneOnes();
    BitAndShiftedMask(e, 0x7fffffff, 1);
    BitAndLowMask(e / 2, 31);
    LowBitsSmall(e / 2, 31);
  }

  /** The walk for va does not look into frame f, so changes there leave it. */
  lemma WalkElsewhere(m: Ram, n: Ram, f: Frame, d: Frame, va: u32)
    requires SameOutside(m, n, 4096 * f, 4096 * f + 4096)
    requires d != f && FrameOf(Entry(m, d, PdIndex(va))) != f
    ensures Translate(n, d, va) == Translate(m, d, va)
  {
    hide Entry;
    EntrySameOutside(m, n, 4096 * f, 4096 * f + 4096, d);
    EntrySameOutside(m, n, 4096 * f, 4096 * f + 4096, FrameOf(Entry(m, d, PdIndex(va))));
  }

  /** A mapped page-aligned address denotes the whole frame. */
  lemma PageDenoted(m: Ram, d: Frame, va: u32, f: Frame)
    requires va % 0x1000 == 0 && Translate(m, d, va) == Some(4096 * f)
    ensures Denotes(m, Mmu(true, d), va, 4096 * f, 4096)
  {
    DenotesWithinPage(m, d, va, 4096);
  }

  lemma ClearedNext(m: Ram, a: nat, i: nat)
    requires a + i < RAM_SIZE
    ensures Cleared(m, a, i)[a + i := 0] == Cleared(m, a, i + 1)
    ensures SameOutside(m, Cleared(m, a, i), a, a + i)
  {
  }

  lemma ClearedNothing(m: Ram, a: nat)
    requires a <= RAM_SIZE
    ensures Cleared(m, a, 0) == m
  {
  }

  lemma NextByte(base: u32, i: nat)
    requires i < 0x1000
    ensures Add32(Add32(base, i), 1) == Add32(base, i + 1)
  {
  }

  /** memset(base, 0, PG_SIZE), byte by byte through the translation. */
  method MemsetPage(cpu: Machine, base: u32, ghost f: Frame)
    requires cpu.Valid() && cpu.mmu.paging && base % 0x1000 == 0
    requires Translate(cpu.Ram(), cpu.mmu.cr3, base) == Some(4096 * f)
    requires f != cpu.mmu.cr3 && f != FrameOf(Entry(cpu.Ram(), cpu.mmu.cr3, PdIndex(base)))
    modifies cpu.mem
    ensures cpu.Ram() == Cleared(old(cpu.Ram()), 4096 * f, 4096)
  {
    hide Entry, Translate, Lin, Store8, FrameOf, Cleared;
    ghost var m, d := cpu.Ram(), cpu.mmu.cr3;
    ClearedNothing(m, 4096 * f);
    var dst := base;
    var size: nat := 4096;
    while size > 0
      invariant size <= 4096 && dst == Add32(base, 4096 - size)
      invariant cpu.Ram() == Cleared(m, 4096 * f, 4096 - size)
    {
      ghost var i := 4096 - size;
      AddExact(base, i);
      ClearedNext(m, 4096 * f, i);
      WalkElsewhere(m, cpu.Ram(), f, d, base);
      PageDenoted(cpu.Ram(), d, base, f);
      StoreDenoted(cpu.Ram(), cpu.mmu, base, 4096 * f, 4096, base + i, 0);
      var _ := cpu.Put8(dst, 0);
      size := size - 1;
      dst := Add32(dst, 1);
      NextByte(base, i);
    }
  }

  lemma AbsentZero()
    ensures !Present(0)
  {
  }

  /** (int)pte & 0xfffff000: the page of the window that shows va's table. */
  function TableWindow(va: u32): u32 { And32(PtePtr(va), 0xfffff000) }

  lemma FrameOfEntry(f: Frame)
    ensures FrameOf(4096 * f + 7) == f && Present(4096 * f + 7)
  {
  }

  lemma TableWindowValue(va: u32)
    ensures TableWindow(va) == WINDOW + 0x1000 * PdIndex(va)
  {
    hide And32, PtePtr;
    PointersAreWindows(va);
    FrameMask(PtePtr(va), 0xfffff000);
    WindowSplit(va);
    assert PteWindow(va) / 0x1000 == 0xF_FC00 + PdIndex(va);
  }

  lemma TableWindowIndices(va: u32)
    ensures var w := TableWindow(va);
            PdIndex(w) == 1023 && PtIndex(w) == PdIndex(va) && w % 0x1000 == 0
  {
    hide TableWindow;
    TableWindowValue(va);
    var w := TableWindow(va);
    assert w / 0x1000 == 0xF_FC00 + PdIndex(va);
  }

  lemma PdIndexBelowWindow(va: u32)
    requires va < WINDOW
    ensures PdIndex(va) < 1023
  {
  }

  lemma NewTableWindow(m: Ram, d: Frame, va: u32, table: Frame)
    requires SelfMapped(m, d) && va < WINDOW && table != d
    ensures var m1 := SetEntry(m, d, PdIndex(va), 4096 * table + 7);
            && SelfMapped(m1, d) && Entry(m1, d, PdIndex(va)) == 4096 * table + 7
            && Translate(m1, d, TableWindow(va)) == Some(4096 * table)
            && FrameOf(Entry(m1, d, PdIndex(TableWindow(va)))) == d
    ensures TableWindow(va) % 0x1000 == 0
  {
    hide Entry, SetEntry, TableWindow, PtIndex, PdIndex, FrameOf, Present;
    PdIndexBelowWindow(va);
    EntryAfterSet(m, d, PdIndex(va), 4096 * table + 7);
    TableWindowIndices(va);
    FrameOfEntry(table);
  }

  lemma ClearedTable(m1: Ram, d: Frame, va: u32, table: Frame)
    requires SelfMapped(m1, d) && table != d && Entry(m1, d, PdIndex(va)) == 4096 * table + 7
    ensures var m2 := Cleared(m1, 4096 * table, 4096);
            && SelfMapped(m2, d) && Entry(m2, d, PdIndex(va)) == 4096 * table + 7
            && Entry(m2, table, PtIndex(va)) == 0
  {
    hide Entry, Cleared;
    ClearedEntries(m1, table);
  }

  /** Clearing the table just linked, and filling its entry for va. */
  method FillNewTable(cpu: Machine, va: u32, frame: Frame, ghost table: Frame, ghost m: Ram)
    requires cpu.Valid() && cpu.mmu.paging && SelfMapped(m, cpu.mmu.cr3) && va < WINDOW && table != cpu.mmu.cr3
    requires !HasTable(m, cpu.mmu.cr3, va)
    requires cpu.Ram() == SetEntry(m, cpu.mmu.cr3, PdIndex(va), 4096 * table + 7)
    modifies cpu.mem
    ensures AddMapping(m, cpu.mmu.cr3, va, frame, table) == Some(cpu.Ram())
  {
    hide Entry, SetEntry, PtePtr, PteWindow, SelfMapped, EntryFor, Load32, Store32, Cleared;
    ghost var d := cpu.mmu.cr3;
    PointersAreWindows(va);
    EntryForValue(frame);
    ghost var m1 := cpu.Ram();
    NewTableWindow(m, d, va, table);
    MemsetPage(cpu, TableWindow(va), table);
    ghost var m2 := cpu.Ram();
    ClearedTable(m1, d, va, table);
    PteWindowAccess(m2, d, va, EntryFor(frame));
    FrameOfEntry(table);
    var _, pte := cpu.Get32(PtePtr(va));
    AbsentZero();
    assert !Present(pte);
    var _ := cpu.Put32(PtePtr(va), EntryFor(frame));
  }

  /** The window always has a table: the directory. */
  lemma OutsideWindow(m: Ram, d: Frame, va: u32)
    requires SelfMapped(m, d) && !HasTable(m, d, va)
    ensures va < WINDOW
  {
    hide Entry;
    assert va >= WINDOW ==> PdIndex(va) == 1023;
  }

  /** page_table_add. A page that is mapped already, or a kernel pool without a
      frame for the new table, stops it in an assertion. */
  method PageTableAdd(cpu: Machine, pool: Pool, va: u32, frame: Frame) returns (added: bool, ghost table: Frame)
    requires cpu.Valid() && cpu.mmu.paging && SelfMapped(cpu.Ram(), cpu.mmu.cr3)
    requires pool.Valid() && pool.bitmap.bits != cpu.mem && !pool.Available(cpu.mmu.cr3)
    modifies cpu.mem, pool.bitmap.bits
    ensures added <==> if HasTable(old(cpu.Ram()), cpu.mmu.cr3, va) then Unmapped(old(cpu.Ram()), cpu.mmu.cr3, va)
                       else old(!pool.Full())
    ensures added ==> AddMapping(old(cpu.Ram()), cpu.mmu.cr3, va, frame, table) == Some(cpu.Ram())
    ensures !added ==> cpu.Ram() == old(cpu.Ram())
    ensures if added && !HasTable(old(cpu.Ram()), cpu.mmu.cr3, va) then
              && old(pool.Available(table)) && (forall f: Frame :: old(pool.Available(f)) ==> table <= f)
              && pool.Issued() == old(pool.Issued()) + {table}
            else pool.Issued() == old(pool.Issued())
  {
    hide Entry, SetEntry, PtePtr, PdePtr, PteWindow, PdeWindow, SelfMapped, EntryFor, Load32, Store32, Cleared;
    hide IssuedFrames;
    ghost var m, d := cpu.Ram(), cpu.mmu.cr3;
    PointersAreWindows(va);
    EntryForValue(frame);
    PdeWindowAccess(m, d, va, 0);
    PteWindowAccess(m, d, va, EntryFor(frame));
    var _, pde := cpu.Get32(PdePtr(va));
    table := 0;
    if Present(pde) {
      var _, pte := cpu.Get32(PtePtr(va));
      if Present(pte) { return false, 0; }
      var _ := cpu.Put32(PtePtr(va), EntryFor(frame));
      return true, 0;
    }
    var panic, t := pool.Palloc();
    if panic { return false, 0; }
    table := t;
    OutsideWindow(m, d, va);
    EntryForValue(t);
    PdeWindowAccess(m, d, va, EntryFor(t));
    var _ := cpu.Put32(PdePtr(va), EntryFor(t));
    FillNewTable(cpu, va, frame, t, m);
    added := true;
  }

  /** page_table_pte_remove; a page fault when va has no table. */
  method PageTablePteRemove(cpu: Machine, va: u32) returns (s: Status)
    requires cpu.Valid() && cpu.mmu.paging && SelfMapped(cpu.Ram(), cpu.mmu.cr3)
    modifies cpu.mem
    ensures match RemoveMapping(old(cpu.Ram()), cpu.mmu.cr3, va)
            case None => s.PageFault? && cpu.Ram() == old(cpu.Ram())
            case Some(m) => s.Running? && cpu.Ram() == m
  {
    hide Entry, SetEntry, PtePtr, PteWindow, SelfMapped, Load32, Store32, And32;
    PointersAreWindows(va);
    PteWindowAccess(cpu.Ram(), cpu.mmu.cr3, va, 0);
    var pte;
    s, pte := cpu.Get32(PtePtr(va));
    if s.PageFault? { return; }
    AndNotPresent(pte, 0xfffffffe);
    PteWindowAccess(cpu.Ram(), cpu.mmu.cr3, va, WithoutPresent(pte));
    s := cpu.Put32(PtePtr(va), And32(pte, 0xfffffffe));
  }

  lemma OneByte(m: Ram, n: Ram, frame: Frame, i: nat, b: u8)
    requires SameOutside(m, n, 4096 * frame, 4096 * frame + 4096) && i < 4096
    ensures SameOutside(m, n[4096 * frame + i := b], 4096 * frame, 4096 * frame + 4096)
  {
  }

  lemma DirectoryWindow(m: Ram, d: Frame)
    requires SelfMapped(m, d)
    ensures Translate(m, d, 0xfffff000) == Some(4096 * d)
    ensures FrameOf(Entry(m, d, PdIndex(0xfffff000))) == d
  {
    hide Entry;
  }

  /** Both pages stay where they are while only frame changes. */
  lemma BothPagesDenoted(m: Ram, n: Ram, d: Frame, dva: u32, frame: Frame)
    requires SelfMapped(m, d) && SameOutside(m, n, 4096 * frame, 4096 * frame + 4096)
    requires dva % 0x1000 == 0 && Translate(m, d, dva) == Some(4096 * frame)
    requires frame != d && frame != FrameOf(Entry(m, d, PdIndex(dva)))
    ensures Denotes(n, Mmu(true, d), dva, 4096 * frame, 4096)
    ensures Denotes(n, Mmu(true, d), 0xfffff000, 4096 * d, 4096)
  {
    hide Entry, Translate, SelfMapped;
    WalkElsewhere(m, n, frame, d, dva);
    PageDenoted(n, d, dva, frame);
    DirectoryWindow(m, d);
    WalkElsewhere(m, n, frame, d, 0xfffff000);
    PageDenoted(n, d, 0xfffff000, d);
  }

  /** *dst = *src for byte i of the two pages. */
  method CopyByte(cpu: Machine, ghost dva: u32, ghost frame: Frame, dst: u32, src: u32, ghost m: Ram, ghost i: nat)
    requires cpu.Valid() && cpu.mmu.paging && SelfMapped(m, cpu.mmu.cr3) && i < 4096
    requires SameOutside(m, cpu.Ram(), 4096 * frame, 4096 * frame + 4096)
    requires dva % 0x1000 == 0 && Translate(m, cpu.mmu.cr3, dva) == Some(4096 * frame)
    requires frame != cpu.mmu.cr3 && frame != FrameOf(Entry(m, cpu.mmu.cr3, PdIndex(dva)))
    requires dst == Add32(dva, i) && src == Add32(0xfffff000, i)
    modifies cpu.mem
    ensures cpu.Ram() == old(cpu.Ram())[4096 * frame + i := old(cpu.Ram())[4096 * cpu.mmu.cr3 + i]]
    ensures SameOutside(m, cpu.Ram(), 4096 * frame, 4096 * frame + 4096)
  {
    hide Entry, Translate, Lin, Load8, Store8, FrameOf, SelfMapped, SameOutside;
    ghost var here := cpu.Ram();
    ghost var d: int := cpu.mmu.cr3;
    BothPagesDenoted(m, here, d, dva, frame);
    AddExact(dva, i);
    AddExact(0xfffff000, i);
    LoadDenoted(here, cpu.mmu, 0xfffff000, 4096 * d, 4096, 0xfffff000 + i);
    var _, b := cpu.Get8(src);
    StoreDenoted(here, cpu.mmu, dva, 4096 * frame, 4096, dva + i, b);
    var _ := cpu.Put8(dst, b);
    OneByte(m, here, frame, i, b);
  }

  /** memcpy of the kernel half of the current directory, from its own window
      to the page at dva. */
  method MemcpyKernelHalf(cpu: Machine, dva: u32, ghost frame: Frame)
    requires cpu.Valid() && cpu.mmu.paging && SelfMapped(cpu.Ram(), cpu.mmu.cr3)
    requires dva % 0x1000 == 0 && Translate(cpu.Ram(), cpu.mmu.cr3, dva) == Some(4096 * frame)
    requires frame != cpu.mmu.cr3 && frame != FrameOf(Entry(cpu.Ram(), cpu.mmu.cr3, PdIndex(dva)))
    modifies cpu.mem
    ensures cpu.Ram() == Copied(old(cpu.Ram()), 4096 * cpu.mmu.cr3 + 3072, 4096 * frame + 3072, 1024)
  {
    hide Entry, Translate, Lin, Load8, Store8, FrameOf, Copied, SelfMapped, SameOutside;
    ghost var m := cpu.Ram();
    ghost var d: int := cpu.mmu.cr3;
    ghost var from: nat := 4096 * d + 3072;
    ghost var to: nat := 4096 * frame + 3072;
    SameOutsideItself(m, 4096 * frame, 4096 * frame + 4096);
    var dst, src := Add32(dva, 0x300 * 4), Add32(0xfffff000, 0x300 * 4);
    var size: nat := 1024;
    while size > 0
      invariant size <= 1024
      invariant dst == Add32(dva, 4096 - size) && src == Add32(0xfffff000, 4096 - size)
      invariant Copied(cpu.Ram(), from + (1024 - size), to + (1024 - size), size) == Copied(m, from, to, 1024)
      invariant SameOutside(m, cpu.Ram(), 4096 * frame, 4096 * frame + 4096)
    {
      ghost var i := 4096 - size;
      CopiedStep(cpu.Ram(), from + (1024 - size), to + (1024 - size), size);
      CopyByte(cpu, dva, frame, dst, src, m, i);
      NextByte(dva, i);
      NextByte(0xfffff000, i);
      dst, src := Add32(dst, 1), Add32(src, 1);
      size := size - 1;
    }
    CopiedNothing(cpu.Ram(), from + 1024, to + 1024);
  }

  /** Kernel addresses that vaddr_get gives out: whole pages between the higher
      half and the window, the spilled page included. */
  predicate KernelRange(vaddrs: VirtualAddr)
  {
    && vaddrs.Valid() && vaddrs.start % 0x1000 == 0
    && HIGHER_HALF <= vaddrs.start && vaddrs.start + PG_SIZE * (8 * vaddrs.bitmap.len + 1) <= WINDOW
  }

  /** The kernel half of directory d is filled in, and neither its tables nor d
      itself will be handed out by the pool. */
  ghost predicate KernelTablesHeld(m: Ram, d: Frame, pool: Pool)
    requires pool.Valid()
    reads pool.bitmap.bits
  {
    && SelfMapped(m, d) && !pool.Available(d)
    && forall i: nat :: 768 <= i < 1023 ==>
         Present(Entry(m, d, i)) && FrameOf(Entry(m, d, i)) != d && !pool.Available(FrameOf(Entry(m, d, i)))
  }

  lemma PageAddress(vaddrs: VirtualAddr, i: nat)
    requires KernelRange(vaddrs) && i < 8 * vaddrs.bitmap.len
    ensures var va := (vaddrs.start + PG_SIZE * i) % 0x1_0000_0000;
            va == vaddrs.start + PG_SIZE * i && HIGHER_HALF <= va < WINDOW && va % 0x1000 == 0
  {
  }

  lemma IndexOfKernel(va: u32)
    requires HIGHER_HALF <= va < WINDOW
    ensures 768 <= PdIndex(va) < 1023
  {
  }

  lemma AddIgnoresTable(m: Ram, d: Frame, va: u32, frame: Frame, t1: Frame, t2: Frame)
    requires HasTable(m, d, va)
    ensures AddMapping(m, d, va, frame, t1) == AddMapping(m, d, va, frame, t2)
  {
    hide Entry, SetEntry;
  }

  /** When the operations go through. */
  lemma WhenDefined(m: Ram, d: Frame, va: u32, frame: Frame, table: Frame)
    ensures AddMapping(m, d, va, frame, table).Some? <==> Unmapped(m, d, va)
    ensures NewDirectory(m, d, va, frame, table).Some? <==> Unmapped(m, d, va)
    ensures RemoveMapping(m, d, va).Some? <==> HasTable(m, d, va)
  {
    hide Entry, SetEntry, Cleared, FilledDirectory;
  }

  lemma PageAdded(m: Ram, m1: Ram, d: Frame, dva: u32, frame: Frame, table: Frame)
    requires SelfMapped(m, d) && dva < WINDOW && dva % 0x1000 == 0
    requires Present(Entry(m, d, PdIndex(dva))) && FrameOf(Entry(m, d, PdIndex(dva))) != d
    requires AddMapping(m, d, dva, frame, table) == Some(m1)
    ensures SelfMapped(m1, d) && Translate(m1, d, dva) == Some(4096 * frame)
    ensures Entry(m1, d, PdIndex(dva)) == Entry(m, d, PdIndex(dva))
  {
    hide Entry, SetEntry, AddMapping, FrameOf, Present;
    WhenDefined(m, d, dva, frame, table);
    AddWithTable(m, d, dva, frame, table, d, 1023);
    AddWithTable(m, d, dva, frame, table, d, PdIndex(dva));
    AddWithTable(m, d, dva, frame, table, FrameOf(Entry(m, d, PdIndex(dva))), PtIndex(dva));
    FrameOfEntry(frame);
  }

  /** get_kernel_pages(1): a page address, a frame, the mapping, and the page
      cleared. It stops without an address or a frame, or when the address is
      mapped already; the frame stays handed out in the last case. */
  method GetKernelPage(cpu: Machine, pool: Pool, vaddrs: VirtualAddr)
    returns (done: bool, dva: u32, scan: Scan, ghost got: Option<Frame>)
    requires cpu.Valid() && cpu.mmu.paging && KernelRange(vaddrs) && pool.Valid()
    requires pool.bitmap.bits != cpu.mem && vaddrs.bitmap.bits != cpu.mem && vaddrs.bitmap.bits != pool.bitmap.bits
    requires KernelTablesHeld(cpu.Ram(), cpu.mmu.cr3, pool)
    modifies cpu.mem, pool.bitmap.bits, vaddrs.bitmap.bits
    ensures got.Some? ==> old(pool.Available(got.value)) && pool.Issued() == old(pool.Issued()) + {got.value}
    ensures got.None? ==> pool.Issued() == old(pool.Issued())
    ensures !done ==> cpu.Ram() == old(cpu.Ram())
    ensures Answered(old(vaddrs.bitmap.bits[..]), vaddrs.bitmap.bits[..], vaddrs.bitmap.len, 1, scan)
    ensures scan.At? ==> dva == vaddrs.start + PG_SIZE * scan.start && HIGHER_HALF <= dva < WINDOW && dva % 0x1000 == 0
    ensures got.Some? <==> scan.At? && !old(pool.Full())
    ensures done <==> got.Some? && Unmapped(old(cpu.Ram()), cpu.mmu.cr3, dva)
    ensures done ==>
              var m1 := AddMapping(old(cpu.Ram()), cpu.mmu.cr3, dva, got.value, got.value);
              m1.Some? && cpu.Ram() == Cleared(m1.value, 4096 * got.value, 4096)
  {
    hide Entry, SetEntry, Translate, SelfMapped, AddMapping, Cleared, Present, FrameOf, PdIndex;
    hide Answered, IssuedFrames;
    ghost var m, d := cpu.Ram(), cpu.mmu.cr3;
    ghost var bits := vaddrs.bitmap.bits[..];
    var failed;
    scan, dva, failed := vaddrs.Get(1, false);
    done, got := false, None;
    OnePageAnswered(bits, vaddrs.bitmap.bits[..], vaddrs.bitmap.len, scan);
    if !scan.At? { return; }
    PageAddress(vaddrs, scan.start);
    IndexOfKernel(dva);
    var panic, frame := pool.Palloc();
    if panic { return; }
    got := Some(frame);
    WhenDefined(m, d, dva, frame, frame);
    ghost var table;
    done, table := PageTableAdd(cpu, pool, dva, frame);
    if !done { return; }
    AddIgnoresTable(m, d, dva, frame, table, frame);
    PageAdded(m, cpu.Ram(), d, dva, frame, frame);
    MemsetPage(cpu, dva, frame);
  }

  /** addr_v2p; a page fault when va has no table. */
  method AddressV2P(cpu: Machine, va: u32) returns (s: Status, p: u32)
    requires cpu.Valid() && cpu.mmu.paging
    ensures match AddrV2P(cpu.Ram(), cpu.mmu.cr3, va)
            case None => s.PageFault?
            case Some(x) => s.Running? && p == x
  {
    hide Load32, PagePlusOffset, PtePtr;
    var pte;
    s, pte := cpu.Get32(PtePtr(va));
    p := PagePlusOffset(pte, va);
  }

  lemma LastEntry(m: Ram, f: Frame, v: u32)
    ensures SetEntry(m, f, 1023, v) == PutDword(m, 4096 * f + 4092, v)
  {
  }

  /** page_dir_vaddr[1023] = addr_v2p(page_dir_vaddr) | US | RW | P */
  method PointAtItself(cpu: Machine, dva: u32, ghost frame: Frame)
    requires cpu.Valid() && cpu.mmu.paging && SelfMapped(cpu.Ram(), cpu.mmu.cr3)
    requires dva % 0x1000 == 0 && Translate(cpu.Ram(), cpu.mmu.cr3, dva) == Some(4096 * frame)
    modifies cpu.mem
    ensures cpu.Ram() == SetEntry(old(cpu.Ram()), frame, 1023, 4096 * frame + 7)
  {
    hide Entry, SetEntry, Translate, SelfMapped, AddrV2P, BitOr, Lin, Store32;
    ghost var m, d := cpu.Ram(), cpu.mmu.cr3;
    AddrV2PIsTranslate(m, d, dva);
    var _, phys := AddressV2P(cpu, dva);
    EntryForValue(frame);
    PageDenoted(m, d, dva, frame);
    StoreDenoted(m, cpu.mmu, dva, 4096 * frame, 4096, dva + 4092, EntryFor(frame));
    LastEntry(m, frame, EntryFor(frame));
    var _ := cpu.Put32(dva + 4092, Or32(Or32(Or32(phys, PG_US_U), PG_RW_W), PG_P));
  }

  lemma PageKept(m: Ram, n: Ram, d: Frame, dva: u32, frame: Frame)
    requires SelfMapped(m, d) && Translate(m, d, dva) == Some(4096 * frame)
    requires SameOutside(m, n, 4096 * frame, 4096 * frame + 4096)
    requires frame != d && frame != FrameOf(Entry(m, d, PdIndex(dva)))
    ensures SelfMapped(n, d) && Translate(n, d, dva) == Some(4096 * frame)
    ensures Entry(n, d, PdIndex(dva)) == Entry(m, d, PdIndex(dva))
  {
    hide Entry, Translate, FrameOf, Present;
    WalkElsewhere(m, n, frame, d, dva);
    EntrySameOutside(m, n, 4096 * frame, 4096 * frame + 4096, d);
  }

  lemma ClearedFrame(m: Ram, f: Frame)
    ensures SameOutside(m, Cleared(m, 4096 * f, 4096), 4096 * f, 4096 * f + 4096)
  {
  }

  lemma CopiedWithin(m: Ram, d: Frame, f: Frame)
    ensures SameOutside(m, Copied(m, 4096 * d + 3072, 4096 * f + 3072, 1024), 4096 * f, 4096 * f + 4096)
  {
    hide Copied;
    CopiedFrame(m, 4096 * d + 3072, 4096 * f + 3072, 1024);
  }

  /** create_page_dir. */
  method CreatePageDir(cpu: Machine, pool: Pool, vaddrs: VirtualAddr)
    returns (created: bool, dva: u32, scan: Scan, ghost got: Option<Frame>)
    requires cpu.Valid() && cpu.mmu.paging && KernelRange(vaddrs) && pool.Valid()
    requires pool.bitmap.bits != cpu.mem && vaddrs.bitmap.bits != cpu.mem && vaddrs.bitmap.bits != pool.bitmap.bits
    requires KernelTablesHeld(cpu.Ram(), cpu.mmu.cr3, pool)
    modifies cpu.mem, pool.bitmap.bits, vaddrs.bitmap.bits
    ensures got.Some? ==> old(pool.Available(got.value)) && pool.Issued() == old(pool.Issued()) + {got.value}
    ensures got.None? ==> pool.Issued() == old(pool.Issued())
    ensures !created ==> cpu.Ram() == old(cpu.Ram())
    ensures Answered(old(vaddrs.bitmap.bits[..]), vaddrs.bitmap.bits[..], vaddrs.bitmap.len, 1, scan)
    ensures scan.At? ==> dva == vaddrs.start + PG_SIZE * scan.start && HIGHER_HALF <= dva < WINDOW && dva % 0x1000 == 0
    ensures got.Some? <==> scan.At? && !old(pool.Full())
    ensures created <==> got.Some? && Unmapped(old(cpu.Ram()), cpu.mmu.cr3, dva)
    ensures created ==> NewDirectory(old(cpu.Ram()), cpu.mmu.cr3, dva, got.value, got.value) == Some(cpu.Ram())
  {
    hide Entry, SetEntry, Translate, SelfMapped, AddMapping, Cleared, Copied, Present, FrameOf, PdIndex;
    hide Answered, IssuedFrames;
    ghost var m, d := cpu.Ram(), cpu.mmu.cr3;
    created, dva, scan, got := GetKernelPage(cpu, pool, vaddrs);
    if !created { return; }
    ghost var frame := got.value;
    ghost var m1 := AddMapping(m, d, dva, frame, frame).value;
    IndexOfKernel(dva);
    PageAdded(m, m1, d, dva, frame, frame);
    ghost var m2 := cpu.Ram();
    ClearedFrame(m1, frame);
    PageKept(m1, m2, d, dva, frame);
    MemcpyKernelHalf(cpu, dva, frame);
    ghost var m3 := cpu.Ram();
    CopiedWithin(m2, d, frame);
    PageKept(m2, m3, d, dva, frame);

    PointAtItself(cpu, dva, frame);
  }
}
