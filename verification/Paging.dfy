/** The two-level translation of 32-bit paging with 4 KB pages (section 4.3 of
    the Intel SDM, Volume 3A; CR4.PSE is clear, so bit 7 of a directory entry
    is ignored), and memory accesses made through it. */
module Paging {
  import opened Words
  import opened PhysicalMemory

  // ----- Address split -----

  /** Bits 31:22 and 21:12, the two halves of the page number. */
  function PdIndex(va: u32): nat { va / 0x1000 / 1024 }

  function PtIndex(va: u32): nat { va / 0x1000 % 1024 }

  /** Bit 0 of an entry's flags, and its bits 31:12. */
  predicate Present(e: u32) { e % 0x1000 % 2 == 1 }

  function FrameOf(e: u32): Frame { e / 0x1000 }

  // ----- The page walk -----

  /** Bytes where the walk for va finds its directory and table entries. */
  function PdeAddr(d: Frame, va: u32): u32 { 4096 * d + 4 * PdIndex(va) }

  function PteAddr(m: Ram, d: Frame, va: u32): u32
  {
    4096 * FrameOf(Entry(m, d, PdIndex(va))) + 4 * PtIndex(va)
  }

  function Walk(m: Ram, d: Frame, pdi: nat, pti: nat, offset: nat): Option<u32>
    requires pdi < 1024 && pti < 1024 && offset < 0x1000
  {
    var pde := Entry(m, d, pdi);
    if !Present(pde) then None
    else
      var pte := Entry(m, FrameOf(pde), pti);
      if !Present(pte) then None
      else Some(4096 * FrameOf(pte) + offset)
  }

  /** The physical address of va under the directory in frame d, or None when
      the access faults. */
  function Translate(m: Ram, d: Frame, va: u32): Option<u32>
  {
    Walk(m, d, PdIndex(va), PtIndex(va), va % 0x1000)
  }

  lemma LowestBit(e: u32)
    ensures Present(e) <==> e % 2 == 1
  {
  }

  /** The walk in bits and bytes: the ten upper bits i of an address choose the
      directory entry, at 4 bytes each, the next ten bits j the table entry; bit
      0 of either must be set; the upper 20 bits of an entry are the frame. */
  lemma TranslateInBits(m: Ram, d: Frame, i: nat, j: nat, offset: nat, pde: u32, table: Frame, pte: u32, frame: Frame)
    requires i < 1024 && j < 1024 && offset < 0x1000
    requires pde == Dword(m, 4096 * d + 4 * i) && table == pde / 0x1000
    requires pte == Dword(m, 4096 * table + 4 * j) && frame == pte / 0x1000
    ensures Translate(m, d, 0x40_0000 * i + 0x1000 * j + offset) ==
            if pde % 2 == 1 && pte % 2 == 1 then Some(0x1000 * frame + offset) else None
  {
    hide Dword;
    LowestBit(pde);
    LowestBit(pte);
    var va := 0x40_0000 * i + 0x1000 * j + offset;
    assert va / 0x1000 == 1024 * i + j;
    assert PdIndex(va) == i && PtIndex(va) == j;
  }

  /** Paging state of the processor: CR0.PG and the frame named by CR3. */
  datatype Mmu = Mmu(paging: bool, cr3: Frame)

  /** The physical address behind a linear address. */
  function Lin(m: Ram, mmu: Mmu, va: u32): Option<u32>
  {
    if mmu.paging then Translate(m, mmu.cr3, va) else Some(va)
  }

  // ----- Accesses through the translation -----
  // Every byte of an access is translated before any byte is written.

  function Load8(m: Ram, mmu: Mmu, va: u32): Option<u8>
  {
    var p :- Lin(m, mmu, va);
    Some(m[p])
  }

  function Load16(m: Ram, mmu: Mmu, va: u32): Option<u32>
  {
    var p0 :- Lin(m, mmu, va);
    var p1 :- Lin(m, mmu, Add32(va, 1));
    Some(FromBytes(m[p0], m[p1], 0, 0))
  }

  function Load32(m: Ram, mmu: Mmu, va: u32): Option<u32>
  {
    var p0 :- Lin(m, mmu, va);
    var p1 :- Lin(m, mmu, Add32(va, 1));
    var p2 :- Lin(m, mmu, Add32(va, 2));
    var p3 :- Lin(m, mmu, Add32(va, 3));
    Some(FromBytes(m[p0], m[p1], m[p2], m[p3]))
  }

  function Store8(m: Ram, mmu: Mmu, va: u32, b: u8): Option<Ram>
  {
    var p :- Lin(m, mmu, va);
    Some(m[p := b])
  }

  function Store16(m: Ram, mmu: Mmu, va: u32, v: u16): Option<Ram>
  {
    var p0 :- Lin(m, mmu, va);
    var p1 :- Lin(m, mmu, Add32(va, 1));
    Some(m[p0 := v % 0x100][p1 := v / 0x100])
  }

  function Store32(m: Ram, mmu: Mmu, va: u32, v: u32): Option<Ram>
  {
    var p0 :- Lin(m, mmu, va);
    var p1 :- Lin(m, mmu, Add32(va, 1));
    var p2 :- Lin(m, mmu, Add32(va, 2));
    var p3 :- Lin(m, mmu, Add32(va, 3));
    Some(m[p0 := Byte(v, 0)][p1 := Byte(v, 1)][p2 := Byte(v, 2)][p3 := Byte(v, 3)])
  }

  /** The linear addresses va .. va+n-1 denote the physical p .. p+n-1. */
  ghost predicate Denotes(m: Ram, mmu: Mmu, va: nat, p: nat, n: nat)
  {
    && va + n <= RAM_SIZE && p + n <= RAM_SIZE
    && forall x: u32 :: va <= x < va + n ==> Lin(m, mmu, x) == Some(p + (x - va))
  }

  /** Accesses inside a range that denotes a physical range are accesses to it. */
  lemma LoadDenoted(m: Ram, mmu: Mmu, va: nat, p: nat, n: nat, x: nat)
    requires Denotes(m, mmu, va, p, n) && va <= x
    ensures x + 1 <= va + n ==> Load8(m, mmu, x) == Some(m[p + (x - va)])
    ensures x + 2 <= va + n ==> Load16(m, mmu, x) == Some(Word(m, p + (x - va)))
    ensures x + 4 <= va + n ==> Load32(m, mmu, x) == Some(Dword(m, p + (x - va)))
  {
    hide Lin, FromBytes;
  }

  lemma StoreDenoted(m: Ram, mmu: Mmu, va: nat, p: nat, n: nat, x: nat, v: u32)
    requires Denotes(m, mmu, va, p, n) && va <= x
    ensures x + 1 <= va + n && v < 0x100 ==> Store8(m, mmu, x, v) == Some(m[p + (x - va) := v])
    ensures x + 2 <= va + n && v < 0x1_0000 ==> Store16(m, mmu, x, v) == Some(PutWord(m, p + (x - va), v))
    ensures x + 4 <= va + n ==> Store32(m, mmu, x, v) == Some(PutDword(m, p + (x - va), v))
  {
    hide Lin;
  }

  /** Without paging, linear addresses are physical. */
  lemma DenotesPhysical(m: Ram, mmu: Mmu, a: nat, n: nat)
    requires !mmu.paging && a + n <= RAM_SIZE
    ensures Denotes(m, mmu, a, a, n)
  {
  }

  lemma SamePage(va: u32, k: nat)
    requires va % 0x1000 + k < 0x1000
    ensures va + k < RAM_SIZE
    ensures PdIndex(va + k) == PdIndex(va) && PtIndex(va + k) == PtIndex(va)
    ensures (va + k) % 0x1000 == va % 0x1000 + k
  {
    assert (va + k) / 0x1000 == va / 0x1000;
    assert PdIndex(va + k) == (va + k) / 0x1000 / 1024;
  }

  /** A mapped byte fixes the translation of the rest of its page. */
  lemma DenotesWithinPage(m: Ram, d: Frame, va: u32, n: nat)
    requires Translate(m, d, va).Some?
    requires va % 0x1000 + n <= 0x1000
    ensures Denotes(m, Mmu(true, d), va, Translate(m, d, va).value, n)
  {
    hide Entry, Present;
    forall x: u32 | va <= x < va + n
      ensures Translate(m, d, x) == Some(Translate(m, d, va).value + (x - va))
    {
      SamePage(va, x - va);
    }
  }

  /** A dword access that stays in one page goes where its first byte goes. */
  lemma DwordAccess(m: Ram, d: Frame, va: u32, v: u32)
    requires va % 0x1000 + 4 <= 0x1000
    ensures match Translate(m, d, va)
            case None => Load32(m, Mmu(true, d), va) == None && Store32(m, Mmu(true, d), va, v) == None
            case Some(p) =>
              && p + 4 <= RAM_SIZE
              && Load32(m, Mmu(true, d), va) == Some(Dword(m, p))
              && Store32(m, Mmu(true, d), va, v) == Some(PutDword(m, p, v))
  {
    hide Walk;
    if Translate(m, d, va).Some? {
      DenotesWithinPage(m, d, va, 4);
      LoadDenoted(m, Mmu(true, d), va, Translate(m, d, va).value, 4, va);
      StoreDenoted(m, Mmu(true, d), va, Translate(m, d, va).value, 4, va, v);
    }
  }

  // ----- The recursive self-map -----

  /** Entry 1023 of the directory names the directory itself. */
  predicate SelfMapped(m: Ram, d: Frame)
  {
    var e := Entry(m, d, 1023);
    Present(e) && FrameOf(e) == d
  }

  /** The virtual addresses at which the entries governing va appear. */
  function PteWindow(va: u32): u32 { 0xFFC0_0000 + 4 * (va / 0x1000) }

  function PdeWindow(va: u32): u32 { 0xFFFF_F000 + 4 * PdIndex(va) }

  lemma WindowSplit(va: u32)
    ensures PdIndex(PteWindow(va)) == 1023 && PtIndex(PteWindow(va)) == PdIndex(va)
    ensures PteWindow(va) % 0x1000 == 4 * PtIndex(va)
    ensures PdIndex(PdeWindow(va)) == 1023 && PtIndex(PdeWindow(va)) == 1023
    ensures PdeWindow(va) % 0x1000 == 4 * PdIndex(va)
  {
    var page := va / 0x1000;
    assert page == 1024 * PdIndex(va) + PtIndex(va);
    assert PteWindow(va) == 0xFFC0_0000 + 4096 * PdIndex(va) + 4 * PtIndex(va);
    assert PteWindow(va) / 0x1000 == 0xFFC00 + PdIndex(va);
  }

  /** Under any self-mapped directory the table window shows the entry that
      governs va exactly when va's directory entry is present, and the
      directory window always shows the directory entry of va. */
  lemma SelfMapTranslates(m: Ram, d: Frame, va: u32)
    requires SelfMapped(m, d)
    ensures Translate(m, d, PteWindow(va)) ==
            if Present(Entry(m, d, PdIndex(va))) then Some(PteAddr(m, d, va)) else None
    ensures Translate(m, d, PdeWindow(va)) == Some(PdeAddr(d, va))
  {
    WindowSplit(va);
  }

  /** A load or store through the directory window reaches exactly the
      directory entry of va. */
  lemma PdeWindowAccess(m: Ram, d: Frame, va: u32, v: u32)
    requires SelfMapped(m, d)
    ensures Load32(m, Mmu(true, d), PdeWindow(va)) == Some(Entry(m, d, PdIndex(va)))
    ensures Store32(m, Mmu(true, d), PdeWindow(va), v) == Some(SetEntry(m, d, PdIndex(va), v))
  {
    hide Walk, Load32, Store32, PtIndex, PdIndex, Dword, PutDword, Translate;
    SelfMapTranslates(m, d, va);
    WindowSplit(va);
    DwordAccess(m, d, PdeWindow(va), v);
  }

  /** A load or store through the table window reaches exactly the table entry
      that governs va, or faults when va has no table. */
  lemma PteWindowAccess(m: Ram, d: Frame, va: u32, v: u32)
    requires SelfMapped(m, d)
    ensures var pde := Entry(m, d, PdIndex(va));
            if Present(pde) then
              && Load32(m, Mmu(true, d), PteWindow(va)) == Some(Entry(m, FrameOf(pde), PtIndex(va)))
              && Store32(m, Mmu(true, d), PteWindow(va), v) == Some(SetEntry(m, FrameOf(pde), PtIndex(va), v))
            else
              && Load32(m, Mmu(true, d), PteWindow(va)) == None
              && Store32(m, Mmu(true, d), PteWindow(va), v) == None
  {
    hide Walk, Load32, Store32, PtIndex, PdIndex, Dword, PutDword, Translate, Present, FrameOf;
    SelfMapTranslates(m, d, va);
    WindowSplit(va);
    DwordAccess(m, d, PteWindow(va), v);
  }
}
