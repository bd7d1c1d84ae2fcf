/** What the page structures left by setup_page mean for address translation. */
module KernelMap {
  import opened Words
  import opened PhysicalMemory
  import opened Paging
  import opened PageTables

  const MB: nat := 0x10_0000
  const HIGHER_HALF: nat := 0xC000_0000
  const WINDOW: nat := 0xFFC0_0000

  /** The facts that translation of the kernel's addresses rests on. */
  ghost predicate Mapped(m: Ram, pd: nat)
  {
    Placed(pd) && DirectoryBuilt(m, pd) && FirstTableBuilt(m, pd)
  }

  /** Paging is on over these structures, which lie above the low megabyte. */
  ghost predicate KernelPaging(m: Ram, mmu: Mmu, pd: nat)
  {
    256 <= pd && Placed(pd) && mmu == Mmu(true, pd) && Mapped(m, pd)
  }

  lemma IndexOfHigherHalf(va: nat)
    requires va < 0x40_0000
    ensures PdIndex(va) == 0 && PdIndex(va + HIGHER_HALF) == 768
    ensures PtIndex(va + HIGHER_HALF) == PtIndex(va) == va / 0x1000
    ensures (va + HIGHER_HALF) % 0x1000 == va % 0x1000
  {
    assert (va + HIGHER_HALF) / 0x1000 == va / 0x1000 + 0xC_0000;
  }

  lemma BuiltPde(m: Ram, pd: nat, i: nat)
    requires Mapped(m, pd) && i < 1024
    ensures Present(Entry(m, pd, i)) <==> !(0 < i < 768)
    ensures !(0 < i < 768) ==> FrameOf(Entry(m, pd, i)) == KernelTable(pd, if i == 0 then 768 else i)
  {
    hide Entry;
    assert Entry(m, pd, i) == DirEntry(pd, i);
  }

  lemma BuiltPte(m: Ram, pd: nat, j: nat)
    requires Mapped(m, pd) && j < 256
    ensures Present(Entry(m, pd + 1, j)) && FrameOf(Entry(m, pd + 1, j)) == j
  {
    hide Entry;
    assert Entry(m, pd + 1, j) == 4096 * j + 7;
  }

  /** The first 4 MB and the 4 MB from 3 GB on translate alike, and the first
      megabyte of either is physical memory itself. */
  lemma DualMapping(m: Ram, pd: nat, p: nat)
    requires Mapped(m, pd) && p < 0x40_0000
    ensures Translate(m, pd, p) == Translate(m, pd, p + HIGHER_HALF)
    ensures p < MB ==> Translate(m, pd, p) == Some(p)
  {
    hide Entry, DirEntry, Present, FrameOf, PdIndex, PtIndex, FirstTableBuilt, DirectoryBuilt;
    IndexOfHigherHalf(p);
    BuiltPde(m, pd, 0);
    BuiltPde(m, pd, 768);
    if p < MB {
      BuiltPte(m, pd, p / 0x1000);
    }
  }

  lemma LowMegDenoted(m: Ram, pd: nat)
    requires Mapped(m, pd)
    ensures Denotes(m, Mmu(true, pd), 0, 0, MB)
    ensures Denotes(m, Mmu(true, pd), HIGHER_HALF, 0, MB)
  {
    hide Translate;
    forall x: u32 | x < MB
      ensures Translate(m, pd, x) == Some(x)
    {
      DualMapping(m, pd, x);
    }
    forall x: u32 | HIGHER_HALF <= x < HIGHER_HALF + MB
      ensures Translate(m, pd, x) == Some(x - HIGHER_HALF)
    {
      DualMapping(m, pd, x - HIGHER_HALF);
    }
  }

  /** Between the two windows every address faults, whatever memory held
      before. */
  lemma UserHalfUnmapped(m: Ram, pd: nat, va: u32)
    requires Mapped(m, pd) && 0x40_0000 <= va < HIGHER_HALF
    ensures Translate(m, pd, va) == None
  {
    hide Entry, DirectoryBuilt, FirstTableBuilt;
    BuiltPde(m, pd, PdIndex(va));
  }

  /** The top 4 MB show the page structures themselves, one page for each
      present directory entry, and fault for the others. */
  lemma StructureWindow(m: Ram, pd: nat, i: nat, offset: nat)
    requires Mapped(m, pd) && i < 1024 && offset < 0x1000
    ensures Translate(m, pd, WINDOW + 4096 * i + offset) ==
            if 0 < i < 768 then None
            else Some(4096 * KernelTable(pd, if i == 0 then 768 else i) + offset)
  {
    hide Entry, DirEntry, DirectoryBuilt, FirstTableBuilt, FrameOf, Present;
    BuiltPde(m, pd, 1023);
    BuiltPde(m, pd, i);
    var va := WINDOW + 4096 * i + offset;
    assert va / 0x1000 == 0xF_FC00 + i;
    assert PdIndex(va) == 1023 && PtIndex(va) == i;
  }

  /** For any directory that still holds the built entries the self-map exposes
      exactly the governing entries. */
  lemma BuiltSelfMap(m: Ram, pd: nat, va: u32)
    requires Mapped(m, pd)
    ensures SelfMapped(m, pd)
    ensures Translate(m, pd, PdeWindow(va)) == Some(PdeAddr(pd, va))
    ensures Translate(m, pd, PteWindow(va)) ==
            if 0x40_0000 <= va < HIGHER_HALF then None else Some(PteAddr(m, pd, va))
  {
    hide Entry, Translate, DirectoryBuilt, FirstTableBuilt, PteAddr, PdeAddr;
    BuiltPde(m, pd, 1023);
    BuiltPde(m, pd, PdIndex(va));
    SelfMapTranslates(m, pd, va);
  }

  /** The directory and the 255 tables it names are 256 distinct frames, and
      they are exactly the frames of the megabyte from the directory on. */
  lemma StructureFrames(pd: nat, i: nat, j: nat, f: Frame)
    requires Placed(pd) && 768 <= i < 1024 && 768 <= j < 1024
    ensures KernelTable(pd, i) == KernelTable(pd, j) <==> i == j
    ensures pd <= f < pd + 256 <==> exists k: nat :: 768 <= k < 1024 && KernelTable(pd, k) == f
  {
    if pd <= f < pd + 256 {
      var k := if f == pd then 1023 else 767 + (f - pd);
      assert KernelTable(pd, k) == f;
    }
  }

  /** The mapping survives every write below the directory. */
  lemma MappedBelow(m: Ram, n: Ram, pd: nat, hi: nat)
    requires Mapped(m, pd) && SameOutside(m, n, 0, hi) && hi <= 4096 * pd
    ensures Mapped(n, pd)
  {
    hide Entry, DirEntry;
    EntrySameOutside(m, n, 0, hi, pd);
    EntrySameOutside(m, n, 0, hi, pd + 1);
    forall i: nat | i < 1024
      ensures Entry(n, pd, i) == DirEntry(pd, i)
    {
      assert Entry(m, pd, i) == DirEntry(pd, i);
    }
    forall j: nat | j < 256
      ensures Entry(n, pd + 1, j) == 4096 * j + 7
    {
      assert Entry(m, pd + 1, j) == 4096 * j + 7;
    }
  }

  lemma SameEntry(m: Ram, n: Ram, f: Frame, i: nat)
    requires i < 1024 && forall a: nat :: MB <= a < RAM_SIZE ==> n[a] == m[a]
    ensures 256 <= f ==> Entry(n, f, i) == Entry(m, f, i)
  {
  }

  /** No walk looks below the directory, so neither does such a write move any
      address. */
  lemma TranslateAbove(m: Ram, n: Ram, pd: nat, va: u32)
    requires 256 <= pd && Mapped(m, pd)
    requires forall a: nat :: MB <= a < RAM_SIZE ==> n[a] == m[a]
    ensures Translate(n, pd, va) == Translate(m, pd, va)
  {
    hide DirectoryBuilt, FirstTableBuilt;
    BuiltPde(m, pd, PdIndex(va));
    SameEntry(m, n, pd, PdIndex(va));
    SameEntry(m, n, FrameOf(Entry(m, pd, PdIndex(va))), PtIndex(va));
  }
}
