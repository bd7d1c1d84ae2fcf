/** setup_page: clearing the page directory and installing the entries of the
    loader's page directory and first page table. */
module PageTables {
  import opened Words
  import opened PhysicalMemory
  import opened Paging
  import opened Cpu

  const PG_P: u32 := 1
  const PG_RW_W: u32 := 2
  const PG_US_U: u32 := 4

  function Flags(): u32 { Or32(Or32(PG_P, PG_RW_W), PG_US_U) }

  lemma FlagsValue()
    ensures Flags() == 7
  {
    assert BitOr(1, 2) == 3;
    assert BitOr(3, 4) == 7;
  }

  // ----- What the structures must hold -----

  /** The directory lives in frame pd and the 255 page tables after it. */
  predicate Placed(pd: nat) { pd + 256 <= FRAMES }

  /** The frame of the table that directory entry i names, for i >= 768. */
  function KernelTable(pd: nat, i: nat): Frame
    requires Placed(pd) && 768 <= i < 1024
  {
    if i == 1023 then pd else pd + (i - 767)
  }

  function DirEntry(pd: nat, i: nat): u32
    requires Placed(pd) && i < 1024
  {
    if i == 0 then 4096 * KernelTable(pd, 768) + 7
    else if i < 768 then 0
    else 4096 * KernelTable(pd, i) + 7
  }

  lemma DirEntryKernel(pd: nat, i: nat)
    requires Placed(pd) && 769 <= i < 1023
    ensures DirEntry(pd, i) == 4096 * (pd + (i - 767)) + 7
  {
  }

  ghost predicate DirectoryBuilt(m: Ram, pd: nat)
    requires Placed(pd)
  {
    forall i: nat :: i < 1024 ==> Entry(m, pd, i) == DirEntry(pd, i)
  }

  /** The first table maps page j of the low megabyte to frame j. */
  ghost predicate FirstTableBuilt(m: Ram, pd: nat)
    requires Placed(pd)
  {
    forall j: nat :: j < 256 ==> Entry(m, pd + 1, j) == 4096 * j + 7
  }

  /** The memory that setup_page leaves: both structures, nothing else changed.
      Entries 256..1023 of the first table and all of the later tables keep
      whatever they held. */
  ghost predicate Built(before: Ram, after: Ram, pd: nat)
    requires Placed(pd)
  {
    && DirectoryBuilt(after, pd)
    && FirstTableBuilt(after, pd)
    && SameOutside(before, after, 4096 * pd, 4096 * (pd + 1) + 1024)
  }

  /** The same, entry by entry and byte by byte. */
  lemma BuiltInNumbers(before: Ram, after: Ram, pd: nat)
    requires Placed(pd) && Built(before, after, pd)
    ensures Dword(after, 4096 * pd) == 4096 * (pd + 1) + 7
    ensures forall i: nat :: 1 <= i < 768 ==> Dword(after, 4096 * pd + 4 * i) == 0
    ensures forall i: nat :: 768 <= i < 1023 ==> Dword(after, 4096 * pd + 4 * i) == 4096 * (pd + i - 767) + 7
    ensures Dword(after, 4096 * pd + 4092) == 4096 * pd + 7
    ensures forall j: nat :: j < 256 ==> Dword(after, 4096 * (pd + 1) + 4 * j) == 4096 * j + 7
    ensures forall a: nat :: a < RAM_SIZE && !(4096 * pd <= a < 4096 * pd + 5120) ==> after[a] == before[a]
  {
    hide Dword;
    assert Entry(after, pd, 0) == DirEntry(pd, 0);
    assert Entry(after, pd, 1023) == DirEntry(pd, 1023);
    forall i: nat | 1 <= i < 1023
      ensures Dword(after, 4096 * pd + 4 * i) == if i < 768 then 0 else 4096 * (pd + i - 767) + 7
    {
      assert Entry(after, pd, i) == DirEntry(pd, i);
    }
    forall j: nat | j < 256
      ensures Dword(after, 4096 * (pd + 1) + 4 * j) == 4096 * j + 7
    {
      assert Entry(after, pd + 1, j) == 4096 * j + 7;
    }
  }

  // ----- The code -----

  /** mov [address], v for the address of entry i of frame f. */
  method StoreEntry(cpu: Machine, address: u32, v: u32, ghost f: Frame, ghost i: nat)
    requires cpu.Valid() && !cpu.mmu.paging
    requires i < 1024 && address == 4096 * f + 4 * i
    modifies cpu.mem
    ensures cpu.Ram() == SetEntry(old(cpu.Ram()), f, i, v)
    ensures forall g: Frame, j: nat :: j < 1024 ==>
              Entry(cpu.Ram(), g, j) == if g == f && j == i then v else old(Entry(cpu.Ram(), g, j))
    ensures SameOutside(old(cpu.Ram()), cpu.Ram(), address, address + 4)
  {
    DenotesPhysical(cpu.Ram(), cpu.mmu, address, 4);
    StoreDenoted(cpu.Ram(), cpu.mmu, address, address, 4, address, v);
    EntryAfterSet(cpu.Ram(), f, i, v);
    DwordAfterPut(cpu.Ram(), address, v);
    var _ := cpu.Put32(address, v);
  }

  /** StoreEntry, as part of a routine that only touches lo..hi-1. */
  method StoreWithin(cpu: Machine, address: u32, v: u32, ghost f: Frame, ghost i: nat,
                     ghost lo: int, ghost hi: int, ghost before: Ram)
    requires cpu.Valid() && !cpu.mmu.paging
    requires i < 1024 && address == 4096 * f + 4 * i
    requires SameOutside(before, cpu.Ram(), lo, hi) && lo <= address && address + 4 <= hi
    modifies cpu.mem
    ensures forall g: Frame, j: nat :: j < 1024 ==>
              Entry(cpu.Ram(), g, j) == if g == f && j == i then v else old(Entry(cpu.Ram(), g, j))
    ensures cpu.Ram() == SetEntry(old(cpu.Ram()), f, i, v)
    ensures SameOutside(before, cpu.Ram(), lo, hi)
  {
    hide Entry, SetEntry;
    StoreEntry(cpu, address, v, f, i);
    SameOutsideTransitive(before, old(cpu.Ram()), cpu.Ram(), lo, hi, address, address + 4);
  }

  lemma ZeroBytesZeroEntries(m: Ram, f: Frame)
    requires forall a :: 4096 * f <= a < 4096 * f + 4096 ==> m[a] == 0
    ensures forall i: nat :: i < 1024 ==> Entry(m, f, i) == 0
  {
  }

  method ClearPageDirMem(cpu: Machine, pd: nat)
    requires cpu.Valid() && !cpu.mmu.paging && Placed(pd)
    modifies cpu.mem, cpu`ecx, cpu`esi
    ensures forall i: nat :: i < 1024 ==> Entry(cpu.Ram(), pd, i) == 0
    ensures SameOutside(old(cpu.Ram()), cpu.Ram(), 4096 * pd, 4096 * pd + 4096)
  {
    cpu.ecx := 0x1000;
    cpu.esi := 0;
    while true
      invariant 0 <= cpu.esi < 0x1000 && cpu.ecx == 0x1000 - cpu.esi
      invariant forall a :: 4096 * pd <= a < 4096 * pd + cpu.esi ==> cpu.Ram()[a] == 0
      invariant SameOutside(old(cpu.Ram()), cpu.Ram(), 4096 * pd, 4096 * pd + 4096)
      decreases cpu.ecx
    {
      var _ := cpu.Put8(Add32(4096 * pd, cpu.esi), 0);
      cpu.esi := Add32(cpu.esi, 1);
      cpu.ecx := Sub32(cpu.ecx, 1);
      if cpu.ecx == 0 { break; }
    }
    ZeroBytesZeroEntries(cpu.Ram(), pd);
  }

  method CreatePde(cpu: Machine, pd: nat)
    requires cpu.Valid() && !cpu.mmu.paging && Placed(pd)
    requires forall i: nat :: i < 1024 ==> Entry(cpu.Ram(), pd, i) == 0
    modifies cpu.mem, cpu`eax
    ensures forall i: nat :: i < 1024 ==>
              Entry(cpu.Ram(), pd, i) == if i <= 768 || i == 1023 then DirEntry(pd, i) else 0
    ensures SameOutside(old(cpu.Ram()), cpu.Ram(), 4096 * pd, 4096 * pd + 4096)
  {
    hide Machine.Ram, SameOutside, Entry, SetEntry, Or32, Flags;
    FlagsValue();
    OrFlags(pd + 1, 7);
    SameOutsideItself(cpu.Ram(), 4096 * pd, 4096 * pd + 4096);
    cpu.eax := 4096 * pd;
    cpu.eax := Add32(cpu.eax, 0x1000);
    cpu.eax := Or32(cpu.eax, Flags());
    StoreWithin(cpu, Add32(4096 * pd, 0), cpu.eax, pd, 0, 4096 * pd, 4096 * pd + 4096, old(cpu.Ram()));
    StoreWithin(cpu, Add32(4096 * pd, 0xc00), cpu.eax, pd, 768, 4096 * pd, 4096 * pd + 4096, old(cpu.Ram()));
    cpu.eax := Sub32(cpu.eax, 0x1000);
    StoreWithin(cpu, Add32(4096 * pd, 4092), cpu.eax, pd, 1023, 4096 * pd, 4096 * pd + 4096, old(cpu.Ram()));
  }

  /** The first n entries of the first table are filled in. */
  ghost predicate PtesFilled(m: Ram, pd: nat, n: nat)
    requires Placed(pd) && n <= 1024
  {
    forall j: nat :: j < n ==> Entry(m, pd + 1, j) == 4096 * j + 7
  }

  lemma NextPte(m: Ram, pd: nat, n: nat)
    requires Placed(pd) && n < 256 && PtesFilled(m, pd, n)
    ensures PtesFilled(SetEntry(m, pd + 1, n, 4096 * n + 7), pd, n + 1)
  {
    hide Entry, SetEntry;
    EntryAfterSet(m, pd + 1, n, 4096 * n + 7);
  }

  method CreateKernelPte(cpu: Machine, pd: nat)
    requires cpu.Valid() && !cpu.mmu.paging && Placed(pd)
    modifies cpu.mem, cpu`eax, cpu`ebx, cpu`ecx, cpu`esi
    ensures PtesFilled(cpu.Ram(), pd, 256)
    ensures SameOutside(old(cpu.Ram()), cpu.Ram(), 4096 * (pd + 1), 4096 * (pd + 1) + 1024)
  {
    SameOutsideItself(cpu.Ram(), 4096 * (pd + 1), 4096 * (pd + 1) + 1024);
    assert PtesFilled(cpu.Ram(), pd, 0);
    hide Machine.Ram, SameOutside, SetEntry, PtesFilled, Or32, Flags, Add32, Sub32;
    FlagsValue();
    cpu.eax := 4096 * pd;
    AddExact(cpu.eax, 0x1000);
    cpu.eax := Add32(cpu.eax, 0x1000);
    cpu.ecx := 256;
    cpu.esi := 0;
    cpu.ebx := Flags();
    while true
      invariant 0 <= cpu.esi < 256 && cpu.ecx == 256 - cpu.esi
      invariant cpu.eax == 4096 * (pd + 1) && cpu.ebx == 4096 * cpu.esi + 7
      invariant PtesFilled(cpu.Ram(), pd, cpu.esi)
      invariant SameOutside(old(cpu.Ram()), cpu.Ram(), 4096 * (pd + 1), 4096 * (pd + 1) + 1024)
      decreases cpu.ecx
    {
      NextPte(cpu.Ram(), pd, cpu.esi);
      AddExact(cpu.eax, 4 * cpu.esi);
      AddExact(cpu.esi, 1);
      AddExact(cpu.ebx, 0x1000);
      SubExact(cpu.ecx, 1);
      StoreWithin(cpu, Add32(cpu.eax, 4 * cpu.esi), cpu.ebx, pd + 1, cpu.esi,
                  4096 * (pd + 1), 4096 * (pd + 1) + 1024, old(cpu.Ram()));
      cpu.esi := Add32(cpu.esi, 1);
      cpu.ebx := Add32(cpu.ebx, 0x1000);
      cpu.ecx := Sub32(cpu.ecx, 1);
      if cpu.ecx == 0 { break; }
    }
  }

  /** Directory entries 769 .. n-1 are filled in, the others are as before. */
  ghost predicate PdesFilled(before: Ram, m: Ram, pd: nat, n: nat)
    requires Placed(pd) && n <= 1023
  {
    forall i: nat :: i < 1024 ==>
      Entry(m, pd, i) == if 769 <= i < n then DirEntry(pd, i) else Entry(before, pd, i)
  }

  lemma NextPde(before: Ram, m: Ram, pd: nat, n: nat)
    requires Placed(pd) && 769 <= n < 1023 && PdesFilled(before, m, pd, n)
    ensures PdesFilled(before, SetEntry(m, pd, n, DirEntry(pd, n)), pd, n + 1)
  {
    hide Entry, SetEntry, DirEntry;
    EntryAfterSet(m, pd, n, DirEntry(pd, n));
  }

  /** The body of .create_kernel_pde up to the loop instruction; the last add
      to eax may wrap. */
  method StoreKernelPde(cpu: Machine, pd: nat, ghost before: Ram)
    requires cpu.Valid() && !cpu.mmu.paging && Placed(pd) && 769 <= cpu.esi < 1023
    requires cpu.ebx == 4096 * pd && cpu.eax == 4096 * (pd + (cpu.esi - 767)) + 7
    requires PdesFilled(before, cpu.Ram(), pd, cpu.esi)
    requires SameOutside(before, cpu.Ram(), 4096 * pd, 4096 * pd + 4096)
    modifies cpu.mem, cpu`eax, cpu`esi
    ensures cpu.esi == old(cpu.esi) + 1
    ensures cpu.esi < 1023 ==> cpu.eax == 4096 * (pd + (cpu.esi - 767)) + 7
    ensures PdesFilled(before, cpu.Ram(), pd, cpu.esi)
    ensures SameOutside(before, cpu.Ram(), 4096 * pd, 4096 * pd + 4096)
  {
    hide Machine.Ram, SameOutside, SetEntry, PdesFilled, DirEntry, Add32;
    DirEntryKernel(pd, cpu.esi);
    NextPde(before, cpu.Ram(), pd, cpu.esi);
    AddExact(cpu.ebx, 4 * cpu.esi);
    AddExact(cpu.esi, 1);
    if cpu.esi < 1022 { AddExact(cpu.eax, 0x1000); }
    StoreWithin(cpu, Add32(cpu.ebx, 4 * cpu.esi), cpu.eax, pd, cpu.esi,
                4096 * pd, 4096 * pd + 4096, before);
    cpu.esi := Add32(cpu.esi, 1);
    cpu.eax := Add32(cpu.eax, 0x1000);
  }

  method CreateKernelPde(cpu: Machine, pd: nat)
    requires cpu.Valid() && !cpu.mmu.paging && Placed(pd)
    modifies cpu.mem, cpu`eax, cpu`ebx, cpu`ecx, cpu`esi
    ensures PdesFilled(old(cpu.Ram()), cpu.Ram(), pd, 1023)
    ensures SameOutside(old(cpu.Ram()), cpu.Ram(), 4096 * pd, 4096 * pd + 4096)
  {
    SameOutsideItself(cpu.Ram(), 4096 * pd, 4096 * pd + 4096);
    assert PdesFilled(cpu.Ram(), cpu.Ram(), pd, 769);
    hide Machine.Ram, SameOutside, SetEntry, PdesFilled, Or32, Flags, DirEntry, Add32, Sub32;
    FlagsValue();
    OrFlags(pd + 2, 7);
    cpu.eax := 4096 * pd;
    AddExact(cpu.eax, 0x2000);
    cpu.eax := Add32(cpu.eax, 0x2000);
    cpu.eax := Or32(cpu.eax, Flags());
    cpu.ebx := 4096 * pd;
    cpu.ecx := 254;
    cpu.esi := 769;
    while true
      invariant 769 <= cpu.esi < 1023 && cpu.ecx == 1023 - cpu.esi
      invariant cpu.ebx == 4096 * pd && cpu.eax == 4096 * (pd + (cpu.esi - 767)) + 7
      invariant PdesFilled(old(cpu.Ram()), cpu.Ram(), pd, cpu.esi)
      invariant SameOutside(old(cpu.Ram()), cpu.Ram(), 4096 * pd, 4096 * pd + 4096)
      decreases cpu.ecx
    {
      SubExact(cpu.ecx, 1);
      StoreKernelPde(cpu, pd, old(cpu.Ram()));
      cpu.ecx := Sub32(cpu.ecx, 1);
      if cpu.ecx == 0 { break; }
    }
  }

  /** The whole routine, for any memory it starts from. */
  method SetupPage(cpu: Machine, pd: nat)
    requires cpu.Valid() && !cpu.mmu.paging && Placed(pd)
    modifies cpu.mem, cpu`eax, cpu`ebx, cpu`ecx, cpu`esi
    ensures Built(old(cpu.Ram()), cpu.Ram(), pd)
  {
    hide Entry;
    ClearPageDirMem(cpu, pd);
    CreatePde(cpu, pd);
    ghost var directory := cpu.Ram();
    CreateKernelPte(cpu, pd);
    EntrySameOutside(directory, cpu.Ram(), 4096 * (pd + 1), 4096 * (pd + 1) + 1024, pd);
    ghost var table := cpu.Ram();
    CreateKernelPde(cpu, pd);
    EntrySameOutside(table, cpu.Ram(), 4096 * pd, 4096 * pd + 4096, pd + 1);
  }
}
