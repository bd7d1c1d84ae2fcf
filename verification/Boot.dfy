/** The protected-mode half of the loader, from p_mode_start to the jump to the
    kernel: read the image, build the page structures, switch to the higher
    half and load the segments, all over one memory. */
module Boot {
  import opened Words
  import opened PhysicalMemory
  import opened Paging
  import opened Cpu
  import opened PageTables
  import opened KernelMap
  import opened DiskReader
  import opened HigherHalf
  import opened ElfImage
  import opened MemoryCopy
  import opened ElfLoader

  const SECTORS: nat := 200
  const IMAGE_SIZE: nat := SECTORS * SECTOR
  const KERNEL_STACK: u32 := 0xC009_F000

  /** "Genius" in text memory: each character before its attribute. */
  const BANNER: seq<u8> := [0x47, 0xA4, 0x65, 0xA4, 0x6e, 0xA4, 0x69, 0xA4, 0x75, 0xA4, 0x73, 0xA4]

  /** Where assembly-time constants put things: the directory's frame, the
      image buffer and its first sector, the loader's stack and GDT pointer, and
      the text memory that the video descriptor names. */
  datatype Layout = Layout(pd: nat, image: u32, sector: u32, stackTop: u32, gdtPtr: u32, video: u32)

  /** The structures lie above the low megabyte; the image lies in it above
      the cutoff; stack, GDT pointer and GDT lie below the cutoff, the stack
      lowest and the other two apart; text memory is above the cutoff, too, and
      apart from the image. */
  predicate Fits(l: Layout, gdtBase: u32)
  {
    && 256 <= l.pd && Placed(l.pd)
    && LOW <= l.image && l.image + IMAGE_SIZE <= MB
    && l.sector < 0x1000_0000
    && 28 <= l.stackTop && l.stackTop <= l.gdtPtr && l.stackTop <= gdtBase
    && l.gdtPtr + 6 <= LOW && gdtBase + GDT_SIZE <= LOW
    && (l.gdtPtr + 6 <= gdtBase || gdtBase + GDT_SIZE <= l.gdtPtr)
    && LOW <= l.video && l.video + |BANNER| <= MB
    && (l.video + |BANNER| <= l.image || l.image + IMAGE_SIZE <= l.video)
  }

  /** The GDT's fourth descriptor names the text memory. */
  ghost predicate VideoAt(m: Ram, gdtBase: u32, base: u32)
    requires gdtBase + GDT_SIZE <= LOW
  {
    SegmentBase(Dword(m, gdtBase + 0x18), Dword(m, gdtBase + VIDEO_HIGH)) == base
  }

  /** The loader's own constants. */
  const GENIUX: Layout := Layout(0x100, 0x7_0000, 6, 0x900, 0xB04, 0xB_8000)

  lemma GeniuxFits()
    ensures Fits(GENIUX, 0x903)
  {
  }

  /** The image as it lies on the disk. */
  function ImageFile(disk: seq<u8>, l: Layout): seq<u8>
    requires SECTOR * l.sector + IMAGE_SIZE <= |disk|
  {
    disk[SECTOR * l.sector..SECTOR * l.sector + IMAGE_SIZE]
  }

  /** Bytes that reading the image and building the page structures write: the
      return address, the image buffer and the two initialised structures. */
  predicate Buffers(l: Layout, a: int)
  {
    || l.stackTop - 4 <= a < l.stackTop
    || l.image <= a < l.image + IMAGE_SIZE
    || 4096 * l.pd <= a < 4096 * (l.pd + 1) + 1024
  }

  predicate Text(l: Layout, a: int) { l.video <= a < l.video + |BANNER| }

  ghost predicate KeptOutsideBuffers(m: Ram, n: Ram, l: Layout)
  {
    forall a :: 0 <= a < RAM_SIZE && !Buffers(l, a) ==> n[a] == m[a]
  }

  ghost predicate KeptOutsideDescriptors(m: Ram, n: Ram, l: Layout, gdtBase: u32)
  {
    forall a :: 0 <= a < RAM_SIZE && !Moved(l.gdtPtr, gdtBase, a) ==> n[a] == m[a]
  }

  // ----- The stages -----

  /** call and ret without paging around a routine are a push and a pop. */
  method Call(cpu: Machine, site: u32, ghost top: nat)
    requires cpu.Valid() && !cpu.mmu.paging && cpu.esp == top && 4 <= top
    modifies cpu.mem, cpu`esp
    ensures cpu.esp == top - 4 && cpu.Ram() == PutDword(old(cpu.Ram()), top - 4, site)
  {
    hide PutDword, Lin, Store32;
    SubExact(cpu.esp, 4);
    DenotesPhysical(cpu.Ram(), cpu.mmu, top - 4, 4);
    StoreDenoted(cpu.Ram(), cpu.mmu, top - 4, top - 4, 4, top - 4, site);
    var _ := cpu.Push(site);
  }

  method Return(cpu: Machine, ghost top: nat)
    requires cpu.Valid() && !cpu.mmu.paging && cpu.esp == top - 4 && 4 <= top < RAM_SIZE
    modifies cpu`esp, cpu`eip
    ensures cpu.esp == top && cpu.eip == Dword(cpu.Ram(), top - 4)
  {
    hide Dword, Lin, Load32;
    AddExact(cpu.esp, 4);
    DenotesPhysical(cpu.Ram(), cpu.mmu, top - 4, 4);
    LoadDenoted(cpu.Ram(), cpu.mmu, top - 4, top - 4, 4, top - 4);
    var _ := cpu.Ret();
  }

  /** 200 sectors from the start sector land in the image buffer. */
  lemma ImageStored(m: Ram, disk: seq<u8>, l: Layout)
    requires l.image + IMAGE_SIZE <= MB && l.sector < 0x1000_0000
    requires SECTOR * l.sector + IMAGE_SIZE <= |disk|
    ensures var n := Stored(m, disk, Programmed(l.sector, SECTORS), l.image, WordsRead(SECTORS));
            Holds(n, l.image, ImageFile(disk, l)) && SameOutside(m, n, l.image, l.image + IMAGE_SIZE)
  {
    hide Stored, Programmed, WordsRead;
    SectorsStored(m, disk, l.sector, SECTORS, l.image);
    var n := Stored(m, disk, Programmed(l.sector, SECTORS), l.image, WordsRead(SECTORS));
    forall a: nat | l.image <= a < l.image + IMAGE_SIZE
      ensures n[a] == ImageFile(disk, l)[a - l.image]
    {
      assert n[a] == n[l.image..l.image + IMAGE_SIZE][a - l.image];
    }
  }

  method LoadImage(cpu: Machine, disk: seq<u8>, l: Layout, site: u32)
    requires cpu.Valid() && !cpu.mmu.paging && cpu.esp == l.stackTop && Fits(l, cpu.gdtBase)
    requires SECTOR * l.sector + IMAGE_SIZE <= |disk|
    modifies cpu.mem, cpu`eax, cpu`ebx, cpu`ecx, cpu`edx, cpu`esi, cpu`edi, cpu`esp, cpu`eip
    ensures Holds(cpu.Ram(), l.image, ImageFile(disk, l))
    ensures KeptOutsideBuffers(old(cpu.Ram()), cpu.Ram(), l)
    ensures cpu.esp == l.stackTop && cpu.eip == site
  {
    hide Dword, PutDword, Stored, Programmed, WordsRead;
    cpu.eax := l.sector;
    cpu.ebx := l.image;
    cpu.ecx := SECTORS;
    Call(cpu, site, l.stackTop);
    ghost var m := cpu.Ram();
    DwordAfterPut(old(cpu.Ram()), l.stackTop - 4, site);
    var _ := RdDiskM32(cpu, disk);
    ImageStored(m, disk, l);
    DwordElsewhere(m, cpu.Ram(), l.image, l.image + IMAGE_SIZE, l.stackTop - 4);
    Return(cpu, l.stackTop);
  }

  method BuildPages(cpu: Machine, l: Layout, site: u32, ghost file: seq<u8>)
    requires cpu.Valid() && !cpu.mmu.paging && cpu.esp == l.stackTop && Fits(l, cpu.gdtBase)
    requires |file| == IMAGE_SIZE && Holds(cpu.Ram(), l.image, file)
    modifies cpu.mem, cpu`eax, cpu`ebx, cpu`ecx, cpu`esi, cpu`esp, cpu`eip
    ensures Mapped(cpu.Ram(), l.pd) && Holds(cpu.Ram(), l.image, file)
    ensures KeptOutsideBuffers(old(cpu.Ram()), cpu.Ram(), l)
    ensures cpu.esp == l.stackTop && cpu.eip == site
  {
    hide Dword, PutDword, DirectoryBuilt, FirstTableBuilt;
    Call(cpu, site, l.stackTop);
    ghost var m := cpu.Ram();
    DwordAfterPut(old(cpu.Ram()), l.stackTop - 4, site);
    SetupPage(cpu, l.pd);
    DwordElsewhere(m, cpu.Ram(), 4096 * l.pd, 4096 * (l.pd + 1) + 1024, l.stackTop - 4);
    Return(cpu, l.stackTop);
  }

  /** The relocation touches only the GDT pointer and the video descriptor. */
  lemma RelocatedKept(m: Ram, l: Layout, limit: u16, gdtBase: u32, file: seq<u8>)
    requires Fits(l, gdtBase) && |file| == IMAGE_SIZE && Holds(m, l.image, file)
    ensures var n := Relocated(m, l.gdtPtr, limit, gdtBase);
            KeptOutsideDescriptors(m, n, l, gdtBase) && Holds(n, l.image, file)
  {
    hide Relocated, Dword;
    RelocatedMeans(m, l.gdtPtr, limit, gdtBase);
  }

  method EnterHigherHalf(cpu: Machine, l: Layout, ghost file: seq<u8>)
    requires cpu.Valid() && !cpu.mmu.paging && cpu.esp == l.stackTop && Fits(l, cpu.gdtBase)
    requires Mapped(cpu.Ram(), l.pd)
    requires |file| == IMAGE_SIZE && Holds(cpu.Ram(), l.image, file)
    modifies cpu.mem, cpu`eax, cpu`ebx, cpu`esp, cpu`mmu, cpu`gdtLimit, cpu`gdtBase
    ensures KernelPaging(cpu.Ram(), cpu.mmu, l.pd) && Holds(cpu.Ram(), l.image, file)
    ensures KeptOutsideDescriptors(old(cpu.Ram()), cpu.Ram(), l, old(cpu.gdtBase))
    ensures cpu.esp == HIGHER_HALF + l.stackTop
    ensures cpu.gdtBase == HIGHER_HALF + old(cpu.gdtBase) && cpu.gdtLimit == old(cpu.gdtLimit)
    ensures Dword(cpu.Ram(), old(cpu.gdtBase) + VIDEO_HIGH) ==
            Or32(old(Dword(cpu.Ram(), cpu.gdtBase + VIDEO_HIGH)), 0xC000_0000)
    ensures Word(cpu.Ram(), l.gdtPtr) == cpu.gdtLimit && Dword(cpu.Ram(), l.gdtPtr + 2) == cpu.gdtBase
  {
    hide Word, Relocated, Dword, DirectoryBuilt, FirstTableBuilt, Or32, Lin;
    ghost var m, limit, base := cpu.Ram(), cpu.gdtLimit, cpu.gdtBase;
    var _ := SwitchToHigherHalf(cpu, l.pd, l.gdtPtr);
    RelocatedMeans(m, l.gdtPtr, limit, base);
    RelocatedKept(m, l, limit, base, file);
  }

  /** Memory with the first n bytes of the banner in text memory. */
  ghost function Shown(m: Ram, video: nat, n: nat): Ram
    requires n <= |BANNER| && video + |BANNER| <= RAM_SIZE
  {
    m[..video] + BANNER[..n] + m[video + n..]
  }

  lemma ShownNext(m: Ram, video: nat, n: nat)
    requires n < |BANNER| && video + |BANNER| <= RAM_SIZE
    ensures Shown(m, video, n)[video + n := BANNER[n]] == Shown(m, video, n + 1)
  {
  }

  lemma ShownAll(m: Ram, video: nat)
    requires video + |BANNER| <= RAM_SIZE
    ensures Shown(m, video, 0) == m
    ensures var n := Shown(m, video, |BANNER|);
            && SameOutside(m, n, video, video + |BANNER|)
            && n[video..video + |BANNER|] == BANNER
  {
  }

  lemma ByteInLow(m: Ram, pd: nat, a: nat, b: u8)
    requires 256 <= pd && Mapped(m, pd) && a < MB
    ensures Store8(m, Mmu(true, pd), HIGHER_HALF + a, b) == Some(m[a := b])
    ensures Mapped(m[a := b], pd)
  {
    hide DirectoryBuilt, FirstTableBuilt, Lin, Store8;
    LowMegDenoted(m, pd);
    StoreDenoted(m, Mmu(true, pd), HIGHER_HALF, 0, MB, HIGHER_HALF + a, b);
    LowByte(m, m[a := b], pd, a, b);
  }

  /** mov byte [gs:n], b with the moved video segment in gs. */
  method TextByte(cpu: Machine, l: Layout, gs: u32, n: u32, b: u8, ghost m0: Ram)
    requires cpu.Valid() && KernelPaging(cpu.Ram(), cpu.mmu, l.pd) && n < |BANNER|
    requires l.video + |BANNER| <= MB && gs == HIGHER_HALF + l.video
    requires cpu.Ram() == Shown(m0, l.video, n) && b == BANNER[n]
    modifies cpu.mem
    ensures cpu.Ram() == Shown(m0, l.video, n + 1) && KernelPaging(cpu.Ram(), cpu.mmu, l.pd)
  {
    hide Mapped, Store8, Shown;
    AddExact(gs, n);
    ByteInLow(cpu.Ram(), l.pd, l.video + n, b);
    ShownNext(m0, l.video, n);
    var _ := cpu.Put8(Add32(gs, n), b);
  }

  /** mov gs, ax reads the base from the descriptor in the moved GDT; the
      stores through gs reach the text memory named before the move. */
  method ShowBanner(cpu: Machine, l: Layout, ghost gdtBase: u32)
    requires cpu.Valid() && Fits(l, gdtBase) && KernelPaging(cpu.Ram(), cpu.mmu, l.pd)
    requires cpu.gdtBase == HIGHER_HALF + gdtBase && VideoAt(cpu.Ram(), gdtBase, HIGHER_HALF + l.video)
    modifies cpu.mem, cpu`eax
    ensures cpu.Ram() == Shown(old(cpu.Ram()), l.video, |BANNER|) && KernelPaging(cpu.Ram(), cpu.mmu, l.pd)
  {
    hide Mapped, Dword, Shown, SegmentBase;
    ghost var m0 := cpu.Ram();
    cpu.eax := 0x18;
    var low := LoadLow(cpu, l.pd, cpu.gdtBase + cpu.eax, gdtBase + 0x18);
    var high := LoadLow(cpu, l.pd, cpu.gdtBase + cpu.eax + 4, gdtBase + VIDEO_HIGH);
    var gs := SegmentBase(low, high);
    ShownAll(m0, l.video);
    TextByte(cpu, l, gs, 0x00, 0x47, m0);
    TextByte(cpu, l, gs, 0x01, 0xA4, m0);
    TextByte(cpu, l, gs, 0x02, 0x65, m0);
    TextByte(cpu, l, gs, 0x03, 0xA4, m0);
    TextByte(cpu, l, gs, 0x04, 0x6e, m0);
    TextByte(cpu, l, gs, 0x05, 0xA4, m0);
    TextByte(cpu, l, gs, 0x06, 0x69, m0);
    TextByte(cpu, l, gs, 0x07, 0xA4, m0);
    TextByte(cpu, l, gs, 0x08, 0x75, m0);
    TextByte(cpu, l, gs, 0x09, 0xA4, m0);
    TextByte(cpu, l, gs, 0x0a, 0x73, m0);
    TextByte(cpu, l, gs, 0x0b, 0xA4, m0);
  }

  /** What kernel_init leaves, outside the loader's stack words. */
  ghost predicate KernelInPlace(m: Ram, n: Ram, file: seq<u8>, l: Layout)
    requires WellFormed(file, l.image)
  {
    && (forall j: nat :: j < PhNum(file) ==> Loaded(n, file, SegmentHeader(file, j)))
    && (forall a: nat :: a < RAM_SIZE && Uncovered(file, 0, a) && !(l.stackTop - 28 <= a < l.stackTop) ==> n[a] == m[a])
  }

  lemma LoadedOutsideStack(m: Ram, n: Ram, file: seq<u8>, h: Header, lo: nat, hi: nat)
    requires SameOutside(m, n, lo, hi) && hi <= LOW
    requires Accepted(h) ==> h.offset + h.filesz <= |file| && h.vaddr + h.filesz <= HIGHER_HALF + MB
    requires Loaded(m, file, h)
    ensures Loaded(n, file, h)
  {
  }

  /** Stated for the memory with the return address pushed, the memory the
      walk computes, and the memory after the routine. */
  lemma KernelPlaced(m: Ram, pushed: Ram, after: Ram, file: seq<u8>, l: Layout, gdtBase: u32)
    requires Fits(l, gdtBase) && WellFormed(file, l.image) && Holds(pushed, l.image, file)
    requires SameOutside(m, pushed, l.stackTop - 4, l.stackTop)
    requires LoadKernel(pushed, l.image).Done?
    requires SameOutside(after, LoadKernel(pushed, l.image).m, l.stackTop - 28, l.stackTop - 4)
    ensures KernelInPlace(m, after, file, l)
  {
    hide LoadKernel, Loaded, Covers, HeaderAt, Holds;
    KernelLoads(pushed, file, l.image);
    var r := LoadKernel(pushed, l.image).m;
    forall j: nat | j < PhNum(file)
      ensures Loaded(after, file, SegmentHeader(file, j))
    {
      assert HasHeader(file, j);
      assert WellFormedSegment(file, l.image, SegmentHeader(file, j));
      assert SameOutside(r, after, l.stackTop - 28, l.stackTop - 4);
      LoadedOutsideStack(r, after, file, SegmentHeader(file, j), l.stackTop - 28, l.stackTop - 4);
    }
  }

  /** Below the cutoff only stack words differ, above the low megabyte
      nothing. */
  ghost predicate LowKept(m: Ram, n: Ram, l: Layout)
  {
    forall a :: 0 <= a < RAM_SIZE && !(l.stackTop - 28 <= a < l.stackTop) && !(LOW <= a < MB) ==> n[a] == m[a]
  }

  lemma LowKeptByInit(m: Ram, pushed: Ram, n: Ram, l: Layout)
    requires SameOutside(m, pushed, l.stackTop - 4, l.stackTop) && Preserved(pushed, n, l.stackTop - 4)
    ensures LowKept(m, n, l)
  {
  }

  /** The invocation of kernel_init that the loader makes. */
  function InitCall(l: Layout, copySite: u32, ebp: u32): (c: Invocation)
    requires 28 <= l.stackTop <= LOW
    ensures c.Valid()
  {
    Invocation(l.image, copySite, l.stackTop - 4, ebp)
  }

  /** The call of kernel_init, for any image: the run it makes, which the loader
      survives, and which loads a well-formed image. */
  method LoadSegments(cpu: Machine, l: Layout, site: u32, copySite: u32, ghost gdtBase: u32, ghost file: seq<u8>)
    returns (o: Outcome)
    requires cpu.Valid() && Fits(l, gdtBase)
    requires KernelPaging(cpu.Ram(), cpu.mmu, l.pd) && cpu.esp == HIGHER_HALF + l.stackTop
    requires |file| == IMAGE_SIZE && Holds(cpu.Ram(), l.image, file)
    modifies cpu.mem, cpu`eax, cpu`ebx, cpu`ecx, cpu`edx, cpu`esi, cpu`edi, cpu`ebp, cpu`esp, cpu`eip
    ensures End(o, cpu.Ram()) ==
            KernelRun(PutDword(old(cpu.Ram()), l.stackTop - 4, site), cpu.mmu, InitCall(l, copySite, old(cpu.ebp)))
    ensures LowKept(old(cpu.Ram()), cpu.Ram(), l) && KernelPaging(cpu.Ram(), cpu.mmu, l.pd)
    ensures o.Returned? ==> cpu.eip == site
    ensures WellFormed(file, l.image) ==> o.Returned? && KernelInPlace(old(cpu.Ram()), cpu.Ram(), file, l)
  {
    hide Dword, PutDword, Mapped, LoadKernel, KernelInPlace, WellFormed, SomeStrays, SomeFaults, Preserved, LowKept;
    hide KernelRun, KernelTrace;
    ghost var m := cpu.Ram();
    PushLow(cpu, l.pd, l.stackTop - 4, site);
    ghost var pushed := cpu.Ram();
    DwordAfterPut(m, l.stackTop - 4, site);
    o := KernelInit(cpu, l.pd, l.image, copySite, l.stackTop - 4);
    LowKeptByInit(m, pushed, cpu.Ram(), l);
    if WellFormed(file, l.image) {
      KernelLoads(pushed, file, l.image);
      KernelPlaced(m, pushed, cpu.Ram(), file, l, gdtBase);
    }
  }

  // ----- The whole run -----

  predicate Written(l: Layout, gdtBase: u32, a: int)
  {
    || l.stackTop - 28 <= a < l.stackTop
    || Buffers(l, a) || Moved(l.gdtPtr, gdtBase, a) || Text(l, a)
  }

  /** The booted memory n against the memory m before: every accepted segment
      of the on-disk image stands in place; the video segment's base moved up;
      the banner stands where no segment covers it; everything that is neither
      a buffer, a relocated descriptor, text nor a byte of a segment is
      untouched. */
  ghost predicate Booted(m: Ram, n: Ram, file: seq<u8>, l: Layout, gdtBase: u32)
    requires Fits(l, gdtBase) && WellFormed(file, l.image)
  {
    && (forall j: nat :: j < PhNum(file) ==> Loaded(n, file, SegmentHeader(file, j)))
    && Dword(n, gdtBase + VIDEO_HIGH) == Or32(Dword(m, gdtBase + VIDEO_HIGH), 0xC000_0000)
    && (forall a: nat :: Text(l, a) && Uncovered(file, 0, a) ==> n[a] == BANNER[a - l.video])
    && (forall a: nat :: a < RAM_SIZE && !Written(l, gdtBase, a) && Uncovered(file, 0, a) ==> n[a] == m[a])
  }

  /** The loader's own memory: what lies below the cutoff, apart from its stack
      words, its GDT pointer and the video descriptor, and what lies above the
      low megabyte, apart from the page structures. */
  ghost predicate LoaderSurvives(m: Ram, n: Ram, l: Layout, gdtBase: u32)
  {
    forall a :: 0 <= a < RAM_SIZE && !(LOW <= a < MB) && !Written(l, gdtBase, a) ==> n[a] == m[a]
  }

  /** Memory n at the entry of kernel_init against the memory m before: the
      return address, the image, the page structures, the moved GDT pointer and
      descriptor, the banner, and every other byte as it was. */
  ghost predicate AtKernelInit(m: Ram, n: Ram, file: seq<u8>, l: Layout, limit: u16, gdtBase: u32, site: u32)
    requires Fits(l, gdtBase) && |file| == IMAGE_SIZE
  {
    && Dword(n, l.stackTop - 4) == site && Holds(n, l.image, file) && Mapped(n, l.pd)
    && Word(n, l.gdtPtr) == limit && Dword(n, l.gdtPtr + 2) == HIGHER_HALF + gdtBase
    && Dword(n, gdtBase + VIDEO_HIGH) == Or32(Dword(m, gdtBase + VIDEO_HIGH), 0xC000_0000)
    && n[l.video..l.video + |BANNER|] == BANNER
    && forall a :: 0 <= a < RAM_SIZE && !Buffers(l, a) && !Moved(l.gdtPtr, gdtBase, a) && !Text(l, a) ==> n[a] == m[a]
  }

  lemma SameWords(m: Ram, n: Ram, a: nat)
    requires a + 4 <= RAM_SIZE && forall i :: a <= i < a + 4 ==> n[i] == m[i]
    ensures Dword(n, a) == Dword(m, a) && Word(n, a) == Word(m, a)
  {
  }

  lemma EntryFromStages(m0: Ram, m1: Ram, m2: Ram, m3: Ram, m4: Ram, n: Ram, file: seq<u8>, l: Layout,
                        limit: u16, gdtBase: u32, site: u32)
    requires Fits(l, gdtBase) && |file| == IMAGE_SIZE
    requires KeptOutsideBuffers(m0, m1, l) && KeptOutsideBuffers(m1, m2, l)
    requires KeptOutsideDescriptors(m2, m3, l, gdtBase)
    requires Word(m3, l.gdtPtr) == limit && Dword(m3, l.gdtPtr + 2) == HIGHER_HALF + gdtBase
    requires Dword(m3, gdtBase + VIDEO_HIGH) == Or32(Dword(m2, gdtBase + VIDEO_HIGH), 0xC000_0000)
    requires m4 == Shown(m3, l.video, |BANNER|) && Mapped(m4, l.pd) && Holds(m4, l.image, file)
    requires n == PutDword(m4, l.stackTop - 4, site)
    ensures AtKernelInit(m0, n, file, l, limit, gdtBase, site)
  {
    hide Or32, Shown, PutDword, DirectoryBuilt, FirstTableBuilt, Dword, Word;
    var v := gdtBase + VIDEO_HIGH;
    ShownAll(m3, l.video);
    DwordAfterPut(m4, l.stackTop - 4, site);
    LowDword(m4, l.pd, l.stackTop - 4, site);
    SameWords(m0, m2, v);
    SameWords(m3, n, v);
    SameWords(m3, n, l.gdtPtr);
    SameWords(m3, n, l.gdtPtr + 2);
    assert n[l.video..l.video + |BANNER|] == m4[l.video..l.video + |BANNER|];
  }

  lemma SurvivesStages(m0: Ram, m1: Ram, m2: Ram, m3: Ram, m4: Ram, m5: Ram, l: Layout, gdtBase: u32)
    requires Fits(l, gdtBase)
    requires KeptOutsideBuffers(m0, m1, l) && KeptOutsideBuffers(m1, m2, l)
    requires KeptOutsideDescriptors(m2, m3, l, gdtBase)
    requires SameOutside(m3, m4, l.video, l.video + |BANNER|) && LowKept(m4, m5, l)
    ensures LoaderSurvives(m0, m5, l, gdtBase)
  {
  }

  lemma UncoveredLow(file: seq<u8>, image: nat, a: int)
    requires WellFormed(file, image) && a < LOW
    ensures Uncovered(file, 0, a)
  {
    hide HeaderAt;
  }

  lemma TextInPlace(m: Ram, n: Ram, file: seq<u8>, l: Layout, gdtBase: u32)
    requires Fits(l, gdtBase) && WellFormed(file, l.image) && KernelInPlace(m, n, file, l)
    requires m[l.video..l.video + |BANNER|] == BANNER
    ensures forall a: nat :: Text(l, a) && Uncovered(file, 0, a) ==> n[a] == BANNER[a - l.video]
  {
    hide WellFormedSegment, Uncovered, HeaderAt, Loaded;
    forall a: nat | Text(l, a) && Uncovered(file, 0, a)
      ensures n[a] == BANNER[a - l.video]
    {
      assert n[a] == m[a] == m[l.video..l.video + |BANNER|][a - l.video];
    }
  }

  lemma BootedFromStages(m0: Ram, m1: Ram, m2: Ram, m3: Ram, m4: Ram, m5: Ram, file: seq<u8>, l: Layout, gdtBase: u32)
    requires Fits(l, gdtBase) && WellFormed(file, l.image)
    requires KeptOutsideBuffers(m0, m1, l) && KeptOutsideBuffers(m1, m2, l)
    requires KeptOutsideDescriptors(m2, m3, l, gdtBase)
    requires Dword(m3, gdtBase + VIDEO_HIGH) == Or32(Dword(m2, gdtBase + VIDEO_HIGH), 0xC000_0000)
    requires m4 == Shown(m3, l.video, |BANNER|)
    requires KernelInPlace(m4, m5, file, l)
    ensures Booted(m0, m5, file, l, gdtBase)
  {
    hide WellFormed, Uncovered, Or32, HeaderAt, Loaded, FromBytes, Shown;
    var v := gdtBase + VIDEO_HIGH;
    ShownAll(m3, l.video);
    UncoveredLow(file, l.image, v);
    UncoveredLow(file, l.image, v + 1);
    UncoveredLow(file, l.image, v + 2);
    UncoveredLow(file, l.image, v + 3);
    assert Dword(m5, v) == Dword(m3, v);
    assert Dword(m2, v) == Dword(m0, v);
    TextInPlace(m4, m5, file, l, gdtBase);
  }

  /** The moved descriptor names the upper alias of the text memory. */
  lemma VideoMoved(m0: Ram, m1: Ram, m2: Ram, m3: Ram, l: Layout, gdtBase: u32)
    requires Fits(l, gdtBase) && VideoAt(m0, gdtBase, l.video)
    requires KeptOutsideBuffers(m0, m1, l) && KeptOutsideBuffers(m1, m2, l)
    requires KeptOutsideDescriptors(m2, m3, l, gdtBase)
    requires Dword(m3, gdtBase + VIDEO_HIGH) == Or32(Dword(m2, gdtBase + VIDEO_HIGH), 0xC000_0000)
    ensures VideoAt(m3, gdtBase, HIGHER_HALF + l.video)
  {
    hide Or32, SegmentBase, FromBytes;
    assert Dword(m3, gdtBase + 0x18) == Dword(m0, gdtBase + 0x18);
    assert Dword(m2, gdtBase + VIDEO_HIGH) == Dword(m0, gdtBase + VIDEO_HIGH);
    DescriptorOr(Dword(m0, gdtBase + 0x18), Dword(m0, gdtBase + VIDEO_HIGH), 0xC000_0000);
    OrTopBits(l.video, 0xC000_0000);
  }

  lemma ImageApartFromText(m: Ram, n: Ram, file: seq<u8>, l: Layout, gdtBase: u32)
    requires Fits(l, gdtBase) && |file| == IMAGE_SIZE && Holds(m, l.image, file)
    requires SameOutside(m, n, l.video, l.video + |BANNER|)
    ensures Holds(n, l.image, file)
  {
  }

  lemma EntryMapped(m: Ram, n: Ram, file: seq<u8>, l: Layout, limit: u16, gdtBase: u32, site: u32)
    requires Fits(l, gdtBase) && |file| == IMAGE_SIZE && AtKernelInit(m, n, file, l, limit, gdtBase, site)
    ensures Mapped(n, l.pd)
  {
  }

  /** p_mode_start to the jump into the kernel, for any disk and any memory the
      loader starts in: memory at the entry of kernel_init, and from there on
      the run that its table makes, with the outcome that its headers decide.
      However it ends, the loader's own memory survives; a well-formed image is
      booted. The four sites are the return addresses of its calls. */
  method BootKernel(cpu: Machine, disk: seq<u8>, l: Layout, readSite: u32, pageSite: u32, initSite: u32, copySite: u32)
    returns (o: Outcome, ghost entry: Ram)
    requires cpu.Valid() && !cpu.mmu.paging && Fits(l, cpu.gdtBase) && VideoAt(cpu.Ram(), cpu.gdtBase, l.video)
    requires SECTOR * l.sector + IMAGE_SIZE <= |disk|
    modifies cpu, cpu.mem
    ensures AtKernelInit(old(cpu.Ram()), entry, ImageFile(disk, l), l, cpu.gdtLimit, old(cpu.gdtBase), initSite)
    ensures End(o, cpu.Ram()) == KernelRun(entry, Mmu(true, l.pd), InitCall(l, copySite, old(cpu.ebp)))
    ensures var c := InitCall(l, copySite, old(cpu.ebp));
            var t := KernelTrace(entry, Mmu(true, l.pd), c);
            && (o.Strayed? <==> SomeStrays(t, Mmu(true, l.pd), c))
            && (o.Faulted? <==> SomeFaults(t, Mmu(true, l.pd), c))
    ensures LoaderSurvives(old(cpu.Ram()), cpu.Ram(), l, old(cpu.gdtBase))
    ensures KernelPaging(cpu.Ram(), cpu.mmu, l.pd)
    ensures cpu.gdtBase == HIGHER_HALF + old(cpu.gdtBase) && cpu.gdtLimit == old(cpu.gdtLimit)
    ensures o.Returned? ==> cpu.esp == KERNEL_STACK && cpu.eip == initSite
    ensures WellFormed(ImageFile(disk, l), l.image) ==>
              o.Returned? && Booted(old(cpu.Ram()), cpu.Ram(), ImageFile(disk, l), l, old(cpu.gdtBase))
  {
    hide Mapped, WellFormed, Holds, Dword, KeptOutsideBuffers, KeptOutsideDescriptors, KernelInPlace, Booted, Or32;
    hide Shown, VideoAt, LowKept, LoaderSurvives, SomeStrays, SomeFaults, SameOutside, KernelRun, KernelTrace, Word;
    hide AtKernelInit, PutDword, LoadKernel, Preserved;
    ghost var m0, gdtBase, file := cpu.Ram(), cpu.gdtBase, ImageFile(disk, l);
    cpu.esp := l.stackTop;
    LoadImage(cpu, disk, l, readSite);
    ghost var m1 := cpu.Ram();
    BuildPages(cpu, l, pageSite, file);
    ghost var m2 := cpu.Ram();
    EnterHigherHalf(cpu, l, file);
    ghost var m3 := cpu.Ram();
    VideoMoved(m0, m1, m2, m3, l, gdtBase);
    ShowBanner(cpu, l, gdtBase);
    ghost var m4 := cpu.Ram();
    ShownAll(m3, l.video);
    ImageApartFromText(m3, m4, file, l, gdtBase);
    entry := PutDword(m4, l.stackTop - 4, initSite);
    EntryFromStages(m0, m1, m2, m3, m4, entry, file, l, cpu.gdtLimit, gdtBase, initSite);
    EntryMapped(m0, entry, file, l, cpu.gdtLimit, gdtBase, initSite);
    KernelRunPromises(entry, l.pd, InitCall(l, copySite, cpu.ebp));
    o := LoadSegments(cpu, l, initSite, copySite, gdtBase, file);
    SurvivesStages(m0, m1, m2, m3, m4, cpu.Ram(), l, gdtBase);
    if WellFormed(file, l.image) {
      BootedFromStages(m0, m1, m2, m3, m4, cpu.Ram(), file, l, gdtBase);
    }
    if o.Returned? {
      cpu.esp := KERNEL_STACK;
    }
  }

  lemma SegmentByte(m: Ram, n: Ram, file: seq<u8>, l: Layout, gdtBase: u32, j: nat, x: nat)
    requires Fits(l, gdtBase) && WellFormed(file, l.image) && Booted(m, n, file, l, gdtBase) && j < PhNum(file)
    requires var h := SegmentHeader(file, j); Accepted(h) && x < h.filesz
    ensures HasHeader(file, j)
    ensures var h := SegmentHeader(file, j);
            && h.offset + x < |file| && HIGHER_HALF <= h.vaddr && h.vaddr + x < HIGHER_HALF + MB
            && n[h.vaddr - HIGHER_HALF + x] == file[h.offset + x]
  {
    hide HeaderAt, Uncovered, Written, Or32;
    var h := SegmentHeader(file, j);
    assert WellFormedSegment(file, l.image, h) && Loaded(n, file, h);
    var p: nat := h.vaddr - HIGHER_HALF + x;
    assert n[p] == file[h.offset + (p - (h.vaddr - HIGHER_HALF))];
  }

  /** Seen by the kernel: a load from any virtual address of a segment yields
      the byte the disk holds at its file offset. */
  lemma KernelSeesItsSegments(m: Ram, n: Ram, mmu: Mmu, disk: seq<u8>, l: Layout, gdtBase: u32, j: nat, x: nat)
    requires Fits(l, gdtBase) && SECTOR * l.sector + IMAGE_SIZE <= |disk|
    requires WellFormed(ImageFile(disk, l), l.image)
    requires Booted(m, n, ImageFile(disk, l), l, gdtBase) && KernelPaging(n, mmu, l.pd)
    requires j < PhNum(ImageFile(disk, l))
    requires var h := SegmentHeader(ImageFile(disk, l), j); Accepted(h) && x < h.filesz
    ensures var h := SegmentHeader(ImageFile(disk, l), j);
            && h.vaddr + x < RAM_SIZE && SECTOR * l.sector + h.offset + x < |disk|
            && Load8(n, mmu, h.vaddr + x) == Some(disk[SECTOR * l.sector + h.offset + x])
  {
    hide WellFormed, Booted, WellFormedSegment, Mapped, HeaderAt, Lin, Fits;
    var file := ImageFile(disk, l);
    SegmentByte(m, n, file, l, gdtBase, j, x);
    var h := SegmentHeader(file, j);
    LowMegDenoted(n, l.pd);
    LoadDenoted(n, mmu, HIGHER_HALF, 0, MB, h.vaddr + x);
  }

  /** The same from the words of the file alone: the segment of header j, at
      file offset a, is in place when its type is not 0 and its address is not
      below 0xC0001500. */
  lemma KernelSeesItsFile(m: Ram, n: Ram, mmu: Mmu, disk: seq<u8>, l: Layout, gdtBase: u32, file: seq<u8>, j: nat,
                          a: nat, x: nat)
    requires Fits(l, gdtBase) && 512 * l.sector + 102400 <= |disk|
    requires file == disk[512 * l.sector..512 * l.sector + 102400] && WellFormed(file, l.image)
    requires Booted(m, n, file, l, gdtBase) && KernelPaging(n, mmu, l.pd)
    requires j < Word(file, 44) && a == Dword(file, 28) + j * Word(file, 42)
    ensures a + 20 <= 102400
    ensures Dword(file, a) != 0 && Dword(file, a + 8) >= 0xC000_1500 && x < Dword(file, a + 16) ==>
              && Dword(file, a + 8) + x < RAM_SIZE && 512 * l.sector + Dword(file, a + 4) + x < |disk|
              && Load8(n, mmu, Dword(file, a + 8) + x) == Some(disk[512 * l.sector + Dword(file, a + 4) + x])
  {
    hide Dword, Word, Fits, Booted, KernelPaging, WellFormedSegment, Load8;
    TableInWords(file, j);
    assert HasHeader(file, j) && a == PhAddr(file, j);
    if Dword(file, a) != 0 && Dword(file, a + 8) >= 0xC000_1500 && x < Dword(file, a + 16) {
      KernelSeesItsSegments(m, n, mmu, disk, l, gdtBase, j, x);
    }
  }

  /** No other byte is copied: what lies in no segment of type other than 0 at
      0xC0001500 or above, and is no buffer, descriptor or text, is as before. */
  lemma OtherBytesKept(m: Ram, n: Ram, file: seq<u8>, l: Layout, gdtBase: u32, p: u32)
    requires Fits(l, gdtBase) && |file| >= 46 && WellFormed(file, l.image) && Booted(m, n, file, l, gdtBase)
    requires forall j: nat ::
               && j < Word(file, 44) && PhAddr(file, j) + 20 <= |file|
               && Dword(file, PhAddr(file, j)) != 0 && Dword(file, PhAddr(file, j) + 8) >= 0xC000_1500 ==>
               !(Dword(file, PhAddr(file, j) + 8) <= p + 0xC000_0000
                 < Dword(file, PhAddr(file, j) + 8) + Dword(file, PhAddr(file, j) + 16))
    ensures !Written(l, gdtBase, p) ==> n[p] == m[p]
    ensures Text(l, p) ==> n[p] == BANNER[p - l.video]
  {
    hide Or32, Loaded, WellFormed, Uncovered, HeaderAt, Word, FromBytes;
    UncoveredInWords(file, l.image, p);
  }

  /** The banner spells the name, each letter with attribute 0xA4. */
  lemma BannerSpells(i: nat)
    requires i < 6
    ensures |BANNER| == 12 && BANNER[2 * i] == "Genius"[i] as int && BANNER[2 * i + 1] == 0xA4
  {
  }

  /** Bytes of a small kernel image: one header, at offset 52, for a segment of
      100 bytes from offset 0 at 0xC0001500. */
  function SmallImageByte(i: nat): u8
  {
    if i == 28 then 52 else if i == 42 then 32 else if i == 44 then 1
    else if i == 52 then 1
    else if i == 61 then 0x15 else if i == 63 then 0xC0
    else if i == 68 then 100
    else 0
  }

  function SmallDiskByte(start: nat, i: nat): u8
  {
    if i < start then 0 else SmallImageByte(i - start)
  }

  ghost predicate IsSmallImage(file: seq<u8>)
  {
    |file| == IMAGE_SIZE && forall i :: 0 <= i < IMAGE_SIZE ==> file[i] == SmallImageByte(i)
  }

  lemma SmallImageAt(file: seq<u8>, a: nat, b0: u8, b1: u8, b2: u8, b3: u8)
    requires IsSmallImage(file) && a + 4 <= IMAGE_SIZE
    requires SmallImageByte(a) == b0 && SmallImageByte(a + 1) == b1
    requires SmallImageByte(a + 2) == b2 && SmallImageByte(a + 3) == b3
    ensures Dword(file, a) == b0 + 0x100 * b1 + 0x1_0000 * b2 + 0x100_0000 * b3
    ensures Word(file, a) == b0 + 0x100 * b1
  {
    hide SmallImageByte;
  }

  lemma SmallImageTable(file: seq<u8>)
    requires IsSmallImage(file)
    ensures Dword(file, 28) == 52 && Word(file, 44) == 1
  {
    hide Dword, Word, IsSmallImage;
    SmallImageAt(file, 28, 52, 0, 0, 0);
    SmallImageAt(file, 44, 1, 0, 0, 0);
  }

  lemma SmallImageSource(file: seq<u8>)
    requires IsSmallImage(file)
    ensures Dword(file, 52) == 1 && Dword(file, 56) == 0
  {
    hide Dword, Word, IsSmallImage;
    SmallImageAt(file, 52, 1, 0, 0, 0);
    SmallImageAt(file, 56, 0, 0, 0, 0);
  }

  lemma SmallImageTarget(file: seq<u8>)
    requires IsSmallImage(file)
    ensures Dword(file, 60) == 0xC000_1500 && Dword(file, 68) == 100
  {
    hide Dword, Word, IsSmallImage;
    SmallImageAt(file, 60, 0, 0x15, 0, 0xC0);
    SmallImageAt(file, 68, 100, 0, 0, 0);
  }

  /** There are disks to boot from, with a segment to load. */
  lemma BootableDiskExists() returns (disk: seq<u8>)
    ensures SECTOR * GENIUX.sector + IMAGE_SIZE <= |disk|
    ensures WellFormed(ImageFile(disk, GENIUX), GENIUX.image)
    ensures PhNum(ImageFile(disk, GENIUX)) == 1
    ensures SegmentHeader(ImageFile(disk, GENIUX), 0) == Header(1, 0, 0xC000_1500, 100)
  {
    hide Dword, Word, SmallImageByte;
    var start := SECTOR * GENIUX.sector;
    disk := seq(start + IMAGE_SIZE, i requires i >= 0 => SmallDiskByte(start, i));
    var file := ImageFile(disk, GENIUX);
    assert IsSmallImage(file);
    SmallImageTable(file);
    SmallImageSource(file);
    SmallImageTarget(file);
  }
}
