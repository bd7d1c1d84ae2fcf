/** The loader with its own constants, in plain numbers. */
module Geniux {
  import opened Words
  import opened PhysicalMemory
  import opened Paging
  import opened Cpu
  import opened KernelMap
  import opened HigherHalf
  import opened ElfImage
  import opened ElfLoader
  import opened Boot
  import FramePool

  /** The GDT that the loader holds names the text memory at 0xB8000, which is
      what its layout expects. */
  lemma OwnVideoDescriptor(m: Ram)
    requires Dword(m, 0x91B) == 0x8000_0007 && Dword(m, 0x91F) == 0x00C0_920B
    ensures Fits(GENIUX, 0x903) && VideoAt(m, 0x903, 0xB_8000)
  {
    hide Dword, SegmentBase;
    VideoDescriptor();
  }

  /** The kernel stack ends the page of the main thread's control block. */
  lemma Constants()
    ensures GENIUX == Layout(0x100, 0x7_0000, 6, 0x900, 0xB04, 0xB_8000)
    ensures IMAGE_SIZE == 102400 && KERNEL_STACK == 0xC009_F000 == FramePool.MAIN_THREAD + 0x1000
  {
  }

  /** What may differ after the boot, however it ends: stack words, GDT pointer
      and video descriptor, the low megabyte from 0x1500 on, and the page
      structures. */
  lemma SurvivesInNumbers(m: Ram, n: Ram, p: u32)
    requires LoaderSurvives(m, n, GENIUX, 0x903)
    requires !(0x8E4 <= p < 0x900) && !(0xB04 <= p < 0xB0A) && !(0x91F <= p < 0x923)
    requires !(0x1500 <= p < 0x10_0000) && !(0x10_0000 <= p < 0x10_1400)
    ensures n[p] == m[p]
  {
  }

  /** For a well-formed image nothing in the low megabyte but the image buffer,
      the text memory and the accepted segments; and the banner stands where no
      segment does. */
  lemma OtherBytesInNumbers(m: Ram, n: Ram, file: seq<u8>, p: u32)
    requires |file| == 102400 && Fits(GENIUX, 0x903) && WellFormed(file, 0x7_0000) && Booted(m, n, file, GENIUX, 0x903)
    requires forall j: nat ::
               && j < Word(file, 44) && PhAddr(file, j) + 20 <= |file|
               && Dword(file, PhAddr(file, j)) != 0 && Dword(file, PhAddr(file, j) + 8) >= 0xC000_1500 ==>
               !(Dword(file, PhAddr(file, j) + 8) <= p + 0xC000_0000
                 < Dword(file, PhAddr(file, j) + 8) + Dword(file, PhAddr(file, j) + 16))
    ensures 0xB_8000 <= p < 0xB_800C && p % 2 == 0 ==> n[p] == "Genius"[(p - 0xB_8000) / 2] as int
    ensures 0xB_8000 <= p < 0xB_800C && p % 2 == 1 ==> n[p] == 0xA4
    ensures || 0x8E4 <= p < 0x900 || 0xB04 <= p < 0xB0A || 0x91F <= p < 0x923 || 0x7_0000 <= p < 0x8_9000
            || 0xB_8000 <= p < 0xB_800C || 0x10_0000 <= p < 0x10_1400 || n[p] == m[p]
  {
    hide Booted, Dword, Word, WellFormed;
    OtherBytesKept(m, n, file, GENIUX, 0x903, p);
    if 0xB_8000 <= p < 0xB_800C {
      BannerSpells((p - 0xB_8000) / 2);
    }
  }

  lemma LowMegabyteTwice(m: Ram)
    requires Mapped(m, 0x100)
    ensures forall va: u32 :: va < 0x10_0000 ==>
              Translate(m, 0x100, va) == Some(va) == Translate(m, 0x100, va + 0xC000_0000)
  {
    hide Mapped, Translate;
    forall va: u32 | va < 0x10_0000
      ensures Translate(m, 0x100, va) == Some(va) == Translate(m, 0x100, va + 0xC000_0000)
    {
      DualMapping(m, 0x100, va);
    }
  }

  /** The program header at file offset a is copied, and p is one of its
      segment's addresses. */
  predicate InSegment(file: seq<u8>, a: nat, p: u32)
    requires |file| >= 46
  {
    && a + 20 <= |file| && Dword(file, a) != 0 && Dword(file, a + 8) >= 0xC000_1500
    && Dword(file, a + 8) <= p < Dword(file, a + 8) + Dword(file, a + 16)
  }

  /** The byte of the file that belongs at address p. */
  function FileOffset(file: seq<u8>, a: nat, p: u32): nat
    requires |file| >= 46 && InSegment(file, a, p)
  {
    Dword(file, a + 4) + (p - Dword(file, a + 8))
  }

  lemma FromFile(file: seq<u8>, h: Header)
    requires WellFormedSegment(file, 0x7_0000, h) && Accepted(h)
    ensures h.offset + h.filesz <= |file|
  {
  }

  lemma SegmentByteInPlace(m: Ram, n: Ram, disk: seq<u8>, file: seq<u8>, j: nat, p: u32)
    requires |disk| >= 105472 && file == disk[3072..105472] && WellFormed(file, 0x7_0000)
    requires Fits(GENIUX, 0x903) && Booted(m, n, file, GENIUX, 0x903) && KernelPaging(n, Mmu(true, 0x100), 0x100)
    requires j < Word(file, 44) && InSegment(file, PhAddr(file, j), p)
    ensures FileOffset(file, PhAddr(file, j), p) < 102400
    ensures Load8(n, Mmu(true, 0x100), p) == Some(disk[3072 + FileOffset(file, PhAddr(file, j), p)])
  {
    hide Dword, Word, Mapped, Booted, Load8, WellFormedSegment, HeaderAt;
    TableInWords(file, j);
    var a, h := PhAddr(file, j), SegmentHeader(file, j);
    assert HasHeader(file, j) && WellFormedSegment(file, 0x7_0000, h);
    FromFile(file, h);
    KernelSeesItsFile(m, n, Mmu(true, 0x100), disk, GENIUX, 0x903, file, j, a, p - Dword(file, a + 8));
  }

  lemma SegmentsInPlace(m: Ram, n: Ram, disk: seq<u8>, file: seq<u8>)
    requires |disk| >= 105472 && file == disk[3072..105472] && WellFormed(file, 0x7_0000)
    requires Fits(GENIUX, 0x903) && Booted(m, n, file, GENIUX, 0x903) && KernelPaging(n, Mmu(true, 0x100), 0x100)
    ensures forall j: nat, a: nat, p: u32 :: j < Word(file, 44) && a == PhAddr(file, j) && InSegment(file, a, p) ==>
              && FileOffset(file, a, p) < 102400
              && Load8(n, Mmu(true, 0x100), p) == Some(disk[3072 + FileOffset(file, a, p)])
  {
    hide Dword, Word, WellFormed, Mapped, Booted, Load8, InSegment, FileOffset;
    forall j: nat, a: nat, p: u32 | j < Word(file, 44) && a == PhAddr(file, j) && InSegment(file, a, p)
      ensures FileOffset(file, a, p) < 102400
      ensures Load8(n, Mmu(true, 0x100), p) == Some(disk[3072 + FileOffset(file, a, p)])
    {
      SegmentByteInPlace(m, n, disk, file, j, p);
    }
  }

  /** The boot with the loader's constants, its own GDT in memory and the image
      on the disk from byte 3072 on. */
  method BootGeniux(cpu: Machine, disk: seq<u8>, readSite: u32, pageSite: u32, initSite: u32, copySite: u32)
    returns (o: Outcome)
    requires cpu.Valid() && !cpu.mmu.paging && cpu.gdtBase == 0x903 && |disk| >= 105472
    requires Dword(cpu.Ram(), 0x91B) == 0x8000_0007 && Dword(cpu.Ram(), 0x91F) == 0x00C0_920B
    modifies cpu, cpu.mem
    ensures cpu.mmu == Mmu(true, 0x100) && cpu.gdtBase == 0xC000_0903
    ensures forall va: u32 :: va < 0x10_0000 ==>
              Translate(cpu.Ram(), 0x100, va) == Some(va) == Translate(cpu.Ram(), 0x100, va + 0xC000_0000)
    ensures forall p: u32 ::
              || 0x8E4 <= p < 0x900 || 0xB04 <= p < 0xB0A || 0x91F <= p < 0x923 || 0x1500 <= p < 0x10_0000
              || 0x10_0000 <= p < 0x10_1400 || cpu.Ram()[p] == old(cpu.Ram())[p]
    ensures o.Returned? ==> cpu.esp == 0xC009_F000
    ensures var file := disk[3072..105472];
            WellFormed(file, 0x7_0000) ==>
              && o.Returned? && Booted(old(cpu.Ram()), cpu.Ram(), file, GENIUX, 0x903)
              && forall j: nat, a: nat, p: u32 ::
                   j < Word(file, 44) && a == PhAddr(file, j) && InSegment(file, a, p) ==>
                   && FileOffset(file, a, p) < 102400
                   && Load8(cpu.Ram(), cpu.mmu, p) == Some(disk[3072 + FileOffset(file, a, p)])
  {
    hide Dword, Word, WellFormed, Mapped, Booted, AtKernelInit, LoaderSurvives, VideoAt, SomeStrays, SomeFaults;
    hide KernelRun, KernelTrace, Load8, Translate, InSegment, FileOffset;
    ghost var m, file := cpu.Ram(), disk[3072..105472];
    OwnVideoDescriptor(m);
    ghost var entry;
    o, entry := BootKernel(cpu, disk, GENIUX, readSite, pageSite, initSite, copySite);
    LowMegabyteTwice(cpu.Ram());
    forall p: u32 | !(0x8E4 <= p < 0x900) && !(0xB04 <= p < 0xB0A) && !(0x91F <= p < 0x923)
                    && !(0x1500 <= p < 0x10_0000) && !(0x10_0000 <= p < 0x10_1400)
      ensures cpu.Ram()[p] == m[p]
    {
      SurvivesInNumbers(m, cpu.Ram(), p);
    }
    if WellFormed(file, 0x7_0000) {
      SegmentsInPlace(m, cpu.Ram(), disk, file);
    }
  }
}
