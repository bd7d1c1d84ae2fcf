/** A machine with 32 MB right after the boot: where its first kernel page and
    its first user page come from. */
module FirstPages {
  import opened Words
  import opened PhysicalMemory
  import opened Paging
  import opened Cpu
  import opened KernelMap
  import opened PageTableOps
  import opened FramePool
  import opened AddressSpaces

  lemma NoBit(s: seq<u8>)
    requires |s| > 0 && s[0] == 0
    ensures !Taken(s, 0)
  {
  }

  /** A scan of an empty bitmap answers its first bit. */
  lemma FirstBit(before: seq<u8>, after: seq<u8>, len: nat, r: Scan)
    requires 0 < len < |before| == |after| && before[0] == 0 && Answered(before, after, len, 1, r)
    ensures r == At(0)
  {
    hide Taken;
    assert !Taken(before, 0) by { NoBit(before); }
    FirstFitOne(before, 8 * len, r);
  }

  /** A kernel page that was not mapped is refused for want of a frame only. */
  lemma StoppedForFrames(k: Kernel, k': Kernel, pd: nat, a: Allocators, base: u32, steps: seq<Step>)
    requires Inv(k, pd) && PallocRun(k, pd, steps, k') && PagesDone(k', base, steps, 0)
    requires HIGHER_HALF <= base < WINDOW && Translate(k.m, k.cr3, base) == None
    requires a.kernel.Valid() && a.user.Valid() && Stopped(k', a, false, base, |steps| == 0)
    ensures steps == [] && a.kernel.Full()
  {
    hide Inv, Translate, Entry, IssuedFrames;
    InvFrames(k, pd);
    TableBehind(k, pd, k.cr3, PdIndex(base));
    UnmappedFaults(k.m, k.cr3, base);
  }

  lemma FullMustHave(pool: Pool, f: Frame)
    requires pool.Valid() && pool.Full() && pool.Manages(f)
    ensures f in pool.Issued()
  {
  }

  lemma OneFrame(s: Step)
    requires s.Map?
    ensures DataFrames([s]) == {s.frame}
  {
    FramesOfOne(s);
  }

  /** The kernel's first page comes from its own pool and is that pool's first
      frame, 0x200, mapped at the start of the heap. */
  method FirstKernelPage(cpu: Machine, heapStart: u32, kernelBits: array<u8>, userBits: array<u8>, heapBits: array<u8>)
    returns (r: Option<u32>)
    requires cpu.Valid() && KernelPaging(cpu.Ram(), cpu.mmu, 0x100)
    requires kernelBits.Length > 0x1000 && userBits.Length > 0x1000 && heapBits.Length > 0x1000
    requires kernelBits != userBits && userBits != heapBits && kernelBits != heapBits
    requires cpu.mem !in {kernelBits, userBits, heapBits}
    requires heapStart % 0x1000 == 0 && 0xC000_0000 <= heapStart && heapStart + 0x1000 * 0xF01 <= 0xFFC0_0000
    requires Translate(cpu.Ram(), 0x100, heapStart) == None
    modifies cpu.mem, kernelBits, userBits, heapBits
    ensures r == Some(heapStart) && Translate(cpu.Ram(), cpu.mmu.cr3, heapStart) == Some(0x20_0000)
  {
    hide Inv, Private, Mapped, Translate, IssuedFrames, PallocRun, Stopped, PagesDone, Answered, Grown, LowestFirst;
    hide Tracks, DataFrames, TableFrames;
    PoolsInNumbers();
    ghost var k := AtBoot(cpu.Ram(), 0x100);
    var a, heap := StartPools(cpu, 0x200_0000, heapStart, kernelBits, userBits, heapBits);
    ghost var bits := heapBits[..];
    var scan;
    ghost var k', steps, done;
    r, scan, k', steps, done := MallocPage(cpu, 0x100, k, a, heap, false, 1);
    FirstBit(bits, heapBits[..], heap.bitmap.len, scan);
    ReadyMeans(cpu, k', 0x100, a);
    GrownMeans(a, false, {}, {}, a.kernel.Issued(), a.user.Issued(), steps);
    if done == 0 {
      StoppedForFrames(k, k', 0x100, a, heapStart, steps);
      FramesOfOne(Take(0));
      FullMustHave(a.kernel, 0x200);
    } else {
      assert steps == [steps[0]] && steps[..1] == steps;
      OneFrame(steps[0]);
      assert a.kernel.Manages(steps[0].frame) && a.kernel.Manages(0x200);
    }
  }

  /** The pools' first frames suffice for a user page and its table. */
  lemma CanMapFirst(k: Kernel, a: Allocators, va: u32)
    requires a.kernel.Valid() && a.user.Valid() && SelfMapped(k.m, k.cr3) && Translate(k.m, k.cr3, va) == None
    requires a.user.Available(0x1100) && a.kernel.Available(0x200)
    ensures CanMap(k, a, true, va)
  {
    hide Translate, SelfMapped, IssuedFrames;
    CanMapInWords(k, a, true, va);
  }

  /** A user page of the boot directory comes from the user pool and is that
      pool's first frame, 0x1100. */
  method FirstUserPage(cpu: Machine, va: u32, heapStart: u32, kernelBits: array<u8>, userBits: array<u8>,
                       heapBits: array<u8>)
    returns (mapped: bool)
    requires cpu.Valid() && KernelPaging(cpu.Ram(), cpu.mmu, 0x100)
    requires kernelBits.Length > 0x1000 && userBits.Length > 0x1000 && heapBits.Length > 0x1000
    requires kernelBits != userBits && userBits != heapBits && kernelBits != heapBits
    requires cpu.mem !in {kernelBits, userBits, heapBits}
    requires 0x40_0000 <= va < 0xC000_0000
    modifies cpu.mem, kernelBits, userBits, heapBits
    ensures mapped && Translate(cpu.Ram(), cpu.mmu.cr3, va) == Some(0x110_0000 + va % 0x1000)
  {
    hide Inv, Private, Mapped, Translate, IssuedFrames, PallocRun, Stopped, Grown, LowestFirst;
    hide DataFrames, TableFrames, SelfMapped, CanMap;
    PoolsInNumbers();
    ghost var k := AtBoot(cpu.Ram(), 0x100);
    UserHalfUnmapped(cpu.Ram(), 0x100, va);
    var a, heap := StartPools(cpu, 0x200_0000, heapStart, kernelBits, userBits, heapBits);
    InvFrames(k, 0x100);
    InvSelfMapped(k, 0x100, 0x100);
    CanMapFirst(k, a, va);
    ghost var k', steps;
    mapped, k', steps := MapPage(cpu, 0x100, k, a, true, va);
    GrownMeans(a, true, {}, {}, a.kernel.Issued(), a.user.Issued(), steps);
    assert steps == [steps[0]] && steps[..1] == steps;
    OneFrame(steps[0]);
    assert a.user.Manages(steps[0].frame) && a.user.Manages(0x1100);
  }
}
