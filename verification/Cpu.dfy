/** The processor state the loader works on: general registers, paging state,
    and a physical memory that every instruction reads and writes in place. */
module Cpu {
  import opened Words
  import opened PhysicalMemory
  import opened Paging

  /** A linear address that is not mapped stops the machine: the loader has no
      interrupt table that could handle a page fault. */
  datatype Status = Running | PageFault

  class Machine {
    const mem: array<u8>
    var eax: u32
    var ebx: u32
    var ecx: u32
    var edx: u32
    var esi: u32
    var edi: u32
    var ebp: u32
    var esp: u32
    /** Where the last ret went. */
    var eip: u32
    var mmu: Mmu
    /** The GDT register. */
    var gdtLimit: u16
    var gdtBase: u32

    predicate Valid() { mem.Length == RAM_SIZE }

    ghost function Ram(): Ram
      requires Valid()
      reads mem
    {
      mem[..]
    }

    constructor (physical: array<u8>)
      requires physical.Length == RAM_SIZE
      ensures Valid() && mem == physical && !mmu.paging
    {
      mem := physical;
      eax, ebx, ecx, edx, esi, edi, ebp, esp, eip := 0, 0, 0, 0, 0, 0, 0, 0, 0;
      mmu := Mmu(false, 0);
      gdtLimit, gdtBase := 0, 0;
    }

    // ----- Page walk over the memory in place -----

    method ReadEntry(f: Frame, i: nat) returns (e: u32)
      requires Valid() && i < 1024
      ensures e == Entry(Ram(), f, i)
    {
      var a := 4096 * f + 4 * i;
      e := FromBytes(mem[a], mem[a + 1], mem[a + 2], mem[a + 3]);
    }

    method Address(va: u32) returns (p: Option<u32>)
      requires Valid()
      ensures p == Lin(Ram(), mmu, va)
    {
      hide Entry;
      if !mmu.paging {
        return Some(va);
      }
      var pde := ReadEntry(mmu.cr3, PdIndex(va));
      if !Present(pde) {
        return None;
      }
      var pte := ReadEntry(FrameOf(pde), PtIndex(va));
      return if Present(pte) then Some(4096 * FrameOf(pte) + va % 0x1000) else None;
    }

    // ----- Loads and stores -----

    method Get8(va: u32) returns (s: Status, v: u8)
      requires Valid()
      ensures match Load8(Ram(), mmu, va)
              case None => s.PageFault?
              case Some(x) => s.Running? && v == x
    {
      v := 0;
      var p := Address(va);
      if p.None? { return PageFault, 0; }
      return Running, mem[p.value];
    }

    method Get16(va: u32) returns (s: Status, v: u32)
      requires Valid()
      ensures match Load16(Ram(), mmu, va)
              case None => s.PageFault?
              case Some(x) => s.Running? && v == x
    {
      var p0 := Address(va);
      var p1 := Address(Add32(va, 1));
      if p0.None? || p1.None? { return PageFault, 0; }
      return Running, FromBytes(mem[p0.value], mem[p1.value], 0, 0);
    }

    method Get32(va: u32) returns (s: Status, v: u32)
      requires Valid()
      ensures match Load32(Ram(), mmu, va)
              case None => s.PageFault?
              case Some(x) => s.Running? && v == x
    {
      hide Lin;
      var p0 := Address(va);
      var p1 := Address(Add32(va, 1));
      var p2 := Address(Add32(va, 2));
      var p3 := Address(Add32(va, 3));
      if p0.None? || p1.None? || p2.None? || p3.None? { return PageFault, 0; }
      return Running, FromBytes(mem[p0.value], mem[p1.value], mem[p2.value], mem[p3.value]);
    }

    method PutByte(p: u32, b: u8)
      requires Valid()
      modifies mem
      ensures Ram() == old(Ram())[p := b]
    {
      mem[p] := b;
    }

    method Put8(va: u32, b: u8) returns (s: Status)
      requires Valid()
      modifies mem
      ensures match Store8(old(Ram()), mmu, va, b)
              case None => s.PageFault? && Ram() == old(Ram())
              case Some(m) => s.Running? && Ram() == m
    {
      hide Lin;
      var p := Address(va);
      if p.None? { return PageFault; }
      PutByte(p.value, b);
      return Running;
    }

    method Put16(va: u32, v: u16) returns (s: Status)
      requires Valid()
      modifies mem
      ensures match Store16(old(Ram()), mmu, va, v)
              case None => s.PageFault? && Ram() == old(Ram())
              case Some(m) => s.Running? && Ram() == m
    {
      hide Lin;
      var p0 := Address(va);
      var p1 := Address(Add32(va, 1));
      if p0.None? || p1.None? { return PageFault; }
      PutByte(p0.value, v % 0x100);
      PutByte(p1.value, v / 0x100);
      return Running;
    }

    method Put32(va: u32, v: u32) returns (s: Status)
      requires Valid()
      modifies mem
      ensures match Store32(old(Ram()), mmu, va, v)
              case None => s.PageFault? && Ram() == old(Ram())
              case Some(m) => s.Running? && Ram() == m
    {
      hide Lin, Byte;
      var p0 := Address(va);
      var p1 := Address(Add32(va, 1));
      var p2 := Address(Add32(va, 2));
      var p3 := Address(Add32(va, 3));
      if p0.None? || p1.None? || p2.None? || p3.None? { return PageFault; }
      PutByte(p0.value, Byte(v, 0));
      PutByte(p1.value, Byte(v, 1));
      PutByte(p2.value, Byte(v, 2));
      PutByte(p3.value, Byte(v, 3));
      return Running;
    }

    // ----- The stack -----

    method Push(v: u32) returns (s: Status)
      requires Valid()
      modifies mem, `esp
      ensures match Store32(old(Ram()), mmu, Sub32(old(esp), 4), v)
              case None => s.PageFault? && Ram() == old(Ram()) && esp == old(esp)
              case Some(m) => s.Running? && Ram() == m && esp == Sub32(old(esp), 4)
    {
      s := Put32(Sub32(esp, 4), v);
      if s.Running? { esp := Sub32(esp, 4); }
    }

    method Pop() returns (s: Status, v: u32)
      requires Valid()
      modifies `esp
      ensures match Load32(Ram(), mmu, old(esp))
              case None => s.PageFault? && esp == old(esp)
              case Some(x) => s.Running? && v == x && esp == Add32(old(esp), 4)
    {
      s, v := Get32(esp);
      if s.Running? { esp := Add32(esp, 4); }
    }

    method Ret() returns (s: Status)
      requires Valid()
      modifies `esp, `eip
      ensures match Load32(Ram(), mmu, old(esp))
              case None => s.PageFault?
              case Some(x) => s.Running? && eip == x && esp == Add32(old(esp), 4)
    {
      var target;
      s, target := Pop();
      if s.Running? { eip := target; }
    }
  }
}
