/** The switch to the higher half: the GDT pointer, the video segment base and
    the stack pointer move up by 0xC0000000 and paging goes on. */
module HigherHalf {
  import opened Words
  import opened PhysicalMemory
  import opened Paging
  import opened Cpu
  import opened PageTables
  import opened KernelMap

  /** Offset of the high dword of the fourth descriptor, the video segment. */
  const VIDEO_HIGH: nat := 0x18 + 4

  const GDT_SIZE: nat := 0x20

  // ----- What relocation preserves -----

  /** The base address scattered over a segment descriptor. */
  function SegmentBase(low: u32, high: u32): u32
  {
    low / 0x1_0000 + 0x1_0000 * (high % 0x100) + 0x100_0000 * (high / 0x100_0000)
  }

  /** The two dwords of a segment descriptor (section 3.4.5 of the Intel SDM,
      Volume 3A) for a 20-bit limit, an access byte and four flags. */
  function DescriptorLow(base: u32, limit: nat): u32
    requires limit < 0x10_0000
  {
    limit % 0x1_0000 + 0x1_0000 * (base % 0x1_0000)
  }

  function HighDword(mid: u8, access: u8, limit: nat, flags: nat, top: u8): u32
    requires limit < 16 && flags < 16
  {
    mid + 0x100 * access + 0x1_0000 * limit + 0x10_0000 * flags + 0x100_0000 * top
  }

  function DescriptorHigh(base: u32, limit: nat, access: u8, flags: nat): u32
    requires limit < 0x10_0000 && flags < 16
  {
    HighDword(base / 0x1_0000 % 0x100, access, limit / 0x1_0000, flags, base / 0x100_0000)
  }

  lemma HighFields(mid: u8, access: u8, limit: nat, flags: nat, top: u8)
    requires limit < 16 && flags < 16
    ensures var high := HighDword(mid, access, limit, flags, top);
            high % 0x100 == mid && high / 0x100_0000 == top
  {
  }

  /** Decoding finds the base of every descriptor. */
  lemma DescriptorRoundTrip(base: u32, limit: nat, access: u8, flags: nat)
    requires limit < 0x10_0000 && flags < 16
    ensures SegmentBase(DescriptorLow(base, limit), DescriptorHigh(base, limit, access, flags)) == base
  {
    hide HighDword;
    var upper := base / 0x1_0000;
    assert DescriptorLow(base, limit) / 0x1_0000 == base % 0x1_0000;
    assert upper / 0x100 == base / 0x100_0000;
    HighFields(upper % 0x100, access, limit / 0x1_0000, flags, upper / 0x100);
  }

  lemma VideoDescriptorParts(base: u32, limit: nat)
    requires base == 0xB_8000 && limit == 7
    ensures DescriptorLow(base, limit) == 0x8000_0007 && DescriptorHigh(base, limit, 0x92, 12) == 0x00C0_920B
  {
    assert base % 0x1_0000 == 0x8000 && base / 0x1_0000 % 0x100 == 0xB && base / 0x100_0000 == 0;
    assert limit % 0x1_0000 == 7 && limit / 0x1_0000 == 0;
  }

  /** The loader's own video descriptor: text memory at 0xB8000. */
  lemma VideoDescriptor()
    ensures SegmentBase(0x8000_0007, 0x00C0_920B) == 0xB_8000
    ensures DescriptorLow(0xB_8000, 7) == 0x8000_0007 && DescriptorHigh(0xB_8000, 7, 0x92, 12) == 0x00C0_920B
  {
    VideoDescriptorParts(0xB_8000, 7);
    DescriptorRoundTrip(0xB_8000, 7, 0x92, 12);
  }

  /** An address of the low megabyte, moved up by add or by or, denotes the
      same physical byte. */
  lemma RelocatedAddress(m: Ram, pd: nat, p: u32, up: u32)
    requires Mapped(m, pd) && p < MB && up == 0xC000_0000
    ensures Or32(p, up) == Add32(p, up) == p + HIGHER_HALF
    ensures Translate(m, pd, Add32(p, up)) == Some(p) == Translate(m, pd, p)
  {
    hide Or32, Translate;
    OrTopBits(p, up);
    DualMapping(m, pd, p);
  }

  lemma TopByteSplit(rest: nat, top: u8)
    requires rest < 0x100_0000
    ensures (rest + 0x100_0000 * top) % 0x4000_0000 == rest + 0x100_0000 * (top % 0x40)
  {
    assert rest + 0x100_0000 * top == 0x4000_0000 * (top / 0x40) + (rest + 0x100_0000 * (top % 0x40));
  }

  lemma TopByteOr(rest: nat, top: u8, up: u32)
    requires rest < 0x100_0000 && up == 0xC000_0000
    ensures Or32(rest + 0x100_0000 * top, up) == rest + 0x100_0000 * (0xC0 + top % 0x40)
  {
    hide Or32;
    OrTopBits(rest + 0x100_0000 * top, up);
    TopByteSplit(rest, top);
  }

  lemma LowByteOfRest(rest: nat, top: u8)
    requires rest < 0x100_0000
    ensures (rest + 0x100_0000 * top) % 0x100 == rest % 0x100
    ensures (rest + 0x100_0000 * top) / 0x100_0000 == top
  {
  }

  /** Or-ing the descriptor's high dword or-s the decoded base, and touches
      neither the base's other bits nor the limit and access bits. */
  lemma DescriptorOr(low: u32, high: u32, up: u32)
    requires up == 0xC000_0000
    ensures SegmentBase(low, Or32(high, up)) == Or32(SegmentBase(low, high), up)
    ensures Or32(high, up) % 0x4000_0000 == high % 0x4000_0000
  {
    hide Or32;
    var top, rest := high / 0x100_0000, high % 0x100_0000;
    TopByteOr(rest, top, up);
    TopByteOr(low / 0x1_0000 + 0x1_0000 * (rest % 0x100), top, up);
    LowByteOfRest(rest, top);
    LowByteOfRest(rest, 0xC0 + top % 0x40);
    assert high % 0x4000_0000 == rest + 0x100_0000 * (top % 0x40) by { TopByteSplit(rest, top); }
    assert Or32(high, up) % 0x4000_0000 == rest + 0x100_0000 * (top % 0x40) by {
      TopByteSplit(rest, 0xC0 + top % 0x40);
    }
  }

  /** The segment still shows the same physical bytes: offset k of the moved
      segment is byte base + k. */
  lemma VideoSegmentPreserved(m: Ram, pd: nat, low: u32, high: u32, up: u32, k: nat)
    requires Mapped(m, pd) && up == 0xC000_0000
    requires SegmentBase(low, high) + k < MB
    ensures Translate(m, pd, Add32(SegmentBase(low, Or32(high, up)), k)) == Some(SegmentBase(low, high) + k)
  {
    hide Or32, Translate, SegmentBase;
    DescriptorOr(low, high, up);
    OrTopBits(SegmentBase(low, high), up);
    DualMapping(m, pd, SegmentBase(low, high) + k);
  }

  // ----- The code -----

  /** The memory after sgdt, the descriptor update and the pointer update. */
  function Relocated(m: Ram, gdtPtr: nat, limit: u16, base: u32): Ram
    requires gdtPtr + 6 <= MB && base + GDT_SIZE <= MB
  {
    var m1 := PutDword(PutWord(m, gdtPtr, limit), gdtPtr + 2, base);
    var m2 := PutDword(m1, base + VIDEO_HIGH, Or32(Dword(m1, base + VIDEO_HIGH), 0xC000_0000));
    PutDword(m2, gdtPtr + 2, Add32(Dword(m2, gdtPtr + 2), 0xC000_0000))
  }

  lemma WordValue(m: Ram, a: nat, v: u16)
    requires a + 2 <= RAM_SIZE
    ensures Word(PutWord(m, a, v), a) == v
    ensures forall b :: 0 <= b < RAM_SIZE && !(a <= b < a + 2) ==> PutWord(m, a, v)[b] == m[b]
  {
  }

  /** The bytes of the GDT pointer and of the video descriptor's high dword. */
  predicate Moved(gdtPtr: nat, base: u32, a: int)
  {
    gdtPtr <= a < gdtPtr + 6 || base + VIDEO_HIGH <= a < base + VIDEO_HIGH + 4
  }

  /** When the GDT and its pointer do not overlap, exactly the video segment's
      base and the pointer change. */
  lemma RelocatedMeans(m: Ram, gdtPtr: nat, limit: u16, base: u32)
    requires gdtPtr + 6 <= MB && base + GDT_SIZE <= MB
    requires gdtPtr + 6 <= base || base + GDT_SIZE <= gdtPtr
    ensures var n := Relocated(m, gdtPtr, limit, base);
            && Word(n, gdtPtr) == limit
            && Dword(n, gdtPtr + 2) == base + HIGHER_HALF
            && Dword(n, base + VIDEO_HIGH) == Or32(Dword(m, base + VIDEO_HIGH), 0xC000_0000)
            && forall a :: 0 <= a < RAM_SIZE && !Moved(gdtPtr, base, a) ==> n[a] == m[a]
  {
    hide Or32, PutDword, FromBytes;
    var m0 := PutWord(m, gdtPtr, limit);
    var m1 := PutDword(m0, gdtPtr + 2, base);
    DwordAfterPut(m0, gdtPtr + 2, base);
    var v := Or32(Dword(m1, base + VIDEO_HIGH), 0xC000_0000);
    var m2 := PutDword(m1, base + VIDEO_HIGH, v);
    DwordAfterPut(m1, base + VIDEO_HIGH, v);
    var w := Add32(Dword(m2, gdtPtr + 2), 0xC000_0000);
    DwordAfterPut(m2, gdtPtr + 2, w);
    WordValue(m, gdtPtr, limit);
  }

  /** or dword [address], v without paging. */
  method OrDword(cpu: Machine, address: u32, v: u32)
    requires cpu.Valid() && !cpu.mmu.paging && address + 4 <= RAM_SIZE
    modifies cpu.mem
    ensures cpu.Ram() == PutDword(old(cpu.Ram()), address, Or32(old(Dword(cpu.Ram(), address)), v))
  {
    hide Or32, PutDword, Dword, Lin, Load32, Store32;
    ghost var m := cpu.Ram();
    DenotesPhysical(m, cpu.mmu, address, 4);
    LoadDenoted(m, cpu.mmu, address, address, 4, address);
    var _, x := cpu.Get32(address);
    StoreDenoted(m, cpu.mmu, address, address, 4, address, Or32(x, v));
    var _ := cpu.Put32(address, Or32(x, v));
  }

  method AddDword(cpu: Machine, address: u32, v: u32)
    requires cpu.Valid() && !cpu.mmu.paging && address + 4 <= RAM_SIZE
    modifies cpu.mem
    ensures cpu.Ram() == PutDword(old(cpu.Ram()), address, Add32(old(Dword(cpu.Ram(), address)), v))
  {
    hide Add32, PutDword, Dword, Lin, Load32, Store32;
    ghost var m := cpu.Ram();
    DenotesPhysical(m, cpu.mmu, address, 4);
    LoadDenoted(m, cpu.mmu, address, address, 4, address);
    var _, x := cpu.Get32(address);
    StoreDenoted(m, cpu.mmu, address, address, 4, address, Add32(x, v));
    var _ := cpu.Put32(address, Add32(x, v));
  }

  /** sgdt [gdtPtr] without paging, then the base just stored back into ebx. */
  method StoreGdtr(cpu: Machine, gdtPtr: u32)
    requires cpu.Valid() && !cpu.mmu.paging && gdtPtr + 6 <= MB
    modifies cpu.mem, cpu`ebx
    ensures cpu.Ram() == PutDword(PutWord(old(cpu.Ram()), gdtPtr, cpu.gdtLimit), gdtPtr + 2, cpu.gdtBase)
    ensures cpu.ebx == cpu.gdtBase
  {
    hide PutDword, PutWord, Dword, Lin, Load32, Store32, Store16;
    DenotesPhysical(cpu.Ram(), cpu.mmu, gdtPtr, 6);
    StoreDenoted(cpu.Ram(), cpu.mmu, gdtPtr, gdtPtr, 6, gdtPtr, cpu.gdtLimit);
    var _ := cpu.Put16(gdtPtr, cpu.gdtLimit);
    ghost var m := cpu.Ram();
    DenotesPhysical(m, cpu.mmu, gdtPtr, 6);
    StoreDenoted(m, cpu.mmu, gdtPtr, gdtPtr, 6, gdtPtr + 2, cpu.gdtBase);
    var _ := cpu.Put32(gdtPtr + 2, cpu.gdtBase);
    DwordAfterPut(m, gdtPtr + 2, cpu.gdtBase);
    DenotesPhysical(cpu.Ram(), cpu.mmu, gdtPtr, 6);
    LoadDenoted(cpu.Ram(), cpu.mmu, gdtPtr, gdtPtr, 6, gdtPtr + 2);
    var _, b := cpu.Get32(gdtPtr + 2);
    cpu.ebx := b;
  }

  /** lgdt [gdtPtr], through whatever translation is in force. */
  method LoadGdtr(cpu: Machine, gdtPtr: u32) returns (s: Status)
    requires cpu.Valid() && gdtPtr + 6 <= RAM_SIZE
    modifies cpu`gdtLimit, cpu`gdtBase
    ensures match (Load16(cpu.Ram(), cpu.mmu, gdtPtr), Load32(cpu.Ram(), cpu.mmu, gdtPtr + 2))
            case (Some(l), Some(b)) => s.Running? && cpu.gdtLimit == l && cpu.gdtBase == b
            case _ => s.PageFault? && cpu.gdtLimit == old(cpu.gdtLimit) && cpu.gdtBase == old(cpu.gdtBase)
  {
    hide Load32, Lin;
    var l, b;
    s, l := cpu.Get16(gdtPtr);
    if s.PageFault? { return; }
    s, b := cpu.Get32(gdtPtr + 2);
    if s.PageFault? { return; }
    cpu.gdtLimit, cpu.gdtBase := l, b;
  }

  /** From sgdt to lgdt. Paging goes on over structures that map the low
      megabyte twice, the GDT and its pointer lie in that megabyte apart from
      each other, and the structures themselves lie above it. */
  method SwitchToHigherHalf(cpu: Machine, pd: nat, gdtPtr: u32) returns (s: Status)
    requires cpu.Valid() && !cpu.mmu.paging
    requires 256 <= pd && Placed(pd) && Mapped(cpu.Ram(), pd)
    requires gdtPtr + 6 <= MB && cpu.gdtBase + GDT_SIZE <= MB
    requires gdtPtr + 6 <= cpu.gdtBase || cpu.gdtBase + GDT_SIZE <= gdtPtr
    modifies cpu.mem, cpu`eax, cpu`ebx, cpu`esp, cpu`mmu, cpu`gdtLimit, cpu`gdtBase
    ensures s.Running?
    ensures cpu.Ram() == Relocated(old(cpu.Ram()), gdtPtr, old(cpu.gdtLimit), old(cpu.gdtBase))
    ensures cpu.mmu == Mmu(true, pd) && Mapped(cpu.Ram(), pd)
    ensures cpu.esp == Add32(old(cpu.esp), 0xC000_0000)
    ensures cpu.gdtLimit == old(cpu.gdtLimit) && cpu.gdtBase == old(cpu.gdtBase) + HIGHER_HALF
    ensures Denotes(cpu.Ram(), cpu.mmu, cpu.gdtBase, old(cpu.gdtBase), GDT_SIZE)
  {
    hide PutDword, PutWord, Dword, Or32, Load16, Load32, Mapped, Lin, Entry;
    ghost var before, limit, base := cpu.Ram(), cpu.gdtLimit, cpu.gdtBase;
    RelocatedMeans(before, gdtPtr, limit, base);
    StoreGdtr(cpu, gdtPtr);
    OrDword(cpu, cpu.ebx + 0x18 + 4, 0xC000_0000);
    AddDword(cpu, gdtPtr + 2, 0xC000_0000);
    cpu.esp := Add32(cpu.esp, 0xC000_0000);
    MappedBelow(before, cpu.Ram(), pd, MB);
    cpu.eax := 4096 * pd;
    cpu.mmu := Mmu(true, FrameOf(cpu.eax));
    LowMegDenoted(cpu.Ram(), pd);
    LoadDenoted(cpu.Ram(), cpu.mmu, 0, 0, MB, gdtPtr);
    LoadDenoted(cpu.Ram(), cpu.mmu, 0, 0, MB, gdtPtr + 2);
    s := LoadGdtr(cpu, gdtPtr);
  }
}
