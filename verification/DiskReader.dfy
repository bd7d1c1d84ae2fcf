/** rd_disk_m_32: programming the ATA command block for a 28-bit LBA read (READ
    SECTOR(S), command 20h of ATA/ATAPI-6) and storing the data words. */
module DiskReader {
  import opened Words
  import opened PhysicalMemory
  import opened Cpu

  const SECTOR: nat := 512

  // ----- The device -----

  /** The bytes last written to each port. */
  type Ports = map<u16, u8>

  /** The bytes in ports 0x1F2 .. 0x1F7. */
  datatype CommandBlock = CommandBlock(count: u8, low: u8, mid: u8, high: u8, device: u8, command: u8)

  /** How the drive decodes the command block. */
  function Lba28(t: CommandBlock): nat
  {
    t.low + 0x100 * t.mid + 0x1_0000 * t.high + 0x100_0000 * (t.device % 16)
  }

  predicate LbaMode(t: CommandBlock) { t.device / 64 % 2 == 1 }

  function SectorCount(t: CommandBlock): nat { if t.count == 0 then 256 else t.count }

  /** Byte k of the transfer: the disk's bytes from the first sector on; past
      the transfer or the disk the data port floats high. */
  function TransferByte(disk: seq<u8>, t: CommandBlock, k: nat): u8
  {
    var at := SECTOR * Lba28(t) + k;
    if k < SECTOR * SectorCount(t) && at < |disk| then disk[at] else 0xFF
  }

  // ----- Splitting the LBA over the registers -----

  lemma ShiftBy8(x: nat)
    ensures Shr(x, 8) == x / 0x100
  {
  }

  lemma ShiftBy4(x: nat)
    ensures Shl(x, 4) == 16 * x
  {
  }

  lemma DeviceNibble(x: u8)
    ensures BitAnd(x, 0x0f) == x % 16
    ensures BitOr(x % 16, 0xe0) == 0xe0 + x % 16
  {
    hide BitAnd, BitOr, Shl, LowBits;
    LowBitsSplit(x, 4);
    ShiftBy4(1);
    ShiftBy4(14);
    ShiftBy4(Shr(x, 4));
    BitAndLowMask(x, 4);
    BitOrDisjoint(14, x % 16, 4);
  }

  /** The command block the shifts and masks of the routine produce. */
  function Programmed(lba: u32, count: u32): CommandBlock
  {
    var mid := Shr(lba, 8);
    var high := Shr(mid, 8);
    var top := Shr(high, 8);
    ShiftBy8(lba);
    ShiftBy8(mid);
    ShiftBy8(high);
    DeviceNibble(Low8(top));
    CommandBlock(Low8(count), Low8(lba), Low8(mid), Low8(high),
             BitOr(BitAnd(Low8(top), 0x0f), 0xe0), 0x20)
  }

  lemma NibbleOfFourBytes(lba: u32, b1: nat, b2: nat, b3: nat)
    requires b1 == lba / 0x100 && b2 == b1 / 0x100 && b3 == b2 / 0x100
    ensures lba % 0x1000_0000 ==
            lba % 0x100 + 0x100 * (b1 % 0x100) + 0x1_0000 * (b2 % 0x100) + 0x100_0000 * (b3 % 16)
  {
    var low := lba % 0x100 + 0x100 * (b1 % 0x100) + 0x1_0000 * (b2 % 0x100);
    assert lba == low + 0x100_0000 * b3;
    assert lba == 0x1000_0000 * (b3 / 16) + (low + 0x100_0000 * (b3 % 16));
  }

  lemma ProgrammedFields(lba: u32, count: u32, b1: nat, b2: nat, b3: nat)
    requires b1 == lba / 0x100 && b2 == b1 / 0x100 && b3 == b2 / 0x100
    ensures Programmed(lba, count) ==
            CommandBlock(count % 0x100, lba % 0x100, b1 % 0x100, b2 % 0x100, 0xe0 + b3 % 16, 0x20)
  {
    hide BitAnd, BitOr, Shr;
    ShiftBy8(lba);
    ShiftBy8(b1);
    ShiftBy8(b2);
    DeviceNibble(Low8(b3));
    assert Low8(b3) == b3;
  }

  lemma NibbleFields(b3: nat)
    ensures (0xe0 + b3 % 16) % 16 == b3 % 16 && (0xe0 + b3 % 16) / 64 % 2 == 1 && (0xe0 + b3 % 16) / 16 == 0xe
  {
  }

  /** The drive recovers the LBA modulo 2^28, in LBA mode, for every LBA, and
      the low byte of the count, where 0 stands for 256; the command is a read. */
  lemma LbaRoundTrip(lba: u32, count: u32)
    ensures Lba28(Programmed(lba, count)) == lba % 0x1000_0000
    ensures LbaMode(Programmed(lba, count))
    ensures Programmed(lba, count).device / 16 == 0xe && Programmed(lba, count).command == 0x20
    ensures SectorCount(Programmed(lba, count)) == if count % 0x100 == 0 then 256 else count % 0x100
  {
    hide Programmed;
    var b1 := lba / 0x100;
    var b2 := b1 / 0x100;
    var b3 := b2 / 0x100;
    ProgrammedFields(lba, count, b1, b2, b3);
    NibbleOfFourBytes(lba, b1, b2, b3);
    NibbleFields(b3);
  }

  // ----- How many words are read -----

  /** ecx when the read loop starts: only the low half receives the product. */
  function LoopCounter(ecx: u32): u32
  {
    SetLow16(ecx, Low16(ecx) * 256 % 0x1_0000)
  }

  /** Words the loop moves for the sector count in ecx. */
  function WordsRead(ecx: u32): nat { LoopCount(LoopCounter(ecx), 0x1_0000_0000) }

  /** The loop moves exactly the requested sectors if and only if there are
      between 1 and 255 of them. */
  lemma ReadsRequestedSectors(ecx: u32)
    ensures 2 * WordsRead(ecx) == SECTOR * ecx <==> 1 <= ecx <= 255
  {
    var h := ecx / 0x1_0000;
    var c := ecx % 0x1_0000;
    assert LoopCounter(ecx) == 0x1_0000 * h + c * 256 % 0x1_0000;
    if h == 0 && c >= 256 {
      assert c * 256 % 0x1_0000 < 0x1_0000 <= 256 * c;
    }
  }

  /** 256 sectors, the count the drive encodes as 0, is the first that fails:
      the counter starts at 0 and the loop runs 2^32 times. */
  lemma SectorCount256Wraps()
    ensures WordsRead(256) == 0x1_0000_0000
  {
  }

  // ----- The words in memory -----

  /** The memory after w words of the transfer were stored from base on. */
  ghost function Stored(m: Ram, disk: seq<u8>, t: CommandBlock, base: u32, w: nat): Ram
  {
    if w == 0 then m
    else
      var a := (base + 2 * (w - 1)) % RAM_SIZE;
      Stored(m, disk, t, base, w - 1)
      [a := TransferByte(disk, t, 2 * (w - 1))]
      [Add32(a, 1) := TransferByte(disk, t, 2 * (w - 1) + 1)]
  }

  lemma StoredNothing(m: Ram, disk: seq<u8>, t: CommandBlock, base: u32)
    ensures Stored(m, disk, t, base, 0) == m
  {
  }

  lemma StoredNext(m: Ram, disk: seq<u8>, t: CommandBlock, base: u32, w: nat)
    requires base + 2 * w + 2 <= RAM_SIZE
    ensures Stored(m, disk, t, base, w + 1) ==
            Stored(m, disk, t, base, w)
            [base + 2 * w := TransferByte(disk, t, 2 * w)]
            [base + 2 * w + 1 := TransferByte(disk, t, 2 * w + 1)]
  {
    hide TransferByte, Add32;
    var a := base + 2 * w;
    assert a % RAM_SIZE == a;
    AddExact(a, 1);
  }

  /** Without address wrap-around the transfer lands in one consecutive block
      and nothing else changes. */
  lemma {:induction false} StoredBlock(m: Ram, disk: seq<u8>, t: CommandBlock, base: u32, w: nat)
    requires base + 2 * w <= RAM_SIZE
    ensures forall k: nat :: k < 2 * w ==> Stored(m, disk, t, base, w)[base + k] == TransferByte(disk, t, k)
    ensures SameOutside(m, Stored(m, disk, t, base, w), base, base + 2 * w)
  {
    hide TransferByte, Stored;
    if w == 0 {
      StoredNothing(m, disk, t, base);
    } else {
      StoredBlock(m, disk, t, base, w - 1);
      StoredNext(m, disk, t, base, w - 1);
    }
  }

  /** 1 to 255 sectors: the whole transfer, from the drive's sectors to the
      buffer, and nothing else. */
  lemma SectorsStored(m: Ram, disk: seq<u8>, lba: u32, count: nat, base: u32)
    requires 1 <= count <= 255 && lba < 0x1000_0000
    requires base + SECTOR * count <= RAM_SIZE && SECTOR * (lba + count) <= |disk|
    ensures var n := Stored(m, disk, Programmed(lba, count), base, WordsRead(count));
            && n[base..base + SECTOR * count] == disk[SECTOR * lba..SECTOR * (lba + count)]
            && SameOutside(m, n, base, base + SECTOR * count)
  {
    hide Stored, Programmed, WordsRead;
    ReadsRequestedSectors(count);
    LbaRoundTrip(lba, count);
    var t := Programmed(lba, count);
    StoredBlock(m, disk, t, base, WordsRead(count));
    var n := Stored(m, disk, t, base, WordsRead(count));
    var buffer, source := n[base..base + SECTOR * count], disk[SECTOR * lba..SECTOR * (lba + count)];
    forall k: nat | k < SECTOR * count
      ensures buffer[k] == source[k]
    {
      assert n[base + k] == TransferByte(disk, t, k);
    }
  }

  // ----- The code -----

  lemma HighHalf(r: u32, s: u32)
    requires r / 0x100 == s / 0x100
    ensures r / 0x1_0000 == s / 0x1_0000
  {
    assert r / 0x1_0000 == r / 0x100 / 0x100;
  }

  lemma LowOfLow(r: u32, v: u8)
    ensures Low8(SetLow16(r, v)) == v
  {
    assert r - r % 0x1_0000 == 0x100 * (0x100 * (r / 0x1_0000));
  }

  lemma PortNumbers(dx: u32)
    ensures Low16(SetLow16(dx, 0x1F2)) == 0x1F2 && Low16(SetLow16(dx, 0x1F3)) == 0x1F3
    ensures Low16(SetLow16(dx, 0x1F4)) == 0x1F4 && Low16(SetLow16(dx, 0x1F5)) == 0x1F5
    ensures Low16(SetLow16(dx, 0x1F6)) == 0x1F6 && Low16(SetLow16(dx, 0x1F7)) == 0x1F7
  {
  }

  lemma PortBytes(lba: u32, count: u32)
    ensures Programmed(lba, count) ==
            CommandBlock(count % 0x100, lba % 0x100, lba / 0x100 % 0x100, lba / 0x100 / 0x100 % 0x100,
                         0xe0 + lba / 0x100 / 0x100 / 0x100 % 16, 0x20)
  {
    hide Programmed;
    ProgrammedFields(lba, count, lba / 0x100, lba / 0x100 / 0x100, lba / 0x100 / 0x100 / 0x100);
  }

  lemma ProgrammedSteps(lba: u32, count: u32)
    ensures var top := Shr(Shr(Shr(lba, 8), 8), 8);
            Programmed(lba, count) ==
            CommandBlock(Low8(count), Low8(lba), Low8(Shr(lba, 8)), Low8(Shr(Shr(lba, 8), 8)),
                         BitOr(BitAnd(Low8(top), 0x0f), 0xe0), 0x20)
  {
  }

  /** Everything up to the read command: the count goes to di, the LBA is
      shifted through al. */
  method WriteCommandBlock(cpu: Machine) returns (block: CommandBlock, ports: Ports)
    modifies cpu`eax, cpu`ecx, cpu`edx, cpu`esi, cpu`edi
    ensures var lba := old(cpu.eax);
            ports == map[0x1F2 := old(cpu.ecx) % 0x100, 0x1F3 := lba % 0x100, 0x1F4 := lba / 0x100 % 0x100,
                         0x1F5 := lba / 0x100 / 0x100 % 0x100, 0x1F6 := 0xe0 + lba / 0x100 / 0x100 / 0x100 % 16,
                         0x1F7 := 0x20]
    ensures block == Programmed(old(cpu.eax), old(cpu.ecx))
    ensures Lba28(block) == old(cpu.eax) % 0x1000_0000 && LbaMode(block)
    ensures Low16(cpu.edi) == Low16(old(cpu.ecx))
    ensures cpu.ecx / 0x1_0000 == old(cpu.ecx) / 0x1_0000
  {
    hide BitAnd, BitOr, Shr, SetLow8, SetLow16, Low16, Low8, Lba28, LbaMode, SectorCount, Programmed;
    PortBytes(cpu.eax, cpu.ecx);
    ProgrammedSteps(cpu.eax, cpu.ecx);
    LbaRoundTrip(cpu.eax, cpu.ecx);
    cpu.esi := cpu.eax;
    PartialWrites(cpu.edi, Low16(cpu.ecx), 0);
    cpu.edi := SetLow16(cpu.edi, Low16(cpu.ecx));

    ports := map[];
    PortNumbers(cpu.edx);
    cpu.edx := SetLow16(cpu.edx, 0x1F2);
    PartialWrites(cpu.eax, 0, Low8(cpu.ecx));
    cpu.eax := SetLow8(cpu.eax, Low8(cpu.ecx));
    ports := ports[Low16(cpu.edx) := Low8(cpu.eax)];
    cpu.eax := cpu.esi;

    PartialWrites(cpu.ecx, 0, 8);
    HighHalf(cpu.ecx, SetLow8(cpu.ecx, 8));
    cpu.ecx := SetLow8(cpu.ecx, 8);
    PortNumbers(cpu.edx);
    cpu.edx := SetLow16(cpu.edx, 0x1F3);
    ports := ports[Low16(cpu.edx) := Low8(cpu.eax)];
    PortNumbers(cpu.edx);
    cpu.edx := SetLow16(cpu.edx, 0x1F4);
    ShiftBy8(cpu.eax);
    cpu.eax := Shr(cpu.eax, Low8(cpu.ecx));
    ports := ports[Low16(cpu.edx) := Low8(cpu.eax)];
    PortNumbers(cpu.edx);
    cpu.edx := SetLow16(cpu.edx, 0x1F5);
    ShiftBy8(cpu.eax);
    cpu.eax := Shr(cpu.eax, Low8(cpu.ecx));
    ports := ports[Low16(cpu.edx) := Low8(cpu.eax)];

    ShiftBy8(cpu.eax);
    cpu.eax := Shr(cpu.eax, Low8(cpu.ecx));
    DeviceNibble(Low8(cpu.eax));
    PartialWrites(cpu.eax, 0, BitAnd(Low8(cpu.eax), 0x0f));
    cpu.eax := SetLow8(cpu.eax, BitAnd(Low8(cpu.eax), 0x0f));
    PartialWrites(cpu.eax, 0, BitOr(Low8(cpu.eax), 0xe0));
    cpu.eax := SetLow8(cpu.eax, BitOr(Low8(cpu.eax), 0xe0));
    PortNumbers(cpu.edx);
    cpu.edx := SetLow16(cpu.edx, 0x1F6);
    ports := ports[Low16(cpu.edx) := Low8(cpu.eax)];

    PortNumbers(cpu.edx);
    cpu.edx := SetLow16(cpu.edx, 0x1F7);
    LowOfLow(cpu.eax, 0x20);
    cpu.eax := SetLow16(cpu.eax, 0x20);
    ports := ports[Low16(cpu.edx) := Low8(cpu.eax)];
    block := CommandBlock(ports[0x1F2], ports[0x1F3], ports[0x1F4], ports[0x1F5], ports[0x1F6], ports[0x1F7]);

    // The status poll ends with al masked down to the DRQ bit.
    cpu.eax := SetLow8(cpu.eax, 0x08);
  }

  /** mul dx and the two moves around it: the word count reaches cx only. */
  method StartLoop(cpu: Machine, ghost count: u32)
    requires Low16(cpu.edi) == Low16(count) && cpu.ecx / 0x1_0000 == count / 0x1_0000
    modifies cpu`eax, cpu`ecx, cpu`edx
    ensures cpu.ecx == LoopCounter(count)
  {
    hide SetLow16, Low16;
    PartialWrites(cpu.eax, Low16(cpu.edi), 0);
    PartialWrites(cpu.edx, 256, 0);
    cpu.eax := SetLow16(cpu.eax, Low16(cpu.edi));
    cpu.edx := SetLow16(cpu.edx, 256);
    var product := Low16(cpu.eax) * Low16(cpu.edx);
    PartialWrites(cpu.eax, product % 0x1_0000, 0);
    cpu.eax := SetLow16(cpu.eax, product % 0x1_0000);
    cpu.edx := SetLow16(cpu.edx, product / 0x1_0000);
    SameHighHalf(cpu.ecx, count, product % 0x1_0000);
    cpu.ecx := SetLow16(cpu.ecx, Low16(cpu.eax));
    cpu.edx := SetLow16(cpu.edx, 0x1F0);
  }

  lemma NextAddress(base: u32, done: nat)
    ensures Add32((base + 2 * done) % RAM_SIZE, 2) == (base + 2 * (done + 1)) % RAM_SIZE
  {
    var x := base + 2 * done;
    assert x == RAM_SIZE * (x / RAM_SIZE) + x % RAM_SIZE;
  }

  function TwoBytes(b0: u8, b1: u8): (w: u16)
    ensures w % 0x100 == b0 && w / 0x100 == b1
  {
    FromBytes(b0, b1, 0, 0)
  }

  /** in ax,dx and mov [ebx],ax for word number done of the transfer. */
  method ReadWord(cpu: Machine, disk: seq<u8>, block: CommandBlock, done: nat, ghost before: Ram, ghost base: u32)
    requires cpu.Valid() && !cpu.mmu.paging
    requires cpu.ebx == (base + 2 * done) % RAM_SIZE
    requires cpu.Ram() == Stored(before, disk, block, base, done)
    modifies cpu.mem, cpu`eax
    ensures cpu.Ram() == Stored(before, disk, block, base, done + 1)
  {
    hide TransferByte, Low16, SetLow16, Add32;
    var word := TwoBytes(TransferByte(disk, block, 2 * done), TransferByte(disk, block, 2 * done + 1));
    PartialWrites(cpu.eax, word, 0);
    cpu.eax := SetLow16(cpu.eax, word);
    var _ := cpu.Put16(cpu.ebx, Low16(cpu.eax));
  }

  method ReadLoop(cpu: Machine, disk: seq<u8>, block: CommandBlock)
    requires cpu.Valid() && !cpu.mmu.paging
    modifies cpu.mem, cpu`eax, cpu`ebx, cpu`ecx
    ensures cpu.Ram() == Stored(old(cpu.Ram()), disk, block, old(cpu.ebx), LoopCount(old(cpu.ecx), 0x1_0000_0000))
  {
    hide Stored, Add32;
    StoredNothing(cpu.Ram(), disk, block, cpu.ebx);
    var done: nat := 0;
    ghost var total := LoopCount(cpu.ecx, 0x1_0000_0000);
    while true
      invariant done < total
      invariant cpu.ecx == if done == 0 then old(cpu.ecx) else total - done
      invariant cpu.ebx == (old(cpu.ebx) + 2 * done) % RAM_SIZE
      invariant cpu.Ram() == Stored(old(cpu.Ram()), disk, block, old(cpu.ebx), done)
      decreases total - done
    {
      ReadWord(cpu, disk, block, done, old(cpu.Ram()), old(cpu.ebx));
      NextAddress(old(cpu.ebx), done);
      cpu.ebx := Add32(cpu.ebx, 2);
      done := done + 1;
      cpu.ecx := Sub32(cpu.ecx, 1);
      if cpu.ecx == 0 { break; }
    }
  }

  method RdDiskM32(cpu: Machine, disk: seq<u8>) returns (block: CommandBlock)
    requires cpu.Valid() && !cpu.mmu.paging
    modifies cpu.mem, cpu`eax, cpu`ebx, cpu`ecx, cpu`edx, cpu`esi, cpu`edi
    ensures block == Programmed(old(cpu.eax), old(cpu.ecx))
    ensures cpu.Ram() == Stored(old(cpu.Ram()), disk, block, old(cpu.ebx), WordsRead(old(cpu.ecx)))
    ensures var lba, count, base := old(cpu.eax), old(cpu.ecx), old(cpu.ebx);
            1 <= count <= 255 && lba < 0x1000_0000 && base + 512 * count <= RAM_SIZE
            && 512 * (lba + count) <= |disk| ==>
              && cpu.Ram()[base..base + 512 * count] == disk[512 * lba..512 * (lba + count)]
              && forall a :: 0 <= a < RAM_SIZE && !(base <= a < base + 512 * count) ==>
                   cpu.Ram()[a] == old(cpu.Ram())[a]
  {
    hide TransferByte, Programmed, Low16, Stored, LoopCounter;
    ghost var m, lba, base := cpu.Ram(), cpu.eax, cpu.ebx;
    ghost var count := cpu.ecx;
    var ports;
    block, ports := WriteCommandBlock(cpu);
    StartLoop(cpu, count);
    ReadLoop(cpu, disk, block);
    if 1 <= count <= 255 && lba < 0x1000_0000 && base + 512 * count <= RAM_SIZE && 512 * (lba + count) <= |disk| {
      SectorsStored(m, disk, lba, count, base);
    }
  }
}
