/** The real-mode memory probe: collecting the E820 address ranges (section
    15.1 of the ACPI specification), scanning them for the greatest end, and
    the E801 fallback. */
module MemoryProbe {
  import opened Words
  import opened PhysicalMemory
  import opened Paging
  import opened Cpu

  const ENTRY: nat := 20
  const BUFFER: nat := 244

  /** One answer of int 0x15, function 0xE820: the carry flag, the bytes stored
      at es:di, whose number it leaves in ecx, and the continuation value in
      ebx. */
  datatype Reply = Reply(carry: bool, entry: seq<u8>, next: u32)

  /** A BIOS that stops at the last reply. */
  ghost predicate Script(replies: seq<Reply>)
  {
    && |replies| > 0
    && (forall i :: 0 <= i < |replies| - 1 ==> !replies[i].carry && replies[i].next != 0)
    && (replies[|replies| - 1].carry || replies[|replies| - 1].next == 0)
  }

  /** Address ranges have 20 bytes each, the size the loader asks for. */
  ghost predicate Ranges(entries: seq<seq<u8>>)
  {
    forall i :: 0 <= i < |entries| ==> |entries[i]| == ENTRY
  }

  ghost function Entries(replies: seq<Reply>): (e: seq<seq<u8>>)
    ensures |e| == |replies|
  {
    seq(|replies|, i requires 0 <= i < |replies| => replies[i].entry)
  }

  /** The ranges delivered before the replies end, in carry or in ebx = 0. */
  ghost function Delivered(replies: seq<Reply>): seq<seq<u8>>
    requires Script(replies)
  {
    if replies[|replies| - 1].carry then Entries(replies[..|replies| - 1]) else Entries(replies)
  }

  /** These are the entries of all replies without carry, in order, the last
      one included whose continuation value is 0. */
  lemma DeliveredAre(replies: seq<Reply>)
    requires Script(replies)
    ensures forall i :: 0 <= i < |replies| && !replies[i].carry ==>
              i < |Delivered(replies)| && Delivered(replies)[i] == replies[i].entry
    ensures forall i :: 0 <= i < |Delivered(replies)| ==> i < |replies| && !replies[i].carry
  {
  }

  // ----- Collecting -----

  function PutBytes(m: Ram, a: nat, b: seq<u8>): Ram
    requires a + |b| <= RAM_SIZE
  {
    m[..a] + b + m[a + |b|..]
  }

  function IncWord(m: Ram, a: nat): Ram
    requires a + 2 <= RAM_SIZE
  {
    PutWord(m, a, (Word(m, a) + 1) % 0x1_0000)
  }

  /** How many bytes the entries have together. */
  ghost function Total(entries: seq<seq<u8>>): nat
  {
    if entries == [] then 0
    else Total(entries[..|entries| - 1]) + |entries[|entries| - 1]|
  }

  lemma {:induction false} TotalOfRanges(entries: seq<seq<u8>>)
    requires Ranges(entries)
    ensures Total(entries) == ENTRY * |entries|
  {
    if entries != [] { TotalOfRanges(entries[..|entries| - 1]); }
  }

  lemma {:induction false} TotalOfPrefix(entries: seq<seq<u8>>, k: nat)
    requires k <= |entries|
    ensures Total(entries[..k]) <= Total(entries)
    decreases |entries|
  {
    if k == |entries| {
      assert entries[..k] == entries;
    } else {
      TotalOfPrefix(entries[..|entries| - 1], k);
      assert entries[..|entries| - 1][..k] == entries[..k];
    }
  }

  /** Memory after the entries were stored one behind the other and counted in
      the word that follows the 244-byte buffer. */
  ghost function Collected(m: Ram, buf: nat, entries: seq<seq<u8>>): Ram
    requires buf + BUFFER + 2 <= RAM_SIZE && buf + Total(entries) <= RAM_SIZE
  {
    if entries == [] then m
    else
      var k := |entries| - 1;
      IncWord(PutBytes(Collected(m, buf, entries[..k]), buf + Total(entries[..k]), entries[k]), buf + BUFFER)
  }

  /** The scan will read back the ranges that were delivered, and their number. */
  ghost predicate ReadsBack(m: Ram, buf: nat, entries: seq<seq<u8>>)
    requires Ranges(entries) && buf + BUFFER + 2 <= RAM_SIZE && buf + ENTRY * |entries| <= RAM_SIZE
  {
    && Word(m, buf + BUFFER) == |entries|
    && forall i :: 0 <= i < |entries| ==> m[buf + ENTRY * i..buf + ENTRY * (i + 1)] == entries[i]
  }

  lemma IncWordValue(m: Ram, a: nat)
    requires a + 2 <= RAM_SIZE
    ensures Word(IncWord(m, a), a) == (Word(m, a) + 1) % 0x1_0000
    ensures SameOutside(m, IncWord(m, a), a, a + 2)
  {
    assert Word(m, a) < 0x1_0000;
  }

  lemma PutBytesValue(m: Ram, a: nat, b: seq<u8>)
    requires a + |b| <= RAM_SIZE
    ensures PutBytes(m, a, b)[a..a + |b|] == b
    ensures SameOutside(m, PutBytes(m, a, b), a, a + |b|)
  {
  }

  lemma SliceElsewhere(m: Ram, n: Ram, lo: int, hi: int, a: nat, b: nat)
    requires SameOutside(m, n, lo, hi) && a <= b <= RAM_SIZE && (b <= lo || hi <= a)
    ensures m[a..b] == n[a..b]
  {
  }

  lemma WordElsewhere(m: Ram, n: Ram, lo: int, hi: int, a: nat)
    requires SameOutside(m, n, lo, hi) && a + 2 <= RAM_SIZE && (a + 2 <= lo || hi <= a)
    ensures Word(m, a) == Word(n, a)
  {
  }

  lemma CollectNext(prev: Ram, buf: nat, entries: seq<seq<u8>>)
    requires Ranges(entries) && buf + BUFFER + 2 <= RAM_SIZE && 0 < |entries| <= 12
    requires ReadsBack(prev, buf, entries[..|entries| - 1])
    ensures var k := |entries| - 1;
            var n := IncWord(PutBytes(prev, buf + ENTRY * k, entries[k]), buf + BUFFER);
            ReadsBack(n, buf, entries) && SameOutside(prev, n, buf, buf + BUFFER + 2)
  {
    hide PutBytes, IncWord, Word, SameOutside;
    var k := |entries| - 1;
    var a := buf + ENTRY * k;
    var put := PutBytes(prev, a, entries[k]);
    var n := IncWord(put, buf + BUFFER);
    PutBytesValue(prev, a, entries[k]);
    IncWordValue(put, buf + BUFFER);
    WordElsewhere(prev, put, a, a + ENTRY, buf + BUFFER);
    forall i | 0 <= i < |entries|
      ensures n[buf + ENTRY * i..buf + ENTRY * (i + 1)] == entries[i]
    {
      SliceElsewhere(put, n, buf + BUFFER, buf + BUFFER + 2, buf + ENTRY * i, buf + ENTRY * (i + 1));
      if i < k {
        SliceElsewhere(prev, put, a, a + ENTRY, buf + ENTRY * i, buf + ENTRY * (i + 1));
        assert entries[..k][i] == entries[i];
      }
    }
    SameOutsideItself(prev, buf, buf + BUFFER + 2);
    SameOutsideTransitive(prev, prev, put, buf, buf + BUFFER + 2, a, a + ENTRY);
    SameOutsideTransitive(prev, put, n, buf, buf + BUFFER + 2, buf + BUFFER, buf + BUFFER + 2);
  }

  /** Up to twelve ranges fill the buffer in order and stay clear of the count. */
  lemma {:induction false} CollectedReadsBack(m: Ram, buf: nat, entries: seq<seq<u8>>)
    requires Ranges(entries) && buf + BUFFER + 2 <= RAM_SIZE
    requires |entries| <= 12 && Word(m, buf + BUFFER) == 0
    ensures Total(entries) == ENTRY * |entries|
    ensures ReadsBack(Collected(m, buf, entries), buf, entries)
    ensures SameOutside(m, Collected(m, buf, entries), buf, buf + BUFFER + 2)
  {
    hide PutBytes, IncWord, Word;
    TotalOfRanges(entries);
    if entries != [] {
      var k := |entries| - 1;
      TotalOfRanges(entries[..k]);
      var prev := Collected(m, buf, entries[..k]);
      CollectedReadsBack(m, buf, entries[..k]);
      CollectNext(prev, buf, entries);
      SameOutsideTransitive(m, prev, Collected(m, buf, entries), buf, buf + BUFFER + 2, buf, buf + BUFFER + 2);
    } else {
      assert Collected(m, buf, entries) == m;
    }
  }

  lemma WordOfEntry(m: Ram, a: nat, e: seq<u8>)
    requires |e| == ENTRY && a + ENTRY <= RAM_SIZE
    ensures m[a..a + ENTRY] == e ==> Word(m, a + 4) == FromBytes(e[4], e[5], 0, 0)
  {
    if m[a..a + ENTRY] == e {
      assert m[a + 4] == e[4] && m[a + 5] == e[5];
    }
  }

  lemma ThirteenthEntry(put: Ram, buf: nat, e: seq<u8>)
    requires |e| == ENTRY && buf + ENTRY * 12 + ENTRY <= RAM_SIZE
    requires put[buf + ENTRY * 12..buf + ENTRY * 12 + ENTRY] == e
    ensures IncWord(put, buf + BUFFER)[buf + ENTRY * 12..buf + ENTRY * 12 + ENTRY] != e
  {
    hide IncWord;
    var n := IncWord(put, buf + BUFFER);
    IncWordValue(put, buf + BUFFER);
    WordOfEntry(put, buf + ENTRY * 12, e);
    WordOfEntry(n, buf + ENTRY * 12, e);
  }

  /** The same, at the offsets the scan uses. */
  lemma CollectedInNumbers(m: Ram, buf: nat, entries: seq<seq<u8>>)
    requires Ranges(entries) && buf + 246 <= RAM_SIZE && |entries| <= 12 && Word(m, buf + 244) == 0
    ensures Total(entries) == 20 * |entries|
    ensures var n := Collected(m, buf, entries);
            && Word(n, buf + 244) == |entries|
            && (forall i, j :: 0 <= i < |entries| && 0 <= j < 20 ==> n[buf + 20 * i + j] == entries[i][j])
            && forall a: nat :: a < RAM_SIZE && !(buf <= a < buf + 246) ==> n[a] == m[a]
  {
    hide Word, Collected;
    CollectedReadsBack(m, buf, entries);
    var n := Collected(m, buf, entries);
    forall i, j | 0 <= i < |entries| && 0 <= j < 20
      ensures n[buf + 20 * i + j] == entries[i][j]
    {
      assert n[buf + ENTRY * i..buf + ENTRY * (i + 1)][j] == entries[i][j];
    }
  }

  /** The thirteenth range covers the count word; counting it then changes the
      range, whatever the ranges hold. So the probe reads back what it was
      given exactly up to twelve ranges. (From the fourteenth on the ranges
      overwrite the instructions of the loop itself.) */
  lemma CollectionCapacity(m: Ram, buf: nat, entries: seq<seq<u8>>)
    requires Ranges(entries) && buf + BUFFER + 2 + ENTRY <= RAM_SIZE
    requires |entries| <= 13 && Word(m, buf + BUFFER) == 0
    ensures Total(entries) == ENTRY * |entries|
    ensures ReadsBack(Collected(m, buf, entries), buf, entries) <==> |entries| <= 12
  {
    hide IncWord, PutBytes, Word, SameOutside;
    TotalOfRanges(entries);
    if |entries| <= 12 {
      CollectedReadsBack(m, buf, entries);
    } else {
      TotalOfRanges(entries[..12]);
      var put := PutBytes(Collected(m, buf, entries[..12]), buf + ENTRY * 12, entries[12]);
      PutBytesValue(Collected(m, buf, entries[..12]), buf + ENTRY * 12, entries[12]);
      ThirteenthEntry(put, buf, entries[12]);
      assert ENTRY * (12 + 1) == ENTRY * 12 + ENTRY;
    }
  }

  // ----- Scanning -----

  /** The sum the scan compares for the range at a: low dwords only. */
  function LowEnd(m: seq<u8>, a: nat): u32
    requires a + ENTRY <= |m|
  {
    Add32(Dword(m, a), Dword(m, a + 8))
  }

  function ScanMax(m: Ram, buf: nat, n: nat): u32
    requires buf + ENTRY * n <= RAM_SIZE
  {
    if n == 0 then 0
    else
      var best := ScanMax(m, buf, n - 1);
      var e := LowEnd(m, buf + ENTRY * (n - 1));
      if Signed(best) >= Signed(e) then best else e
  }

  /** The scan finds the signed maximum of 0 and all the sums, and it is one of
      them or 0. */
  lemma {:induction false} ScanIsMaximum(m: Ram, buf: nat, n: nat)
    requires buf + ENTRY * n <= RAM_SIZE
    ensures var r := ScanMax(m, buf, n);
            && r < 0x8000_0000
            && (forall i: nat :: i < n ==> Signed(LowEnd(m, buf + ENTRY * i)) <= r)
            && (r == 0 || exists i: nat :: i < n && LowEnd(m, buf + ENTRY * i) == r)
  {
    hide LowEnd;
    if n > 0 {
      ScanIsMaximum(m, buf, n - 1);
      assert LowEnd(m, buf + ENTRY * (n - 1)) == LowEnd(m, buf + ENTRY * (n - 1));
    }
  }

  /** The end of a range by its full 64-bit base and length. */
  function TrueEnd(e: seq<u8>): nat
    requires |e| == ENTRY
  {
    Dword(e, 0) + 0x1_0000_0000 * Dword(e, 4) + Dword(e, 8) + 0x1_0000_0000 * Dword(e, 12)
  }

  ghost function GreatestEnd(entries: seq<seq<u8>>): nat
    requires Ranges(entries)
  {
    if entries == [] then 0
    else
      var rest := GreatestEnd(entries[..|entries| - 1]);
      var e := TrueEnd(entries[|entries| - 1]);
      if e > rest then e else rest
  }

  /** It is the greatest of the 64-bit ends, and one of them. */
  lemma {:induction false} GreatestEndIsGreatest(entries: seq<seq<u8>>)
    requires Ranges(entries)
    ensures forall i :: 0 <= i < |entries| ==>
              Dword(entries[i], 0) + 0x1_0000_0000 * Dword(entries[i], 4)
              + Dword(entries[i], 8) + 0x1_0000_0000 * Dword(entries[i], 12) <= GreatestEnd(entries)
    ensures entries != [] ==> exists i :: 0 <= i < |entries| && TrueEnd(entries[i]) == GreatestEnd(entries)
  {
    hide Dword;
    if entries != [] {
      var k := |entries| - 1;
      var rest := entries[..k];
      GreatestEndIsGreatest(rest);
      assert forall i :: 0 <= i < k ==> rest[i] == entries[i];
      if GreatestEnd(entries) != TrueEnd(entries[k]) && rest != [] {
        var i :| 0 <= i < |rest| && TrueEnd(rest[i]) == GreatestEnd(rest);
        assert TrueEnd(entries[i]) == GreatestEnd(entries);
      }
    }
  }

  lemma SliceLowEnd(m: Ram, a: nat, e: seq<u8>)
    requires a + ENTRY <= RAM_SIZE && |e| == ENTRY && m[a..a + ENTRY] == e
    ensures LowEnd(m, a) == Add32(Dword(e, 0), Dword(e, 8))
    ensures TrueEnd(e) < 0x8000_0000 ==> LowEnd(m, a) == TrueEnd(e)
  {
    hide FromBytes;
    assert forall i :: a <= i < a + ENTRY ==> m[i] == e[i - a];
    assert Dword(m, a) == Dword(e, 0) && Dword(m, a + 8) == Dword(e, 8);
  }

  /** What the probe reports is the greatest end of any reported range exactly
      when every range ends below 2 GB. */
  lemma {:induction false} ScanIsExact(m: Ram, buf: nat, entries: seq<seq<u8>>)
    requires Ranges(entries) && buf + ENTRY * |entries| <= RAM_SIZE
    requires forall i :: 0 <= i < |entries| ==> m[buf + ENTRY * i..buf + ENTRY * (i + 1)] == entries[i]
    ensures ScanMax(m, buf, |entries|) == GreatestEnd(entries) <==> GreatestEnd(entries) < 0x8000_0000
  {
    hide LowEnd, TrueEnd;
    ScanIsMaximum(m, buf, |entries|);
    if entries != [] && GreatestEnd(entries) < 0x8000_0000 {
      var k := |entries| - 1;
      assert forall i :: 0 <= i < k ==> entries[..k][i] == entries[i];
      ScanIsExact(m, buf, entries[..k]);
      SliceLowEnd(m, buf + ENTRY * k, entries[k]);
    }
  }

  /** A range from 1 MB to 2 GB. */
  const UP_TO_2GB: seq<u8> := [0, 0, 0x10, 0, 0, 0, 0, 0, 0, 0, 0xF0, 0x7F, 0, 0, 0, 0, 1, 0, 0, 0]

  lemma DwordOf(m: seq<u8>, a: nat, b0: u8, b1: u8, b2: u8, b3: u8)
    requires a + 4 <= |m| && m[a] == b0 && m[a + 1] == b1 && m[a + 2] == b2 && m[a + 3] == b3
    ensures Dword(m, a) == b0 + 0x100 * b1 + 0x1_0000 * b2 + 0x100_0000 * b3
  {
  }

  lemma RangeUpTo2GB()
    ensures Dword(UP_TO_2GB, 0) == 0x10_0000 && Dword(UP_TO_2GB, 4) == 0
    ensures Dword(UP_TO_2GB, 8) == 0x7FF0_0000 && Dword(UP_TO_2GB, 12) == 0
  {
    hide Dword;
    DwordOf(UP_TO_2GB, 0, 0, 0, 0x10, 0);
    DwordOf(UP_TO_2GB, 4, 0, 0, 0, 0);
    DwordOf(UP_TO_2GB, 8, 0, 0, 0xF0, 0x7F);
    DwordOf(UP_TO_2GB, 12, 0, 0, 0, 0);
  }

  lemma ScanOfNone(m: Ram, buf: nat)
    requires buf <= RAM_SIZE
    ensures ScanMax(m, buf, 0) == 0
  {
  }

  /** Its end counts as negative, and the scan answers 0. */
  lemma TwoGigabytesScanAsNone(m: Ram, buf: nat)
    requires buf + ENTRY <= RAM_SIZE && m[buf..buf + ENTRY] == UP_TO_2GB
    ensures GreatestEnd([UP_TO_2GB]) == 0x8000_0000 && ScanMax(m, buf, 1) == 0
  {
    hide Dword, LowEnd;
    RangeUpTo2GB();
    SliceLowEnd(m, buf, UP_TO_2GB);
    assert [UP_TO_2GB][..0] == [];
    ScanOfNone(m, buf);
  }

  // ----- The code -----

  lemma PutNextByte(m: Ram, at: nat, b: seq<u8>, i: nat)
    requires i < |b| && at + |b| <= RAM_SIZE
    ensures PutBytes(m, at, b[..i])[at + i := b[i]] == PutBytes(m, at, b[..i + 1])
  {
  }

  /** int 0x15 stores its entry at es:di (es is 0). */
  method StoreRange(cpu: Machine, at: nat, entry: seq<u8>)
    requires cpu.Valid() && at + |entry| <= RAM_SIZE
    modifies cpu.mem
    ensures cpu.Ram() == PutBytes(old(cpu.Ram()), at, entry)
  {
    for i := 0 to |entry|
      invariant cpu.Ram() == PutBytes(old(cpu.Ram()), at, entry[..i])
    {
      PutNextByte(old(cpu.Ram()), at, entry, i);
      cpu.PutByte(at + i, entry[i]);
    }
    assert entry[..|entry|] == entry;
  }

  /** inc word [a] */
  method IncWordAt(cpu: Machine, a: nat)
    requires cpu.Valid() && !cpu.mmu.paging && a + 2 <= RAM_SIZE
    modifies cpu.mem
    ensures cpu.Ram() == IncWord(old(cpu.Ram()), a)
  {
    hide Word, PutWord, Lin, Load16, Store16;
    DenotesPhysical(cpu.Ram(), cpu.mmu, a, 2);
    LoadDenoted(cpu.Ram(), cpu.mmu, a, a, 2, a);
    var _, w := cpu.Get16(a);
    WordBound(cpu.Ram(), a);
    StoreDenoted(cpu.Ram(), cpu.mmu, a, a, 2, a, (w + 1) % 0x1_0000);
    var _ := cpu.Put16(a, (w + 1) % 0x1_0000);
  }

  lemma LowOfSmall(x: u16)
    ensures Low16(x) == x
  {
  }

  /** A pass without carry: the entry is stored, di and ards_nr advance. */
  method TakeEntry(cpu: Machine, buf: u16, reply: Reply, ghost at: nat)
    requires cpu.Valid() && !cpu.mmu.paging && Low16(cpu.edi) == at
    requires at + |reply.entry| < 0x1_0000 && buf + BUFFER + 2 <= 0x1_0000
    modifies cpu.mem, cpu`ebx, cpu`ecx, cpu`edi
    ensures cpu.Ram() == IncWord(PutBytes(old(cpu.Ram()), at, reply.entry), buf + BUFFER)
    ensures Low16(cpu.edi) == at + |reply.entry| && cpu.ebx == reply.next
  {
    hide IncWord, PutBytes, SetLow16, Low16;
    StoreRange(cpu, Low16(cpu.edi), reply.entry);
    cpu.ebx := reply.next;
    cpu.ecx := |reply.entry|;
    LowOfSmall(|reply.entry|);
    var di := (Low16(cpu.edi) + Low16(cpu.ecx)) % 0x1_0000;
    PartialWrites(cpu.edi, di, 0);
    cpu.edi := SetLow16(cpu.edi, di);
    IncWordAt(cpu, buf + BUFFER);
  }

  lemma NextCollected(m: Ram, buf: nat, replies: seq<Reply>, k: nat)
    requires Script(replies) && k < |replies|
    requires buf + Total(Entries(replies)) <= RAM_SIZE && buf + BUFFER + 2 <= RAM_SIZE
    ensures Total(Entries(replies[..k + 1])) == Total(Entries(replies[..k])) + |replies[k].entry|
    ensures Total(Entries(replies[..k + 1])) <= Total(Entries(replies))
    ensures Collected(m, buf, Entries(replies[..k + 1])) ==
            IncWord(PutBytes(Collected(m, buf, Entries(replies[..k])), buf + Total(Entries(replies[..k])),
                             replies[k].entry), buf + BUFFER)
  {
    hide IncWord, PutBytes;
    assert Entries(replies[..k + 1])[..k] == Entries(replies[..k]);
    TotalOfPrefix(Entries(replies), k + 1);
    assert Entries(replies)[..k + 1] == Entries(replies[..k + 1]);
  }

  lemma NothingCollected(m: Ram, buf: nat, replies: seq<Reply>)
    requires buf + BUFFER + 2 <= RAM_SIZE
    ensures Total(Entries(replies[..0])) == 0
    ensures Collected(m, buf, Entries(replies[..0])) == m
  {
  }

  lemma DeliveredFits(replies: seq<Reply>)
    requires Script(replies)
    ensures Total(Delivered(replies)) <= Total(Entries(replies))
  {
    TotalOfPrefix(Entries(replies), |replies| - 1);
    assert Entries(replies)[..|replies| - 1] == Entries(replies[..|replies| - 1]);
  }

  /** .e820_mem_get_loop, for entries of any size. Returns whether the carry
      flag ended it. */
  method E820MemGetLoop(cpu: Machine, replies: seq<Reply>, buf: u16) returns (carry: bool)
    requires cpu.Valid() && !cpu.mmu.paging && Script(replies)
    requires buf + Total(Entries(replies)) < 0x1_0000 && buf + BUFFER + 2 <= 0x1_0000
    modifies cpu.mem, cpu`eax, cpu`ebx, cpu`ecx, cpu`edx, cpu`edi
    ensures carry == replies[|replies| - 1].carry
    ensures Total(Delivered(replies)) <= Total(Entries(replies))
    ensures cpu.Ram() == Collected(old(cpu.Ram()), buf, Delivered(replies))
    ensures Low16(cpu.edi) == buf + Total(Delivered(replies))
  {
    hide IncWord, PutBytes, SetLow16, Low16, Collected, Total, Entries;
    DeliveredFits(replies);
    NothingCollected(cpu.Ram(), buf, replies);
    cpu.ebx := 0;
    cpu.eax := SetLow16(cpu.eax, 0);
    PartialWrites(cpu.edi, buf, 0);
    cpu.edi := SetLow16(cpu.edi, buf);
    var k := 0;
    while true
      invariant 0 <= k < |replies| && Total(Entries(replies[..k])) <= Total(Entries(replies))
      invariant Low16(cpu.edi) == buf + Total(Entries(replies[..k]))
      invariant cpu.Ram() == Collected(old(cpu.Ram()), buf, Entries(replies[..k]))
      decreases |replies| - k
    {
      cpu.eax, cpu.ecx, cpu.edx := 0xE820, 0x14, 0x534d4150;
      if replies[k].carry {
        return true;
      }
      NextCollected(old(cpu.Ram()), buf, replies, k);
      TakeEntry(cpu, buf, replies[k], buf + Total(Entries(replies[..k])));
      k := k + 1;
      if cpu.ebx == 0 { break; }
    }
    assert replies[..k] == replies;
    carry := false;
  }

  function Dec16(x: u16): u16 { (x - 1) % 0x1_0000 }

  /** cx after done of total passes. */
  function Counter(total: nat, done: nat): u16
    requires done <= total
  {
    (total - done) % 0x1_0000
  }

  lemma CountDown(total: nat, done: nat)
    requires done <= total <= 0x1_0000
    ensures done < total ==> Dec16(Counter(total, done)) == Counter(total, done + 1)
    ensures done < total ==> (Counter(total, done + 1) == 0 <==> done + 1 == total)
    ensures total < 0x1_0000 ==> Counter(LoopCount(total, 0x1_0000), 0) == total
  {
  }

  /** One pass of .find_max_mem_area up to the loop instruction. */
  method ScanRange(cpu: Machine, buf: u16, ghost done: nat)
    requires cpu.Valid() && !cpu.mmu.paging && done < 0x1_0000
    requires cpu.ebx == buf + ENTRY * done && cpu.edx == ScanMax(cpu.Ram(), buf, done)
    modifies cpu`eax, cpu`ebx, cpu`edx
    ensures cpu.ebx == buf + ENTRY * (done + 1) && cpu.edx == ScanMax(cpu.Ram(), buf, done + 1)
  {
    hide Dword, Lin, Load32, Signed, Add32;
    ghost var m := cpu.Ram();
    DenotesPhysical(m, cpu.mmu, cpu.ebx, ENTRY);
    LoadDenoted(m, cpu.mmu, cpu.ebx, cpu.ebx, ENTRY, cpu.ebx);
    LoadDenoted(m, cpu.mmu, cpu.ebx, cpu.ebx, ENTRY, cpu.ebx + 8);
    var _, base := cpu.Get32(cpu.ebx);
    cpu.eax := base;
    var _, length := cpu.Get32(cpu.ebx + 8);
    cpu.eax := Add32(cpu.eax, length);
    AddExact(cpu.ebx, ENTRY);
    cpu.ebx := Add32(cpu.ebx, ENTRY);
    if !(Signed(cpu.edx) >= Signed(cpu.eax)) {
      cpu.edx := cpu.eax;
    }
  }

  /** loop in 16-bit code: decrement cx, then test it. */
  method Loop16(cpu: Machine) returns (again: bool)
    modifies cpu`ecx
    ensures Low16(cpu.ecx) == Dec16(Low16(old(cpu.ecx)))
    ensures again <==> Low16(cpu.ecx) != 0
  {
    hide Low16, SetLow16;
    var cx := Dec16(Low16(cpu.ecx));
    PartialWrites(cpu.ecx, cx, 0);
    cpu.ecx := SetLow16(cpu.ecx, cx);
    again := cx != 0;
  }

  method ScanRanges(cpu: Machine, buf: u16)
    requires cpu.Valid() && !cpu.mmu.paging
    modifies cpu`eax, cpu`ebx, cpu`ecx, cpu`edx
    ensures cpu.edx == ScanMax(cpu.Ram(), buf, LoopCount(Low16(old(cpu.ecx)), 0x1_0000))
  {
    hide Low16, Machine.Ram, Counter, Dec16;
    CountDown(Low16(cpu.ecx), 0);
    ghost var total := LoopCount(Low16(cpu.ecx), 0x1_0000);
    ScanOfNone(cpu.Ram(), buf);
    hide ScanMax;
    cpu.ebx := buf;
    cpu.edx := 0;
    ghost var done := 0;
    var again := true;
    while again
      invariant 0 <= done <= total && (again <==> done < total)
      invariant Low16(cpu.ecx) == Counter(total, done)
      invariant cpu.ebx == buf + ENTRY * done
      invariant cpu.edx == ScanMax(cpu.Ram(), buf, done)
      decreases total - done
    {
      ScanRange(cpu, buf, done);
      CountDown(total, done);
      again := Loop16(cpu);
      done := done + 1;
    }
  }

  /** .find_max_mem_area, a do-while loop on the 16-bit counter cx. */
  method FindMaxMemArea(cpu: Machine, buf: u16)
    requires cpu.Valid() && !cpu.mmu.paging && buf + BUFFER + 2 <= 0x1_0000
    modifies cpu`eax, cpu`ebx, cpu`ecx, cpu`edx
    ensures cpu.edx == ScanMax(cpu.Ram(), buf, LoopCount(Word(cpu.Ram(), buf + BUFFER), 0x1_0000))
  {
    hide SetLow16, Low16, Word, Lin, Load16, ScanMax;
    DenotesPhysical(cpu.Ram(), cpu.mmu, buf + BUFFER, 2);
    LoadDenoted(cpu.Ram(), cpu.mmu, buf + BUFFER, buf + BUFFER, 2, buf + BUFFER);
    var _, count := cpu.Get16(buf + BUFFER);
    WordBound(cpu.Ram(), buf + BUFFER);
    PartialWrites(cpu.ecx, count, 0);
    cpu.ecx := SetLow16(cpu.ecx, count);
    ScanRanges(cpu, buf);
  }

  // ----- E801 -----

  /** Bytes below 16 MB in units of 1 KB (ax) plus the missing megabyte, and
      bytes above in units of 64 KB (bx), modulo 2^32. */
  function E801Bytes(ax: u16, bx: u16): nat { 1024 * ax + 0x10_0000 + 0x1_0000 * bx }

  lemma ShiftBy6(x: nat)
    ensures Shl(x, 6) == 64 * x
  {
  }

  lemma ShiftBy16(x: nat)
    ensures Shl(x, 16) == 0x1_0000 * x
  {
    hide Shl;
    ShlAdd(x, 6, 10);
    ShiftBy10(x);
    assert Shl(0x400 * x, 6) == 64 * (0x400 * x) by { ShiftBy6(0x400 * x); }
  }

  lemma Recombine(high: u16, low: u16)
    ensures Or32(0x1_0000 * high, low) == 0x1_0000 * high + low
  {
    hide Shl, BitOr;
    ShiftBy16(1);
    ShiftBy16(high);
    BitOrDisjoint(high, low, 16);
  }

  lemma MaskLow16(x: u32, mask: u32)
    requires mask == 0xFFFF
    ensures And32(x, mask) == x % 0x1_0000
  {
    hide Shl, Shr, LowBits, BitAnd;
    ShiftBy16(1);
    BitAndLowMask(x, 16);
    LowBitsSplit(x, 16);
    ShiftBy16(Shr(x, 16));
  }

  /** mul cx: the 32-bit product goes to dx and ax. */
  method Mul16(cpu: Machine, ghost factor: u16)
    requires Low16(cpu.ecx) == factor == 0x400
    modifies cpu`eax, cpu`edx
    ensures Low16(cpu.edx) == 0x400 * Low16(old(cpu.eax)) / 0x1_0000
    ensures Low16(cpu.eax) == 0x400 * Low16(old(cpu.eax)) % 0x1_0000
  {
    hide Low16, SetLow16;
    var product := Low16(cpu.eax) * Low16(cpu.ecx);
    assert product == 0x400 * Low16(cpu.eax);
    PartialWrites(cpu.eax, product % 0x1_0000, 0);
    PartialWrites(cpu.edx, product / 0x1_0000, 0);
    cpu.eax := SetLow16(cpu.eax, product % 0x1_0000);
    cpu.edx := SetLow16(cpu.edx, product / 0x1_0000);
  }

  lemma ShiftHigh(edx: u32, dx: u16)
    requires Low16(edx) == dx
    ensures edx * 0x1_0000 % 0x1_0000_0000 == 0x1_0000 * dx
  {
    var h := edx / 0x1_0000;
    assert edx * 0x1_0000 == 0x1_0000_0000 * h + 0x1_0000 * dx;
  }

  lemma LowIsRemainder(x: u32)
    ensures Low16(x) == x % 0x1_0000
  {
  }

  /** shl edx,16; and eax,0xFFFF; or edx,eax: dx:ax as one word. */
  method JoinProduct(cpu: Machine, ghost product: u32)
    requires Low16(cpu.edx) == product / 0x1_0000 && Low16(cpu.eax) == product % 0x1_0000
    modifies cpu`eax, cpu`edx
    ensures cpu.edx == product
  {
    hide And32, Or32, Low16;
    ghost var high, low := Low16(cpu.edx), Low16(cpu.eax);
    ShiftHigh(cpu.edx, high);
    cpu.edx := cpu.edx * 0x1_0000 % 0x1_0000_0000;
    MaskLow16(cpu.eax, 0x0000FFFF);
    LowIsRemainder(cpu.eax);
    cpu.eax := And32(cpu.eax, 0x0000FFFF);
    Recombine(high, low);
    cpu.edx := Or32(cpu.edx, cpu.eax);
  }

  method E801Low(cpu: Machine)
    modifies cpu`eax, cpu`ecx, cpu`edx, cpu`esi
    ensures cpu.esi == 1024 * Low16(old(cpu.eax)) + 0x10_0000
  {
    hide Low16, SetLow16;
    PartialWrites(cpu.ecx, 0x400, 0);
    cpu.ecx := SetLow16(cpu.ecx, 0x400);
    ghost var product := 0x400 * Low16(cpu.eax);
    Mul16(cpu, 0x400);
    JoinProduct(cpu, product);
    AddExact(cpu.edx, 0x10_0000);
    cpu.edx := Add32(cpu.edx, 0x10_0000);
    cpu.esi := cpu.edx;
  }

  method E801High(cpu: Machine)
    modifies cpu`eax, cpu`ecx, cpu`edx
    ensures cpu.edx == Add32(cpu.esi, 0x1_0000 * Low16(cpu.ebx))
  {
    hide Low16, SetLow16, Add32;
    cpu.eax := 0;
    ZeroExtends(Low16(cpu.ebx));
    cpu.eax := SetLow16(cpu.eax, Low16(cpu.ebx));
    cpu.ecx := 0x1_0000;
    var wide := cpu.eax * cpu.ecx;
    cpu.eax := wide % 0x1_0000_0000;
    cpu.edx := wide / 0x1_0000_0000;
    cpu.edx := cpu.esi;
    cpu.edx := Add32(cpu.edx, cpu.eax);
  }

  /** The E801 arithmetic on whatever the registers' high halves hold. */
  method E801(cpu: Machine)
    modifies cpu`eax, cpu`ecx, cpu`edx, cpu`esi
    ensures cpu.edx == E801Bytes(Low16(old(cpu.eax)), Low16(old(cpu.ebx))) % 0x1_0000_0000
  {
    hide Low16;
    E801Low(cpu);
    E801High(cpu);
  }

  // ----- The whole probe -----

  /** Offsets of total_mem_bytes and ards_buf in the loader, which the code at
      offset 0x300 follows. */
  const TOTAL: nat := 0x200

  const ARDS: nat := 0x20A

  /** The firmware: its E820 replies, and carry, eax and ebx after E801. */
  datatype Bios = Bios(replies: seq<Reply>, e801Carry: bool, e801Eax: u32, e801Ebx: u32)

  /** The value stored: the scan of the collected ranges, or the E801 sum. */
  ghost function Detected(m: Ram, bios: Bios, buf: nat): u32
    requires Script(bios.replies) && buf + BUFFER + 2 <= 0x1_0000
    requires buf + Total(Delivered(bios.replies)) <= RAM_SIZE
  {
    if !bios.replies[|bios.replies| - 1].carry then
      var n := Collected(m, buf, Delivered(bios.replies));
      WordBound(n, buf + BUFFER);
      ScanMax(n, buf, LoopCount(Word(n, buf + BUFFER), 0x1_0000))
    else E801Bytes(Low16(bios.e801Eax), Low16(bios.e801Ebx)) % 0x1_0000_0000
  }

  /** loader_start to the store of total_mem_bytes. When both calls fail the
      loader halts: the 0x88 path ends in the same endless jump whatever int
      0x15 answers, so found is false and nothing is stored. */
  method DetectMemory(cpu: Machine, bios: Bios, base: u16) returns (found: bool)
    requires cpu.Valid() && !cpu.mmu.paging && Script(bios.replies)
    requires base + 0x300 <= 0x1_0000 && base + ARDS + Total(Entries(bios.replies)) < 0x1_0000
    modifies cpu, cpu.mem
    ensures Total(Delivered(bios.replies)) <= Total(Entries(bios.replies))
    ensures found <==> !(bios.replies[|bios.replies| - 1].carry && bios.e801Carry)
    ensures var collected := Collected(old(cpu.Ram()), base + ARDS, Delivered(bios.replies));
            cpu.Ram() == if found then PutDword(collected, base + TOTAL, Detected(old(cpu.Ram()), bios, base + ARDS))
                         else collected
    ensures found ==> Dword(cpu.Ram(), base + 0x200) == Detected(old(cpu.Ram()), bios, base + 0x20A)
    ensures found && bios.replies[|bios.replies| - 1].carry ==>
              Dword(cpu.Ram(), base + 0x200) ==
              (1024 * (bios.e801Eax % 0x1_0000) + 0x10_0000 + 0x1_0000 * (bios.e801Ebx % 0x1_0000)) % 0x1_0000_0000
  {
    hide Collected, PutDword, Lin, Store32, ScanMax, Word;
    ghost var m0 := cpu.Ram();
    var carry := E820MemGetLoop(cpu, bios.replies, base + ARDS);
    if !carry {
      FindMaxMemArea(cpu, base + ARDS);
    } else {
      cpu.eax, cpu.ebx := bios.e801Eax, bios.e801Ebx;
      if bios.e801Carry { return false; }
      E801(cpu);
    }
    DenotesPhysical(cpu.Ram(), cpu.mmu, base + TOTAL, 4);
    StoreDenoted(cpu.Ram(), cpu.mmu, base + TOTAL, base + TOTAL, 4, base + TOTAL, cpu.edx);
    DwordAfterPut(cpu.Ram(), base + TOTAL, cpu.edx);
    var _ := cpu.Put32(base + TOTAL, cpu.edx);
    found := true;
  }

  /** End to end over the E820 path: with up to twelve ranges the stored total
      is the greatest true end exactly when all ranges end below 2 GB. */
  lemma DetectedIsExact(m: Ram, bios: Bios, buf: nat)
    requires Script(bios.replies) && Ranges(Delivered(bios.replies))
    requires buf + BUFFER + 2 <= 0x1_0000
    requires !bios.replies[|bios.replies| - 1].carry && |bios.replies| <= 12
    requires Word(m, buf + BUFFER) == 0
    ensures Total(Delivered(bios.replies)) == ENTRY * |Delivered(bios.replies)|
    ensures Detected(m, bios, buf) == GreatestEnd(Delivered(bios.replies)) <==>
            GreatestEnd(Delivered(bios.replies)) < 0x8000_0000
  {
    hide Collected, ScanMax, GreatestEnd, Word;
    var entries := Delivered(bios.replies);
    TotalOfRanges(entries);
    CollectedReadsBack(m, buf, entries);
    ScanIsExact(Collected(m, buf, entries), buf, entries);
  }

  lemma DetectedSmall(m: Ram, bios: Bios, buf: nat)
    requires Script(bios.replies) && buf + BUFFER + 2 <= 0x1_0000
    requires buf + Total(Delivered(bios.replies)) <= RAM_SIZE && !bios.replies[|bios.replies| - 1].carry
    ensures Detected(m, bios, buf) < 0x8000_0000
  {
    hide Collected, ScanMax, Word;
    var n := Collected(m, buf, Delivered(bios.replies));
    WordBound(n, buf + BUFFER);
    ScanIsMaximum(n, buf, LoopCount(Word(n, buf + BUFFER), 0x1_0000));
  }

  /** Stated over the replies themselves: if every range ends below 2 GB the
      stored total is the greatest of their ends, and otherwise it is less than
      one of them. */
  lemma DetectedOfReplies(m: Ram, bios: Bios, buf: nat)
    requires Script(bios.replies) && buf + 246 <= 0x1_0000 && Word(m, buf + 244) == 0
    requires |bios.replies| <= 12 && !bios.replies[|bios.replies| - 1].carry
    requires forall i :: 0 <= i < |bios.replies| ==> |bios.replies[i].entry| == 20
    ensures buf + Total(Delivered(bios.replies)) <= RAM_SIZE
    ensures var total := Detected(m, bios, buf);
            if forall i :: 0 <= i < |bios.replies| ==> TrueEnd(bios.replies[i].entry) < 0x8000_0000 then
              && (forall i :: 0 <= i < |bios.replies| ==> TrueEnd(bios.replies[i].entry) <= total)
              && (exists i :: 0 <= i < |bios.replies| && TrueEnd(bios.replies[i].entry) == total)
            else
              exists i :: 0 <= i < |bios.replies| && TrueEnd(bios.replies[i].entry) > total
  {
    hide Collected, ScanMax, GreatestEnd, Word, Dword;
    var entries := Delivered(bios.replies);
    DeliveredAre(bios.replies);
    assert |entries| == |bios.replies| && forall i :: 0 <= i < |entries| ==> entries[i] == bios.replies[i].entry;
    TotalOfRanges(entries);
    DetectedIsExact(m, bios, buf);
    GreatestEndIsGreatest(entries);
    DetectedSmall(m, bios, buf);
  }

  /** The stored total lies where the kernel reads it: with the loader at 0x900,
      at 0xB00. */
  lemma TotalAtB00()
    ensures 0x900 + TOTAL == 0xB00 && 0x900 + ARDS == 0xB0A
  {
  }
}
