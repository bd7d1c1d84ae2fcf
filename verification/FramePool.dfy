/** The bitmap allocator behind palloc: lib/kernel/bitmap.c and the pool
    functions of kernel/memory.c. */
module FramePool {
  import opened Words
  import opened PhysicalMemory

  const PG_SIZE: nat := 4096

  // ----- Bits of a byte -----

  predicate BitOf(b: nat, k: nat) { Shr(b, k) % 2 == 1 }

  lemma OrHalves(x: nat, y: nat)
    ensures BitOr(x, y) / 2 == BitOr(x / 2, y / 2)
    ensures BitOr(x, y) % 2 == 1 <==> x % 2 == 1 || y % 2 == 1
  {
  }

  lemma {:induction false} BitOfOr(x: nat, y: nat, k: nat)
    ensures BitOf(BitOr(x, y), k) <==> BitOf(x, k) || BitOf(y, k)
  {
    hide BitOr;
    OrHalves(x, y);
    if k > 0 { BitOfOr(x / 2, y / 2, k - 1); }
  }

  lemma {:induction false} ShrOfZero(k: nat)
    ensures Shr(0, k) == 0
  {
    if k > 0 { ShrOfZero(k - 1); }
  }

  lemma {:induction false} BitOfMask(j: nat, k: nat)
    ensures BitOf(Shl(1, j), k) <==> j == k
  {
    if j == 0 {
      if k > 0 { ShrOfZero(k - 1); }
    } else if k > 0 {
      BitOfMask(j - 1, k - 1);
    }
  }

  lemma {:induction false} BitAndZero(x: nat)
    ensures BitAnd(x, 0) == 0
  {
    if x > 0 { BitAndZero(x / 2); }
  }

  /** b & (1 << k) is nonzero exactly when bit k is set. */
  lemma {:induction false} MaskTests(b: nat, k: nat)
    ensures BitAnd(b, Shl(1, k)) != 0 <==> BitOf(b, k)
  {
    if k == 0 {
      if b > 0 { BitAndZero(b / 2); }
    } else if b > 0 {
      MaskTests(b / 2, k - 1);
    } else {
      ShrOfZero(k);
    }
  }

  lemma MaskBound(k: nat)
    requires k < 8
    ensures Shl(1, k) < 0x100
  {
    assert k == 0 || k == 1 || k == 2 || k == 3 || k == 4 || k == 5 || k == 6 || k == 7;
  }

  lemma {:induction false} OnesUpTo(b: nat, k: nat)
    ensures (forall j: nat :: j < k ==> BitOf(b, j)) <==> LowBits(b, k) == Shl(1, k) - 1
  {
    if k > 0 {
      OnesUpTo(b / 2, k - 1);
      assert BitOf(b, 0) <==> b % 2 == 1;
      assert forall j: nat :: j < k - 1 ==> (BitOf(b / 2, j) <==> BitOf(b, j + 1));
      LowBitsSplit(b / 2, k - 1);
      if forall j: nat :: j < k ==> BitOf(b, j) {
        forall j: nat | j < k - 1
          ensures BitOf(b / 2, j)
        {
          assert BitOf(b, j + 1);
        }
      }
      if LowBits(b, k) == Shl(1, k) - 1 {
        forall j: nat | j < k
          ensures BitOf(b, j)
        {
          if j > 0 { assert BitOf(b / 2, j - 1); }
        }
      }
    }
  }

  lemma ShiftBy8(x: nat)
    ensures Shl(x, 8) == 0x100 * x
  {
  }

  lemma EightBits(b: u8)
    ensures Shl(1, 8) == 0x100 && LowBits(b, 8) == b
  {
    hide LowBits, Shr, Shl;
    LowBitsSplit(b, 8);
    ShiftBy8(1);
    ShiftBy8(Shr(b, 8));
  }

  lemma FullByte(b: u8)
    ensures (forall k: nat :: k < 8 ==> BitOf(b, k)) <==> b == 0xff
  {
    hide BitOf, LowBits, Shl;
    OnesUpTo(b, 8);
    EightBits(b);
  }

  // ----- Runs of free bits -----

  /** Bit i of a string of bytes, lowest bit of each byte first. */
  predicate Taken(s: seq<u8>, i: nat)
    requires i < 8 * |s|
  {
    BitOf(s[i / 8], i % 8)
  }

  ghost predicate FreeRun(s: seq<u8>, start: nat, cnt: nat)
    requires start + cnt <= 8 * |s|
  {
    forall i: nat :: start <= i < start + cnt ==> !Taken(s, i)
  }

  /** What bitmap_scan answers; Panic is its assertion, which never returns. */
  datatype Scan = Panic | NotFound | At(start: nat)

  /** The first run of cnt free bits among the first n, or none. */
  ghost predicate FirstFit(s: seq<u8>, n: nat, cnt: nat, r: Scan)
    requires n <= 8 * |s|
  {
    match r
    case Panic => false
    case NotFound => forall t: nat :: t + cnt <= n ==> !FreeRun(s, t, cnt)
    case At(start) =>
      && start + cnt <= n && FreeRun(s, start, cnt)
      && forall t: nat :: t < start ==> !FreeRun(s, t, cnt)
  }

  // ----- The bitmap -----

  /** b | (value << k) for the value 1 */
  function WithBit(b: u8, value: u8, k: nat): u8
    requires value == 1 && k < 8
  {
    MaskBound(k);
    ShiftBy8(1);
    BitOrBound(b, Shl(1, k), 8);
    BitOr(b, Shl(value, k))
  }

  lemma {:induction false} ShlOfZero(k: nat)
    ensures Shl(0, k) == 0
  {
    if k > 0 { ShlOfZero(k - 1); }
  }

  /** b & ~(value << k) for the value 0 */
  function WithoutBit(b: u8, value: u8, k: nat): u8
    requires value == 0
  {
    ShlOfZero(k);
    BitAndBound(b, 0xff - Shl(value, k));
    BitAnd(b, 0xff - Shl(value, k))
  }

  /** All bits before i are taken. */
  ghost predicate AllTaken(s: seq<u8>, i: nat)
    requires i <= 8 * |s|
  {
    forall j: nat :: j < i ==> Taken(s, j)
  }

  lemma FullBytesTaken(s: seq<u8>, n: nat)
    requires n <= |s| && forall b :: 0 <= b < n ==> s[b] == 0xff
    ensures AllTaken(s, 8 * n)
  {
    forall j: nat | j < 8 * n
      ensures Taken(s, j)
    {
      FullByte(s[j / 8]);
    }
  }

  lemma NotAllTaken(s: seq<u8>, byte: nat, len: nat)
    requires byte < len <= |s| && s[byte] != 0xff
    ensures !AllTaken(s, 8 * len)
  {
    hide BitOf;
    FullByte(s[byte]);
    var k: nat :| k < 8 && !BitOf(s[byte], k);
    assert !Taken(s, 8 * byte + k);
  }

  lemma TakenInByte(s: seq<u8>, byte: nat, k: nat)
    requires byte < |s| && k < 8 && AllTaken(s, 8 * byte)
    requires !BitOf(s[byte], k) && forall j: nat :: j < k ==> BitOf(s[byte], j)
    ensures !Taken(s, 8 * byte + k) && AllTaken(s, 8 * byte + k)
  {
    hide BitOf;
    forall j: nat | j < 8 * byte + k
      ensures Taken(s, j)
    {
      if j >= 8 * byte {
        assert j / 8 == byte && j % 8 == j - 8 * byte;
      }
    }
  }

  /** A run that ends at next has grown to count free bits, and no run of cnt
      bits has ended so far. */
  ghost predicate Scanned(s: seq<u8>, next: nat, count: nat, cnt: nat)
    requires count <= next <= 8 * |s|
  {
    && FreeRun(s, next - count, count)
    && (count < next ==> Taken(s, next - count - 1))
    && count < cnt
    && forall t: nat :: t + cnt <= next ==> !FreeRun(s, t, cnt)
  }

  lemma NothingBefore(s: seq<u8>, start: nat, cnt: nat)
    requires start < 8 * |s| && AllTaken(s, start) && !Taken(s, start) && cnt >= 1
    ensures forall t: nat :: t < start && t + cnt <= 8 * |s| ==> !FreeRun(s, t, cnt)
    ensures cnt > 1 ==> Scanned(s, start + 1, 1, cnt)
    ensures cnt == 1 ==> FreeRun(s, start, 1)
  {
    hide BitOf;
    forall t: nat | t < start && t + cnt <= 8 * |s|
      ensures !FreeRun(s, t, cnt)
    {
      assert Taken(s, t);
    }
  }

  /** One more bit: the run grows, or starts again. */
  lemma ScannedNext(s: seq<u8>, next: nat, count: nat, cnt: nat)
    requires count <= next < 8 * |s| && Scanned(s, next, count, cnt)
    ensures Taken(s, next) ==> Scanned(s, next + 1, 0, cnt)
    ensures !Taken(s, next) && count + 1 < cnt ==> Scanned(s, next + 1, count + 1, cnt)
    ensures !Taken(s, next) && count + 1 == cnt ==>
              FreeRun(s, next + 1 - cnt, cnt) && forall t: nat :: t + cnt <= next ==> !FreeRun(s, t, cnt)
  {
    hide Taken;
    if Taken(s, next) || count + 1 < cnt {
      forall t: nat | t + cnt <= next + 1
        ensures !FreeRun(s, t, cnt)
      {
        if t + cnt == next + 1 {
          if Taken(s, next) {
            assert t <= next < t + cnt;
          } else {
            assert t <= next - count - 1 < t + cnt;
          }
        }
      }
    }
  }

  lemma SetOneBit(s: seq<u8>, i: nat)
    requires i < 8 * |s|
    ensures forall j: nat :: j < 8 * |s| ==>
              (Taken(s[i / 8 := WithBit(s[i / 8], 1, i % 8)], j) <==> Taken(s, j) || j == i)
  {
    var n := s[i / 8 := WithBit(s[i / 8], 1, i % 8)];
    forall j: nat | j < 8 * |s|
      ensures Taken(n, j) <==> Taken(s, j) || j == i
    {
      hide BitOf, BitOr, Shl;
      BitOfOr(s[i / 8], Shl(1, i % 8), j % 8);
      BitOfMask(i % 8, j % 8);
      assert j / 8 == i / 8 ==> (j % 8 == i % 8 <==> j == i);
    }
  }

  lemma ClearMaskKeeps(b: u8, k: nat)
    ensures WithoutBit(b, 0, k) == b
  {
    hide BitAnd, Shl, LowBits;
    ShlOfZero(k);
    EightBits(b);
    BitAndLowMask(b, 8);
  }

  /** A bitmap of len bytes at the start of bits; what follows them in memory
      is the next bitmap, whose first byte bitmap_scan can reach. */
  class Bitmap {
    const bits: array<u8>
    const len: nat

    predicate Valid() { len < bits.Length }

    constructor (memory: array<u8>, length: nat)
      requires length < memory.Length
      ensures Valid() && bits == memory && len == length
    {
      bits := memory;
      len := length;
    }

    /** bitmap_init: a memset of the bitmap's own bytes. */
    method Clear()
      requires Valid()
      modifies bits
      ensures bits[..] == seq(len, _ => 0) + old(bits[len..])
    {
      var i := 0;
      while i < len
        invariant 0 <= i <= len
        invariant forall j :: 0 <= j < i ==> bits[j] == 0
        invariant forall j :: i <= j < bits.Length ==> bits[j] == old(bits[j])
      {
        bits[i] := 0;
        i := i + 1;
      }
    }

    method ScanTest(i: nat) returns (taken: bool)
      requires Valid() && i < 8 * bits.Length
      ensures taken == Taken(bits[..], i)
    {
      MaskTests(bits[i / 8], i % 8);
      taken := BitAnd(bits[i / 8], Shl(1, i % 8)) != 0;
    }

    /** The first two loops of bitmap_scan: the first free bit, if the
        assertion that there is one holds. */
    method FirstFree() returns (panic: bool, start: nat)
      requires Valid()
      ensures panic <==> AllTaken(bits[..], 8 * len)
      ensures !panic ==> start < 8 * len && !Taken(bits[..], start) && AllTaken(bits[..], start)
    {
      hide Shl, BitAnd, BitOf, Taken, AllTaken;
      var byte := 0;
      while bits[byte] == 0xff && byte < len
        invariant 0 <= byte <= len
        invariant forall b :: 0 <= b < byte ==> bits[b] == 0xff
      {
        byte := byte + 1;
      }
      FullBytesTaken(bits[..], byte);
      if byte == len {
        return true, 0;
      }
      FullByte(bits[byte]);
      NotAllTaken(bits[..], byte, len);
      var k := 0;
      MaskTests(bits[byte], k);
      while BitAnd(bits[byte], Shl(1, k)) != 0
        invariant 0 <= k < 8
        invariant BitAnd(bits[byte], Shl(1, k)) != 0 <==> BitOf(bits[byte], k)
        invariant forall j: nat :: j < k ==> BitOf(bits[byte], j)
        decreases 8 - k
      {
        k := k + 1;
        MaskTests(bits[byte], k);
      }
      start := byte * 8 + k;
      panic := false;
      TakenInByte(bits[..], byte, k);
    }

    /** bitmap_scan for cnt >= 1 bits. A single bit is searched among the
        bitmap's own bits; a longer run also looks at one bit behind them. */
    method ScanFor(cnt: nat) returns (r: Scan)
      requires Valid() && cnt >= 1
      ensures r.Panic? <==> AllTaken(bits[..], 8 * len)
      ensures !r.Panic? ==> FirstFit(bits[..], if cnt == 1 then 8 * len else 8 * len + 1, cnt, r)
    {
      var panic, start := FirstFree();
      if panic { return Panic; }
      NothingBefore(bits[..], start, cnt);
      if cnt == 1 { return At(start); }
      var left, count, next := len * 8 - start, 1, start + 1;
      r := NotFound;
      while left > 0
        invariant 0 <= left && next == 8 * len + 1 - left && 0 <= count <= next
        invariant Scanned(bits[..], next, count, cnt)
      {
        hide Taken, FreeRun, Scanned;
        left := left - 1;
        ScannedNext(bits[..], next, count, cnt);
        var taken := ScanTest(next);
        count := if !taken then count + 1 else 0;
        if count == cnt {
          return At(next - cnt + 1);
        }
        next := next + 1;
      }
    }

    /** bitmap_set, which does not check that the bit is the bitmap's own.
        Clearing shifts the value 0 into place and complements it, so the mask
        keeps every bit: nothing is ever cleared. */
    method Set(i: nat, value: u8)
      requires Valid() && i < 8 * bits.Length && value <= 1
      modifies bits
      ensures forall j: nat :: j < 8 * bits.Length ==>
                (Taken(bits[..], j) <==> Taken(old(bits[..]), j) || (j == i && value == 1))
    {
      hide Taken, WithBit, WithoutBit;
      ghost var s := bits[..];
      if value != 0 {
        SetOneBit(s, i);
        bits[i / 8] := WithBit(bits[i / 8], value, i % 8);
        assert bits[..] == s[i / 8 := WithBit(s[i / 8], 1, i % 8)];
      } else {
        ClearMaskKeeps(bits[i / 8], i % 8);
        bits[i / 8] := WithoutBit(bits[i / 8], value, i % 8);
        assert bits[..] == s;
      }
    }

    /** The set loop of vaddr_get. */
    method MarkRun(start: nat, cnt: nat)
      requires Valid() && start + cnt <= 8 * bits.Length
      modifies bits
      ensures forall j: nat :: j < 8 * bits.Length ==>
                (Taken(bits[..], j) <==> Taken(old(bits[..]), j) || start <= j < start + cnt)
    {
      hide Taken;
      var i := 0;
      while i < cnt
        invariant 0 <= i <= cnt
        invariant forall j: nat :: j < 8 * bits.Length ==>
                    (Taken(bits[..], j) <==> Taken(old(bits[..]), j) || start <= j < start + i)
      {
        Set(start + i, 1);
        i := i + 1;
      }
    }
  }

  // ----- When a run reaches past the bitmap -----

  /** No run of cnt bits fits, but the last cnt - 1 bits and the bit behind the
      bitmap are free. */
  ghost predicate Spills(s: seq<u8>, len: nat, cnt: nat)
    requires len < |s| && cnt > 1
  {
    && cnt <= 8 * len + 1
    && (forall t: nat :: t + cnt <= 8 * len ==> !FreeRun(s, t, cnt))
    && FreeRun(s, 8 * len + 1 - cnt, cnt - 1)
    && !Taken(s, 8 * len)
  }

  /** Then the answer is the one that takes the foreign bit. */
  lemma SpilledAnswer(s: seq<u8>, len: nat, cnt: nat, r: Scan)
    requires len < |s| && cnt > 1 && FirstFit(s, 8 * len + 1, cnt, r) && Spills(s, len, cnt)
    ensures r == At(8 * len + 1 - cnt)
  {
    hide Taken;
    var t := 8 * len + 1 - cnt;
    assert FreeRun(s, t, cnt) by {
      forall i: nat | t <= i < t + cnt
        ensures !Taken(s, i)
      {
        assert i < 8 * len ==> t <= i < t + (cnt - 1);
      }
    }
  }

  /** For runs of two and more bits the answer is the first run inside the
      bitmap exactly when the free tail does not combine with the next
      bitmap's first bit. */
  lemma ScanStaysInside(s: seq<u8>, len: nat, cnt: nat, r: Scan)
    requires len < |s| && cnt > 1 && FirstFit(s, 8 * len + 1, cnt, r)
    ensures FirstFit(s, 8 * len, cnt, r) <==> !Spills(s, len, cnt)
  {
    hide Taken;
    if Spills(s, len, cnt) {
      SpilledAnswer(s, len, cnt, r);
    }
    if r.At? && r.start + cnt == 8 * len + 1 {
      assert FreeRun(s, r.start, cnt - 1);
      assert !Taken(s, 8 * len);
      assert Spills(s, len, cnt);
    }
  }

  /** One byte of bitmap with its last bit free and a free bit behind it: a
      request for two bits is answered with bit 7, half of it foreign. */
  lemma SpillExample()
    ensures Spills([0x7f, 0x00], 1, 2)
  {
    var s: seq<u8> := [0x7f, 0x00];
    assert BitOf(0x7f, 0) && BitOf(0x7f, 1) && BitOf(0x7f, 2) && BitOf(0x7f, 3);
    assert BitOf(0x7f, 4) && BitOf(0x7f, 5) && BitOf(0x7f, 6) && !BitOf(0x7f, 7);
    assert !BitOf(0, 0);
    forall t: nat | t + 2 <= 8
      ensures !FreeRun(s, t, 2)
    {
      assert t == 0 || t == 1 || t == 2 || t == 3 || t == 4 || t == 5 || t == 6;
      assert Taken(s, t);
    }
    assert !Taken(s, 7) && !Taken(s, 8);
  }

  // ----- vaddr_get -----

  lemma FitsInside(s: seq<u8>, n: nat, cnt: nat, r: Scan)
    requires n <= 8 * |s| && FirstFit(s, n, cnt, r) && r.At?
    ensures r.start + cnt <= n
  {
  }

  lemma NotAllTakenSpills(s: seq<u8>, len: nat, cnt: nat)
    requires len < |s| && cnt > 1 && Spills(s, len, cnt)
    ensures !AllTaken(s, 8 * len) && !Taken(s, 8 * len) && cnt <= 8 * len + 1
  {
    hide Taken;
    var t := 8 * len + 1 - cnt;
    assert FreeRun(s, t, cnt - 1);
    assert !Taken(s, t);
  }

  /** What a call of vaddr_get answers, and leaves in the bitmap: the scan's
      answer on the bits before, and exactly its run taken besides. */
  ghost predicate Answered(before: seq<u8>, after: seq<u8>, len: nat, cnt: nat, r: Scan)
    requires len < |before| == |after|
  {
    && (r.Panic? <==> AllTaken(before, 8 * len))
    && (!r.Panic? ==> FirstFit(before, if cnt == 1 then 8 * len else 8 * len + 1, cnt, r))
    && forall j: nat :: j < 8 * |after| ==>
         (Taken(after, j) <==> Taken(before, j) || (r.At? && r.start <= j < r.start + cnt))
  }

  lemma FirstFitOne(s: seq<u8>, n: nat, r: Scan)
    requires n <= 8 * |s| && FirstFit(s, n, 1, r) && !AllTaken(s, n)
    ensures r.At? && r.start < n && !Taken(s, r.start) && forall j: nat :: j < r.start ==> Taken(s, j)
  {
    hide Taken;
    if r.NotFound? {
      forall j: nat | j < n
        ensures Taken(s, j)
      {
        assert !FreeRun(s, j, 1);
      }
    } else {
      assert FreeRun(s, r.start, 1);
      forall j: nat | j < r.start
        ensures Taken(s, j)
      {
        assert !FreeRun(s, j, 1);
      }
    }
  }

  /** A single page is found unless all are taken. */
  lemma OnePageAnswered(before: seq<u8>, after: seq<u8>, len: nat, r: Scan)
    requires len < |before| == |after| && Answered(before, after, len, 1, r)
    ensures r.At? <==> !AllTaken(before, 8 * len)
    ensures r.At? ==> r.start < 8 * len
  {
    hide Taken, AllTaken;
    if !AllTaken(before, 8 * len) { FirstFitOne(before, 8 * len, r); }
  }

  /** A range of virtual pages from start on, one bit each. */
  class VirtualAddr {
    const bitmap: Bitmap
    const start: u32

    predicate Valid() { bitmap.Valid() }

    constructor (b: Bitmap, first: u32)
      requires b.Valid()
      ensures Valid() && bitmap == b && start == first
    {
      bitmap := b;
      start := first;
    }

    /** vaddr_get: the scan's answer, whose pages then count as taken, and no
        others. When the scan spills, the last of them is the first page of the
        next bitmap in memory. For a process an assertion that the address is
        more than a page below 3 GB follows; failed says that it does not hold,
        and the call never returns. */
    method Get(cnt: nat, isUser: bool) returns (r: Scan, va: u32, failed: bool)
      requires Valid() && cnt >= 1
      modifies bitmap.bits
      ensures Answered(old(bitmap.bits[..]), bitmap.bits[..], bitmap.len, cnt, r)
      ensures r.At? ==> va == (start + PG_SIZE * r.start) % 0x1_0000_0000
      ensures failed <==> r.At? && isUser && va >= 0xC000_0000 - PG_SIZE
      ensures cnt > 1 && Spills(old(bitmap.bits[..]), bitmap.len, cnt) ==>
                && r == At(8 * bitmap.len + 1 - cnt)
                && !Taken(old(bitmap.bits[..]), 8 * bitmap.len) && Taken(bitmap.bits[..], 8 * bitmap.len)
    {
      hide Taken, AllTaken, FirstFit, Spills;
      ghost var s := bitmap.bits[..];
      va := 0;
      r := bitmap.ScanFor(cnt);
      if cnt > 1 && Spills(s, bitmap.len, cnt) {
        NotAllTakenSpills(s, bitmap.len, cnt);
        SpilledAnswer(s, bitmap.len, cnt, r);
      }
      if r.At? {
        FitsInside(s, if cnt == 1 then 8 * bitmap.len else 8 * bitmap.len + 1, cnt, r);
        bitmap.MarkRun(r.start, cnt);
        va := (start + PG_SIZE * r.start) % 0x1_0000_0000;
      }
      failed := r.At? && isUser && va >= 0xC000_0000 - PG_SIZE;
    }
  }

  // ----- palloc and pfree -----

  predicate HandedOut(s: seq<u8>, start: Frame, f: Frame)
  {
    start <= f < start + 8 * |s| && Taken(s, f - start)
  }

  ghost function IssuedFrames(s: seq<u8>, start: Frame, len: nat): set<Frame>
    requires len <= |s|
  {
    set f: Frame | start <= f < start + 8 * len && HandedOut(s, start, f)
  }

  lemma AllIssued(s: seq<u8>, start: Frame, len: nat)
    requires len <= |s| && start + 8 * len <= FRAMES
    ensures AllTaken(s, 8 * len) <==>
            forall f: Frame :: start <= f < start + 8 * len ==> f in IssuedFrames(s, start, len)
  {
    hide Taken;
    if forall f: Frame :: start <= f < start + 8 * len ==> f in IssuedFrames(s, start, len) {
      forall j: nat | j < 8 * len
        ensures Taken(s, j)
      {
        var f: Frame := start + j;
        assert f in IssuedFrames(s, start, len);
      }
    }
  }

  /** A pool of frames from start on, one bit each. */
  class Pool {
    const bitmap: Bitmap
    const start: Frame

    predicate Valid() { bitmap.Valid() && start + 8 * bitmap.len <= FRAMES }

    constructor (b: Bitmap, first: Frame)
      requires b.Valid() && first + 8 * b.len <= FRAMES
      ensures Valid() && bitmap == b && start == first
    {
      bitmap := b;
      start := first;
    }

    /** The frames handed out. */
    ghost function Issued(): set<Frame>
      requires Valid()
      reads bitmap.bits
    {
      IssuedFrames(bitmap.bits[..], start, bitmap.len)
    }

    predicate Manages(f: Frame) { start <= f < start + 8 * bitmap.len }

    /** A frame that may be handed out next. */
    ghost predicate Available(f: Frame)
      requires Valid()
      reads bitmap.bits
    {
      Manages(f) && f !in Issued()
    }

    /** No frame is left. */
    ghost predicate Full()
      requires Valid()
      reads bitmap.bits
    {
      forall f: Frame :: Manages(f) ==> f in Issued()
    }

    /** palloc never returns when the pool is empty (the scan's assertion), and
        otherwise hands out the lowest frame not handed out yet. */
    method Palloc() returns (panic: bool, frame: Frame)
      requires Valid()
      modifies bitmap.bits
      ensures panic <==> old(Full())
      ensures panic ==> Issued() == old(Issued())
      ensures !panic ==> Manages(frame) && frame !in old(Issued())
      ensures !panic ==> forall f: Frame :: start <= f < frame ==> f in old(Issued())
      ensures !panic ==> Issued() == old(Issued()) + {frame}
    {
      hide Taken, FirstFit, AllTaken;
      ghost var s := bitmap.bits[..];
      ghost var issued := Issued();
      AllIssued(s, start, bitmap.len);
      var r := bitmap.ScanFor(1);
      if r.Panic? {
        return true, start;
      }
      FirstFitOne(s, 8 * bitmap.len, r);
      var i := r.start;
      bitmap.Set(i, 1);
      panic, frame := false, start + i;
      assert frame !in issued;
    }

    /** pfree clears nothing, so a frame once handed out stays so. */
    method Pfree(frame: Frame)
      requires Valid() && Manages(frame)
      modifies bitmap.bits
      ensures Issued() == old(Issued())
    {
      hide Taken;
      bitmap.Set(frame - start, 0);
    }
  }

  // ----- Runs of the pool -----

  /** What Palloc and Pfree do to the set of frames handed out. */
  datatype PoolOp = Alloc(frame: Frame) | Free(frame: Frame)

  ghost function After(issued: set<Frame>, op: PoolOp): set<Frame>
  {
    if op.Alloc? then issued + {op.frame} else issued
  }

  ghost predicate PoolRun(issued: set<Frame>, ops: seq<PoolOp>, last: set<Frame>)
    decreases |ops|
  {
    if ops == [] then last == issued
    else (ops[0].Alloc? ==> ops[0].frame !in issued) && PoolRun(After(issued, ops[0]), ops[1..], last)
  }

  lemma {:induction false} NotIssuedAgain(issued: set<Frame>, ops: seq<PoolOp>, last: set<Frame>, j: nat)
    requires PoolRun(issued, ops, last) && j < |ops| && ops[j].Alloc?
    ensures ops[j].frame !in issued
    decreases |ops|
  {
    if j > 0 {
      NotIssuedAgain(After(issued, ops[0]), ops[1..], last, j - 1);
    }
  }

  /** No frame is handed out twice in any run, however many are freed between. */
  lemma {:induction false} NeverTwice(issued: set<Frame>, ops: seq<PoolOp>, last: set<Frame>, i: nat, j: nat)
    requires PoolRun(issued, ops, last) && i < j < |ops| && ops[i].Alloc? && ops[j].Alloc?
    ensures ops[i].frame != ops[j].frame && ops[i].frame !in issued
    decreases |ops|
  {
    if i > 0 {
      NeverTwice(After(issued, ops[0]), ops[1..], last, i - 1, j - 1);
    } else {
      NotIssuedAgain(After(issued, ops[0]), ops[1..], last, j - 1);
    }
  }

  lemma {:induction false} RunLonger(issued: set<Frame>, ops: seq<PoolOp>, last: set<Frame>, op: PoolOp)
    requires PoolRun(issued, ops, last) && (op.Alloc? ==> op.frame !in last)
    ensures PoolRun(issued, ops + [op], After(last, op))
    decreases |ops|
  {
    if ops == [] {
      assert [op][1..] == [] && ops + [op] == [op];
    } else {
      assert (ops + [op])[1..] == ops[1..] + [op];
      RunLonger(After(issued, ops[0]), ops[1..], last, op);
    }
  }

  /** A caller's request: a new frame, or to take one back. */
  datatype Request = Want | Give(frame: Frame)

  /** The run answers the requests in order. */
  ghost predicate Answers(requests: seq<Request>, ops: seq<PoolOp>)
  {
    && |ops| <= |requests|
    && forall i :: 0 <= i < |ops| ==>
         if requests[i].Want? then ops[i].Alloc? else ops[i] == Free(requests[i].frame)
  }

  lemma EmptyRun(issued: set<Frame>)
    ensures PoolRun(issued, [], issued)
  {
  }

  /** palloc and pfree called in any order on one pool. The calls make a run of
      the pool, which ends early only when a request finds the pool full, and no
      frame is ever answered twice. */
  method Serve(pool: Pool, requests: seq<Request>) returns (ops: seq<PoolOp>)
    requires pool.Valid() && forall q :: q in requests && q.Give? ==> pool.Manages(q.frame)
    modifies pool.bitmap.bits
    ensures Answers(requests, ops) && PoolRun(old(pool.Issued()), ops, pool.Issued())
    ensures |ops| < |requests| ==> requests[|ops|].Want? && pool.Full()
    ensures forall i, j :: 0 <= i < j < |ops| && ops[i].Alloc? && ops[j].Alloc? ==> ops[i].frame != ops[j].frame
    ensures forall i :: 0 <= i < |ops| && ops[i].Alloc? ==>
              pool.Manages(ops[i].frame) && ops[i].frame !in old(pool.Issued()) && ops[i].frame in pool.Issued()
  {
    hide PoolRun;
    ghost var issued := pool.Issued();
    ops := [];
    EmptyRun(issued);
    var n := 0;
    while n < |requests|
      invariant 0 <= n <= |requests| && |ops| == n && Answers(requests, ops)
      invariant PoolRun(issued, ops, pool.Issued()) && issued <= pool.Issued()
      invariant forall i :: 0 <= i < n && ops[i].Alloc? ==>
                  pool.Manages(ops[i].frame) && ops[i].frame !in issued && ops[i].frame in pool.Issued()
    {
      ghost var last := pool.Issued();
      var op := Free(0);
      match requests[n] {
        case Want =>
          var panic, frame := pool.Palloc();
          if panic { break; }
          op := Alloc(frame);
        case Give(frame) =>
          pool.Pfree(frame);
          op := Free(frame);
      }
      RunLonger(issued, ops, last, op);
      ops := ops + [op];
      n := n + 1;
    }
    forall i, j | 0 <= i < j < |ops| && ops[i].Alloc? && ops[j].Alloc?
      ensures ops[i].frame != ops[j].frame
    {
      NeverTwice(issued, ops, pool.Issued(), i, j);
    }
  }

  // ----- mem_pool_init -----

  const USED_MEM: u32 := 256 * PG_SIZE + 0x10_0000
  const MEM_BITMAP_BASE: nat := 0xC009_A000

  /** The main thread's control block, below the stack the loader set up. */
  const MAIN_THREAD: nat := 0xC009_E000

  datatype Pools = Pools(kernelStart: u32, kernelPages: u16, userStart: u32, userPages: u16)

  /** Free memory split in two pools; the page count is a 16-bit variable. */
  function MemPoolInit(allMem: u32): Pools
  {
    var pages: u16 := Sub32(allMem, USED_MEM) / PG_SIZE % 0x1_0000;
    var kernel: u16 := pages / 2;
    Pools(USED_MEM, kernel, Add32(USED_MEM, kernel * PG_SIZE), pages - kernel)
  }

  lemma WholePages(free: u32, pages: nat)
    requires pages == free / PG_SIZE % 0x1_0000
    ensures PG_SIZE * pages <= free
    ensures free - PG_SIZE * pages < PG_SIZE <==> free < 0x1_0000 * PG_SIZE
  {
    var all := free / PG_SIZE;
    assert free == PG_SIZE * all + free % PG_SIZE;
    assert all == 0x1_0000 * (all / 0x1_0000) + pages;
  }

  /** The pools start where the boot page structures end and touch each other.
      They lie in memory exactly when there are 2 MB of it, and use all of it
      up to a page exactly below 258 MB. The bitmaps of the two pools and of the
      kernel's addresses fit below the main thread's control block. */
  lemma PoolLayout(allMem: u32)
    ensures var p := MemPoolInit(allMem);
            var end := p.userStart + PG_SIZE * p.userPages;
            && p.kernelStart == PG_SIZE * (0x100 + 256)
            && p.userStart == p.kernelStart + PG_SIZE * p.kernelPages
            && p.kernelPages <= p.userPages <= p.kernelPages + 1
            && (end <= allMem <==> allMem >= USED_MEM)
            && (allMem >= USED_MEM ==> (allMem - end < PG_SIZE <==> allMem < USED_MEM + 0x1_0000 * PG_SIZE))
            && MEM_BITMAP_BASE + 2 * (p.kernelPages / 8) + p.userPages / 8 <= MAIN_THREAD
  {
    hide Sub32, Add32;
    var free := Sub32(allMem, USED_MEM);
    var pages := free / PG_SIZE % 0x1_0000;
    AddExact(USED_MEM, pages / 2 * PG_SIZE);
    if allMem >= USED_MEM {
      SubExact(allMem, USED_MEM);
      WholePages(free, pages);
    }
  }

  lemma NoBitOfZero(k: nat)
    ensures !BitOf(0, k)
  {
    ShrOfZero(k);
  }

  lemma NoneIssued(s: seq<u8>, start: Frame, len: nat)
    requires len <= |s| && forall i :: 0 <= i < len ==> s[i] == 0
    ensures IssuedFrames(s, start, len) == {}
  {
    hide BitOf;
    forall f: Frame | start <= f < start + 8 * len
      ensures !HandedOut(s, start, f)
    {
      assert s[(f - start) / 8] == 0;
      NoBitOfZero((f - start) % 8);
    }
  }

  /** mem_pool_init over three bitmaps that start at the given places: the two
      pools, empty of frames handed out, one behind the other from 2 MB on, and
      the kernel's addresses from the heap's start on. */
  method InitPools(allMem: u32, heapStart: u32, kernelBits: array<u8>, userBits: array<u8>, heapBits: array<u8>)
    returns (kernel: Pool, user: Pool, heap: VirtualAddr)
    requires kernelBits.Length > 0x1000 && userBits.Length > 0x1000 && heapBits.Length > 0x1000
    requires kernelBits != userBits && userBits != heapBits && kernelBits != heapBits
    modifies kernelBits, userBits, heapBits
    ensures kernel.Valid() && user.Valid() && heap.Valid()
    ensures kernel.bitmap.bits == kernelBits && user.bitmap.bits == userBits && heap.bitmap.bits == heapBits
    ensures kernel.Issued() == {} && user.Issued() == {}
    ensures var p := MemPoolInit(allMem);
            && PG_SIZE * kernel.start == p.kernelStart && PG_SIZE * user.start == p.userStart
            && kernel.bitmap.len == heap.bitmap.len == p.kernelPages / 8 && user.bitmap.len == p.userPages / 8
            && heap.start == heapStart
    ensures kernel.start + 8 * kernel.bitmap.len <= user.start
    ensures forall i :: 0 <= i < heap.bitmap.len ==> heapBits[i] == 0
  {
    hide HandedOut;
    PoolLayout(allMem);
    var p := MemPoolInit(allMem);
    var kernelMap := new Bitmap(kernelBits, p.kernelPages / 8);
    var userMap := new Bitmap(userBits, p.userPages / 8);
    var heapMap := new Bitmap(heapBits, p.kernelPages / 8);
    kernelMap.Clear();
    userMap.Clear();
    heapMap.Clear();
    kernel := new Pool(kernelMap, p.kernelStart / PG_SIZE);
    user := new Pool(userMap, p.userStart / PG_SIZE);
    heap := new VirtualAddr(heapMap, heapStart);
    NoneIssued(kernelBits[..], kernel.start, kernelMap.len);
    NoneIssued(userBits[..], user.start, userMap.len);
  }

  /** How many pages the pools have together, for every memory size. */
  lemma PoolPages(allMem: u32)
    ensures var p := MemPoolInit(allMem);
            && p.kernelPages + p.userPages == (allMem - 0x20_0000) % 0x1_0000_0000 / 4096 % 0x1_0000
            && p.kernelPages == (p.kernelPages + p.userPages) / 2
  {
  }

  lemma PoolsInNumbers()
    ensures MemPoolInit(0x200_0000) == Pools(0x20_0000, 0xF00, 0x110_0000, 0xF00)
    ensures MemPoolInit(0x2000_0000) == Pools(0x20_0000, 0x7F00, 0x810_0000, 0x7F00)
    ensures MEM_BITMAP_BASE == 0xC009_A000 && MAIN_THREAD == 0xC009_E000
  {
  }

  /** A machine with 258 MB: the 16-bit page count wraps to 0, and both pools
      are empty although 256 MB are free. */
  lemma EmptyPoolsAt258MB()
    ensures MemPoolInit(0x1020_0000) == Pools(USED_MEM, 0, USED_MEM, 0)
  {
    assert Sub32(0x1020_0000, USED_MEM) == 0x1000_0000;
  }
}
