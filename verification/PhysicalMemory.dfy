/** Physical memory: a byte for each 32-bit physical address, with the
    little-endian words and page-structure entries that are read from it. */
module PhysicalMemory {
  import opened Words

  const RAM_SIZE: nat := 0x1_0000_0000
  const FRAMES: nat := 0x10_0000

  type Ram = m: seq<u8> | |m| == RAM_SIZE ghost witness seq(RAM_SIZE, _ => 0)

  /** A page frame number: the frame holds the bytes 4096*f .. 4096*f+4095. */
  type Frame = f: int | 0 <= f < FRAMES

  // ----- Little-endian values -----

  function Byte(v: u32, k: nat): u8
    requires k < 4
  {
    if k == 0 then v % 0x100
    else if k == 1 then v / 0x100 % 0x100
    else if k == 2 then v / 0x100 / 0x100 % 0x100
    else v / 0x100 / 0x100 / 0x100
  }

  function FromBytes(b0: u8, b1: u8, b2: u8, b3: u8): u32
  {
    b0 + 0x100 * b1 + 0x1_0000 * b2 + 0x100_0000 * b3
  }

  function Dword(m: seq<u8>, a: nat): u32
    requires a + 4 <= |m|
  {
    FromBytes(m[a], m[a + 1], m[a + 2], m[a + 3])
  }

  /** A 16-bit value, zero-extended. */
  function Word(m: seq<u8>, a: nat): u32
    requires a + 2 <= |m|
  {
    FromBytes(m[a], m[a + 1], 0, 0)
  }

  function PutDword(m: Ram, a: nat, v: u32): Ram
    requires a + 4 <= RAM_SIZE
  {
    m[a := Byte(v, 0)][a + 1 := Byte(v, 1)][a + 2 := Byte(v, 2)][a + 3 := Byte(v, 3)]
  }

  function PutWord(m: Ram, a: nat, v: u16): Ram
    requires a + 2 <= RAM_SIZE
  {
    m[a := v % 0x100][a + 1 := v / 0x100]
  }

  lemma BytesRoundTrip(v: u32)
    ensures FromBytes(Byte(v, 0), Byte(v, 1), Byte(v, 2), Byte(v, 3)) == v
  {
    var v1 := v / 0x100;
    var v2 := v1 / 0x100;
    var v3 := v2 / 0x100;
    assert v == 0x100 * v1 + Byte(v, 0);
    assert v1 == 0x100 * v2 + Byte(v, 1);
    assert v2 == 0x100 * v3 + Byte(v, 2);
  }

  lemma ByteOrder(b0: u8, b1: u8, b2: u8, b3: u8)
    ensures var v := b0 + 0x100 * (b1 + 0x100 * (b2 + 0x100 * b3));
            && v == FromBytes(b0, b1, b2, b3)
            && Byte(v, 0) == b0 && Byte(v, 1) == b1 && Byte(v, 2) == b2 && Byte(v, 3) == b3
  {
    var v2: u16 := b2 + 0x100 * b3;
    var v1 := b1 + 0x100 * v2;
    var v: u32 := b0 + 0x100 * v1;
    assert v / 0x100 == v1 && v1 / 0x100 == v2 && v2 / 0x100 == b3;
  }

  lemma WordBound(m: Ram, a: nat)
    requires a + 2 <= RAM_SIZE
    ensures Word(m, a) < 0x1_0000
  {
  }

  lemma DwordAfterPut(m: Ram, a: nat, v: u32)
    requires a + 4 <= RAM_SIZE
    ensures Dword(PutDword(m, a, v), a) == v
    ensures forall b :: 0 <= b < RAM_SIZE && !(a <= b < a + 4) ==> PutDword(m, a, v)[b] == m[b]
  {
    BytesRoundTrip(v);
  }

  /** Words lie in memory with the least significant byte first. */
  lemma LittleEndian(m: Ram, a: nat, b0: u8, b1: u8, b2: u8, b3: u8)
    requires a + 4 <= RAM_SIZE && m[a..a + 4] == [b0, b1, b2, b3]
    ensures Dword(m, a) == b0 + 0x100 * b1 + 0x1_0000 * b2 + 0x100_0000 * b3
    ensures Word(m, a) == b0 + 0x100 * b1
    ensures forall n: Ram :: PutDword(n, a, Dword(m, a))[a..a + 4] == [b0, b1, b2, b3]
    ensures forall n: Ram :: PutWord(n, a, Word(m, a))[a..a + 2] == [b0, b1]
  {
    ByteOrder(b0, b1, b2, b3);
    assert m[a] == m[a..a + 4][0] && m[a + 1] == m[a..a + 4][1];
    assert m[a + 2] == m[a..a + 4][2] && m[a + 3] == m[a..a + 4][3];
  }

  // ----- Page-structure entries -----

  /** Entry i of the page directory or page table in frame f. */
  function Entry(m: Ram, f: Frame, i: nat): u32
    requires i < 1024
  {
    Dword(m, 4096 * f + 4 * i)
  }

  function SetEntry(m: Ram, f: Frame, i: nat, v: u32): Ram
    requires i < 1024
  {
    PutDword(m, 4096 * f + 4 * i, v)
  }

  /** Writing one entry changes exactly that entry. */
  lemma EntryAfterSet(m: Ram, f: Frame, i: nat, v: u32)
    requires i < 1024
    ensures Entry(SetEntry(m, f, i, v), f, i) == v
    ensures forall g: Frame, j: nat {:trigger Entry(SetEntry(m, f, i, v), g, j)} ::
              j < 1024 && (g != f || j != i) ==> Entry(SetEntry(m, f, i, v), g, j) == Entry(m, g, j)
  {
    DwordAfterPut(m, 4096 * f + 4 * i, v);
  }

  // ----- Comparing two memories -----

  /** The memories agree everywhere except possibly in lo..hi-1. */
  ghost predicate SameOutside(m: Ram, n: Ram, lo: int, hi: int)
  {
    forall a {:trigger m[a]} {:trigger n[a]} :: 0 <= a < RAM_SIZE && !(lo <= a < hi) ==> m[a] == n[a]
  }

  lemma SameOutsideItself(m: Ram, lo: int, hi: int)
    ensures SameOutside(m, m, lo, hi)
  {
  }

  lemma SameOutsideTransitive(k: Ram, m: Ram, n: Ram, lo: int, hi: int, lo': int, hi': int)
    requires SameOutside(k, m, lo, hi) && SameOutside(m, n, lo', hi')
    requires lo <= lo' && hi' <= hi
    ensures SameOutside(k, n, lo, hi)
  {
  }

  lemma DwordElsewhere(m: Ram, n: Ram, lo: int, hi: int, a: nat)
    requires SameOutside(m, n, lo, hi) && a + 4 <= RAM_SIZE && (a + 4 <= lo || hi <= a)
    ensures Dword(m, a) == Dword(n, a)
  {
  }

  lemma EntrySameOutside(m: Ram, n: Ram, lo: int, hi: int, f: Frame)
    requires SameOutside(m, n, lo, hi)
    requires 4096 * f + 4096 <= lo || hi <= 4096 * f
    ensures forall i: nat :: i < 1024 ==> Entry(m, f, i) == Entry(n, f, i)
  {
  }
}
