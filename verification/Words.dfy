/** Fixed-width machine words, with the wrap-around, truncation and bitwise
    operations that the loader's instructions perform written out on integers. */
module Words {
  datatype Option<+T> = None | Some(value: T) {
    predicate IsFailure() { None? }
    function PropagateFailure<U>(): Option<U>
      requires None?
    {
      None
    }
    function Extract(): T
      requires Some?
    {
      value
    }
  }

  type u8 = x: int | 0 <= x < 0x100

  type u16 = x: int | 0 <= x < 0x1_0000

  type u32 = x: int | 0 <= x < 0x1_0000_0000

  function Add32(a: u32, b: u32): u32 { (a + b) % 0x1_0000_0000 }

  function Sub32(a: u32, b: u32): u32 { (a - b) % 0x1_0000_0000 }

  lemma AddExact(a: u32, b: u32)
    requires a + b < 0x1_0000_0000
    ensures Add32(a, b) == a + b
  {
  }

  lemma SubExact(a: u32, b: u32)
    requires a >= b
    ensures Sub32(a, b) == a - b
  {
  }

  /** The low half of a register (ax of eax) and its low byte (al of eax). */
  function Low16(r: u32): u16 { r % 0x1_0000 }

  function Low8(r: u32): u8 { r % 0x100 }

  /** A write to a partial register keeps the rest of the full register. */
  function SetLow16(r: u32, v: u16): u32 { r - r % 0x1_0000 + v }

  function SetLow8(r: u32, v: u8): u32 { r - r % 0x100 + v }

  lemma PartialWrites(r: u32, v: u16, b: u8)
    ensures Low16(SetLow16(r, v)) == v && SetLow16(r, v) / 0x1_0000 == r / 0x1_0000
    ensures Low8(SetLow8(r, b)) == b && SetLow8(r, b) / 0x100 == r / 0x100
  {
  }

  lemma ZeroExtends(v: u16)
    ensures SetLow16(0, v) == v
  {
  }

  /** Only the part of the register that is kept matters. */
  lemma SameHighHalf(r: u32, s: u32, v: u16)
    requires r / 0x1_0000 == s / 0x1_0000
    ensures SetLow16(r, v) == SetLow16(s, v)
  {
  }

  /** The signed reading of a 32-bit word, as jge sees it. */
  function Signed(x: u32): int { if x < 0x8000_0000 then x else x - 0x1_0000_0000 }

  /** How often the body of a do-while loop closed by the loop instruction
      runs: the counter is decremented before it is tested, so 0 wraps. */
  function LoopCount(counter: nat, width: nat): nat
  {
    if counter == 0 then width else counter
  }

  // ----- Bitwise operations -----

  function BitOr(x: nat, y: nat): nat
    decreases x + y
  {
    if x == 0 && y == 0 then 0
    else 2 * BitOr(x / 2, y / 2) + (if x % 2 == 1 || y % 2 == 1 then 1 else 0)
  }

  function BitAnd(x: nat, y: nat): nat
    decreases x
  {
    if x == 0 then 0
    else 2 * BitAnd(x / 2, y / 2) + (if x % 2 == 1 && y % 2 == 1 then 1 else 0)
  }

  /** Shifts by k bit positions, one position at a time. */
  function Shl(x: nat, k: nat): (r: nat)
    ensures x > 0 ==> r > 0
    decreases k
  {
    if k == 0 then x else 2 * Shl(x, k - 1)
  }

  function Shr(x: nat, k: nat): nat
    decreases k
  {
    if k == 0 then x else Shr(x / 2, k - 1)
  }

  /** The k low bits of x. */
  function LowBits(x: nat, k: nat): nat
    decreases k
  {
    if k == 0 then 0 else x % 2 + 2 * LowBits(x / 2, k - 1)
  }

  lemma {:induction false} BitOrZero(x: nat)
    ensures BitOr(x, 0) == x && BitOr(0, x) == x
  {
    if x > 0 { BitOrZero(x / 2); }
  }

  /** Or-ing flags into the zero bits below a k-bit boundary is addition. */
  lemma {:induction false} BitOrDisjoint(h: nat, l: nat, k: nat)
    requires l < Shl(1, k)
    ensures BitOr(Shl(h, k), l) == Shl(h, k) + l
    ensures BitOr(l, Shl(h, k)) == Shl(h, k) + l
  {
    if k == 0 {
      BitOrZero(h);
    } else {
      BitOrDisjoint(h, l / 2, k - 1);
    }
  }

  lemma {:induction false} BitOrBound(x: nat, y: nat, k: nat)
    requires x < Shl(1, k) && y < Shl(1, k)
    ensures BitOr(x, y) < Shl(1, k)
  {
    if k > 0 { BitOrBound(x / 2, y / 2, k - 1); }
  }

  /** Or works on the bits above any boundary separately. */
  lemma {:induction false} BitOrHigh(x: nat, y: nat, k: nat)
    ensures Shr(BitOr(x, y), k) == BitOr(Shr(x, k), Shr(y, k))
  {
    if k > 0 { BitOrHigh(x / 2, y / 2, k - 1); }
  }

  lemma {:induction false} BitAndBound(x: nat, y: nat)
    ensures BitAnd(x, y) <= x && BitAnd(x, y) <= y
  {
    if x > 0 { BitAndBound(x / 2, y / 2); }
  }

  lemma {:induction false} LowBitsSplit(x: nat, k: nat)
    ensures x == LowBits(x, k) + Shl(Shr(x, k), k)
    ensures LowBits(x, k) < Shl(1, k)
  {
    if k > 0 { LowBitsSplit(x / 2, k - 1); }
  }

  /** A mask of n low ones keeps the n low bits. */
  lemma {:induction false} BitAndLowMask(x: nat, n: nat)
    ensures BitAnd(x, Shl(1, n) - 1) == LowBits(x, n)
  {
    if n == 0 {
      BitAndBound(x, 0);
    } else {
      var p := Shl(1, n - 1);
      assert p >= 1 && (2 * p - 1) / 2 == p - 1;
      BitAndLowMask(x / 2, n - 1);
      if x == 0 {
        assert LowBits(0, n) == 0 by { BitAndLowMask(0, n - 1); }
      }
    }
  }

  /** A mask shifted left by k ignores the k low bits. */
  lemma {:induction false} BitAndShiftedMask(x: nat, y: nat, k: nat)
    ensures BitAnd(x, Shl(y, k)) == Shl(BitAnd(Shr(x, k), y), k)
  {
    if k > 0 {
      BitAndShiftedMask(x / 2, y, k - 1);
    }
  }

  // ----- 32-bit forms used by the instructions -----

  lemma {:induction false} ShlAdd(x: nat, a: nat, b: nat)
    ensures Shl(x, a + b) == Shl(Shl(x, b), a)
  {
    if a > 0 { ShlAdd(x, a - 1, b); }
  }

  lemma {:induction false} ShrAdd(x: nat, a: nat, b: nat)
    ensures Shr(x, a + b) == Shr(Shr(x, a), b)
  {
    if a > 0 { ShrAdd(x / 2, a - 1, b); }
  }

  lemma ShiftBy10(x: nat)
    ensures Shr(x, 10) == x / 0x400
    ensures Shl(x, 10) == x * 0x400
  {
  }

  lemma ShiftBy12(x: nat)
    ensures Shr(x, 12) == x / 0x1000
    ensures Shl(x, 12) == x * 0x1000
  {
    ShrAdd(x, 10, 2); ShlAdd(x, 10, 2); ShiftBy10(x); ShiftBy10(Shl(x, 2));
  }

  lemma ShiftBy22(x: nat)
    ensures Shr(x, 22) == x / 0x40_0000
    ensures Shl(x, 22) == x * 0x40_0000
  {
    hide Shr, Shl;
    ShrAdd(x, 10, 12); ShlAdd(x, 10, 12); ShiftBy10(x); ShiftBy10(Shl(x, 12));
    ShiftBy12(x); ShiftBy12(x / 0x400);
  }

  lemma ShiftBy30(x: nat)
    ensures Shr(x, 30) == x / 0x4000_0000
    ensures Shl(x, 30) == x * 0x4000_0000
  {
    ShrAdd(x, 22, 8);
    ShiftBy22(x);
    ShlAdd(x, 8, 22);
  }

  lemma ShlOne32()
    ensures Shl(1, 32) == 0x1_0000_0000
  {
    ShlAdd(1, 2, 30);
    ShiftBy30(1);
  }

  function Or32(x: u32, y: u32): u32
  {
    ShlOne32();
    BitOrBound(x, y, 32);
    BitOr(x, y)
  }

  function And32(x: u32, y: u32): u32
  {
    BitAndBound(x, y);
    BitAnd(x, y)
  }

  /** Flags below a page boundary do not mix with the page frame address. */
  lemma OrFlags(frame: nat, flags: nat)
    requires frame < 0x10_0000 && flags < 0x1000
    ensures Or32(4096 * frame, flags) == 4096 * frame + flags
  {
    ShiftBy12(1);
    ShiftBy12(frame);
    BitOrDisjoint(frame, flags, 12);
  }

  /** Or works on the bits below any boundary separately. */
  lemma {:induction false} BitOrLow(x: nat, y: nat, k: nat)
    ensures LowBits(BitOr(x, y), k) == BitOr(LowBits(x, k), LowBits(y, k))
  {
    if k > 0 { BitOrLow(x / 2, y / 2, k - 1); }
  }

  lemma OrWithThree()
    ensures BitOr(0, 3) == 3 && BitOr(1, 3) == 3 && BitOr(2, 3) == 3 && BitOr(3, 3) == 3
  {
  }

  lemma LowBits30(x: nat)
    ensures LowBits(x, 30) == x % 0x4000_0000
  {
    hide LowBits, Shl, Shr;
    LowBitsSplit(x, 30);
    ShiftBy30(1);
    ShiftBy30(Shr(x, 30));
  }

  lemma OrTopHigh(x: u32, y: u32)
    requires y == 0xC000_0000
    ensures Or32(x, y) / 0x4000_0000 == 3
  {
    hide Shr, BitOr;
    BitOrHigh(x, y, 30);
    ShiftBy30(x);
    ShiftBy30(y);
    ShiftBy30(Or32(x, y));
    OrWithThree();
    var t := x / 0x4000_0000;
    assert t == 0 || t == 1 || t == 2 || t == 3;
  }

  lemma OrTopLow(x: u32, y: u32)
    requires y == 0xC000_0000
    ensures Or32(x, y) % 0x4000_0000 == x % 0x4000_0000
  {
    hide LowBits, BitOr;
    BitOrLow(x, y, 30);
    LowBits30(x);
    LowBits30(y);
    LowBits30(Or32(x, y));
    BitOrZero(x % 0x4000_0000);
  }

  /** The or of 0xC0000000 sets the two top bits and keeps the others. */
  lemma OrTopBits(x: u32, y: u32)
    requires y == 0xC000_0000
    ensures Or32(x, y) == 0xC000_0000 + x % 0x4000_0000
  {
    hide Or32;
    OrTopHigh(x, y);
    OrTopLow(x, y);
  }

  /** It is the add of 0xC0000000 exactly when those two bits were clear. */
  lemma OrIsAddHigherHalf(x: u32, y: u32)
    requires y == 0xC000_0000
    ensures Or32(x, y) == Add32(x, y) <==> x < 0x4000_0000
  {
    hide Or32;
    OrTopBits(x, y);
  }

  /** At 1 GB the add leaves the higher half and the or does not. */
  lemma OrIsNotAddAt1GB()
    ensures Or32(0x4000_0000, 0xC000_0000) == 0xC000_0000 && Add32(0x4000_0000, 0xC000_0000) == 0
  {
    hide Or32;
    OrTopBits(0x4000_0000, 0xC000_0000);
  }
}
