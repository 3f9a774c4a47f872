/** 64-bit words and the numbers they stand for. */
module Words {

  const TWO32 := 0x1_0000_0000
  const TWO64 := 0x1_0000_0000_0000_0000

  function Pow2(n: nat): (p: nat)
    ensures p > 0
  {
    if n == 0 then 1 else 2 * Pow2(n - 1)
  }

  function Shift(x: bv64): bv64 {
    x << 1
  }

  function ShiftHalf(x: bv64): bv64 {
    x << 32
  }

  function Mark(x: bv64): bv64 {
    x | 1
  }

  function Or(x: bv64, y: bv64): bv64 {
    x | y
  }

  function Push(half: bv64, odd: bool): bv64 {
    if odd then Mark(Shift(half)) else Shift(half)
  }

  /** The word with these bits, written from the highest down. */
  function Word(n: nat): bv64 {
    if n == 0 then 0 else Push(Word(n / 2), n % 2 == 1)
  }

  lemma Doubled(imm: bv64, half: bv64)
    requires half < 0x8000_0000_0000_0000 && imm == half << 1
    ensures imm as int == 2 * (half as int)
  {}

  lemma Odd(imm: bv64, half: bv64)
    requires half < 0x8000_0000_0000_0000 && imm == (half << 1) | 1
    ensures imm as int == 2 * (half as int) + 1
  {}

  lemma HalfBelow(half: bv64)
    requires half as int < 0x8000_0000_0000_0000
    ensures half < 0x8000_0000_0000_0000
  {}

  lemma LowBelow(low: bv64)
    requires low as int < TWO32
    ensures low < 0x1_0000_0000
  {}

  lemma PushIs(half: bv64, odd: bool)
    requires half as int < 0x8000_0000_0000_0000
    ensures Push(half, odd) as int == 2 * (half as int) + if odd then 1 else 0
  {
    HalfBelow(half);
    if odd {
      Odd(Push(half, odd), half);
    } else {
      Doubled(Push(half, odd), half);
    }
  }

  lemma Zero()
    ensures (0 as bv64) as int == 0 && Push(0, false) == 0
  {}

  lemma WordStep(n: nat)
    ensures Word(n) == Push(Word(n / 2), n % 2 == 1)
  {
    hide Push;
    Zero();
  }

  /** A word is its number: nothing is lost below 2^64. */
  lemma {:induction false} WordIs(n: nat)
    requires n < TWO64
    ensures Word(n) as int == n
    decreases n
  {
    hide Push, Word;
    if n == 0 {
      Nothing();
    } else {
      WordIs(n / 2);
      PushIs(Word(n / 2), n % 2 == 1);
      WordStep(n);
    }
  }

  lemma Nothing()
    ensures Word(0) == 0 && Word(0) as int == 0
  {}

  // Two halves

  function Up(x: bv64, k: nat): bv64 {
    if k == 0 then x else Push(Up(x, k - 1), false)
  }

  lemma ShiftOr(x: bv64, y: bv64)
    ensures Shift(Or(x, y)) == Or(Shift(x), Shift(y))
  {}

  lemma MarkOr(x: bv64, y: bv64)
    ensures Mark(Or(x, y)) == Or(x, Mark(y))
  {}

  lemma PushOr(x: bv64, y: bv64, odd: bool)
    ensures Push(Or(x, y), odd) == Or(Push(x, false), Push(y, odd))
  {
    hide Shift, Mark, Or;
    ShiftOr(x, y);
    MarkOr(Shift(x), Shift(y));
  }

  lemma OrZero(x: bv64)
    ensures Or(x, 0) == x
  {}

  lemma HalfOfParts(high: nat, low: nat, k: nat)
    requires k > 0
    ensures (high * Pow2(k) + low) / 2 == high * Pow2(k - 1) + low / 2
    ensures (high * Pow2(k) + low) % 2 == low % 2
    ensures low < Pow2(k) ==> low / 2 < Pow2(k - 1)
  {
    var top := high * Pow2(k - 1);
    assert high * Pow2(k) == 2 * top;
  }

  lemma {:induction false} WordOfParts(high: nat, low: nat, k: nat)
    requires low < Pow2(k)
    ensures Word(high * Pow2(k) + low) == Or(Up(Word(high), k), Word(low))
    decreases k
  {
    hide Push, Word, Or;
    if k == 0 {
      OrZero(Word(high));
      Nothing();
    } else {
      WordOfParts(high, low / 2, k - 1);
      HalfOfParts(high, low, k);
      WordStep(high * Pow2(k) + low);
      WordStep(low);
      PushOr(Up(Word(high), k - 1), Word(low / 2), low % 2 == 1);
    }
  }

  function Push8(y: bv64): bv64 {
    Push(Push(Push(Push(Push(Push(Push(Push(y, false), false), false), false), false), false), false), false)
  }

  lemma EightPushes(y: bv64)
    ensures Push8(y) == y << 8
  {}

  lemma UpEight(x: bv64, k: nat)
    ensures Up(x, k + 8) == Push8(Up(x, k))
  {
    hide Push;
    assert Up(x, k + 2) == Push(Push(Up(x, k), false), false);
    assert Up(x, k + 4) == Push(Push(Up(x, k + 2), false), false);
    assert Up(x, k + 6) == Push(Push(Up(x, k + 4), false), false);
  }

  lemma FourBytes(x: bv64)
    ensures Push8(Push8(Push8(Push8(x)))) == ShiftHalf(x)
  {}

  lemma UpIsShift(x: bv64)
    ensures Up(x, 32) == ShiftHalf(x)
  {
    hide Push8, Up, ShiftHalf;
    UpEight(x, 0);
    UpEight(x, 8);
    UpEight(x, 16);
    UpEight(x, 24);
    UpNone(x);
    FourBytes(x);
  }

  lemma UpNone(x: bv64)
    ensures Up(x, 0) == x
  {}

  function Halves(high: bv64, low: bv64): bv64 {
    Or(ShiftHalf(high), low)
  }

  predicate IsHalf(x: bv64) {
    x < 0x1_0000_0000
  }

  /** The program's way to replace the low half of an address. */
  function MaskLow(address: bv64, value: bv64): bv64 {
    (address & !0xffff_ffff) | (value & 0xffff_ffff)
  }

  /** The program's way to replace the high half. */
  function MaskHigh(address: bv64, value: bv64): bv64 {
    (address & 0xffff_ffff) | (value << 32)
  }

  lemma MasksReplace(high: bv64, low: bv64, high': bv64, low': bv64)
    requires IsHalf(low) && IsHalf(low')
    ensures MaskLow(Halves(high, low), Halves(high', low')) == Halves(high, low')
    ensures MaskHigh(Halves(high, low), Halves(high', low')) == Halves(low', low)
  {}

  lemma UpOr(high: bv64, low: bv64)
    ensures Or(Up(high, 32), low) == Halves(high, low)
  {
    hide Up, Or, ShiftHalf;
    UpIsShift(high);
  }

  lemma Powers()
    ensures Pow2(32) == TWO32
  {
    assert Pow2(8) == 0x100 && Pow2(16) == 0x1_0000 && Pow2(24) == 0x100_0000;
  }

  /** A word of two halves. */
  lemma WordOfHalves(high: nat, low: nat)
    requires low < TWO32
    ensures Word(high * TWO32 + low) == Halves(Word(high), Word(low)) && IsHalf(Word(low))
  {
    hide Word, Up, Or, Halves, Pow2;
    Powers();
    WordOfParts(high, low, 32);
    UpOr(Word(high), Word(low));
    WordIs(low);
    LowBelow(Word(low));
  }

  /** On numbers, the masks replace the low half of an address, and the high half by a value's low half. */
  lemma MasksOfWords(address: nat, value: nat)
    ensures MaskLow(Word(address), Word(value)) == Word(address / TWO32 * TWO32 + value % TWO32)
    ensures MaskHigh(Word(address), Word(value)) == Word(value % TWO32 * TWO32 + address % TWO32)
  {
    hide Word, Halves, MaskLow, MaskHigh, IsHalf;
    WordOfHalves(address / TWO32, address % TWO32);
    WordOfHalves(value / TWO32, value % TWO32);
    WordOfHalves(address / TWO32, value % TWO32);
    WordOfHalves(value % TWO32, address % TWO32);
    MasksReplace(Word(address / TWO32), Word(address % TWO32), Word(value / TWO32), Word(value % TWO32));
  }

  lemma SameWord(a: bv64, b: bv64)
    requires a as int == b as int
    ensures a == b
  {
    assert (a as int) as bv64 == a && (b as int) as bv64 == b;
  }

  /** The number a word is. */
  function Number(x: bv64): nat {
    x as int
  }

  lemma NumberBelow(x: bv64)
    ensures Number(x) < TWO64
  {}

  lemma NumberOfWord(n: nat)
    requires n < TWO64
    ensures Number(Word(n)) == n
  {
    hide Word;
    WordIs(n);
  }

  lemma WordOfNumber(x: bv64)
    ensures Word(Number(x)) == x
  {
    hide Word;
    NumberBelow(x);
    WordIs(Number(x));
    SameWord(Word(Number(x)), x);
  }

  lemma Below(address: nat, value: nat)
    requires address < TWO64
    ensures address / TWO32 * TWO32 + value % TWO32 < TWO64
    ensures value % TWO32 * TWO32 + address % TWO32 < TWO64
  {}

  /** The program's masks and shifts, on the numbers that 64-bit words are. */
  lemma MasksAreArithmetic(address: bv64, value: bv64)
    ensures Number(MaskLow(address, value)) == Number(address) / TWO32 * TWO32 + Number(value) % TWO32
    ensures Number(MaskHigh(address, value)) == Number(value) % TWO32 * TWO32 + Number(address) % TWO32
  {
    hide Word, MaskLow, MaskHigh, Number;
    var a, v := Number(address), Number(value);
    WordOfNumber(address);
    WordOfNumber(value);
    MasksOfWords(a, v);
    NumberBelow(address);
    Below(a, v);
    NumberOfWord(a / TWO32 * TWO32 + v % TWO32);
    NumberOfWord(v % TWO32 * TWO32 + a % TWO32);
  }
}
