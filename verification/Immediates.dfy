/**
 Sign extension and RISC-V immediate decoding (internal/cpu/util.go).

 Instruction words are bit vectors, since the decoders shuffle bits.  A 64-bit register value is
 the integer in [0, 2^64) it denotes, since sign extension is a statement about numbers: a left
 shift multiplies modulo 2^64, an arithmetic right shift divides rounding down.
 */
module Immediates {

  const TWO64 := 0x1_0000_0000_0000_0000

  type uint64 = x: int | 0 <= x < TWO64

  type uint32 = x: int | 0 <= x < 0x1_0000_0000

  type word = bv32

  function Pow2(n: nat): (p: nat)
    ensures p > 0
  {
    if n == 0 then 1 else 2 * Pow2(n - 1)
  }

  /** Go's int64(x). */
  function ToInt64(x: uint64): int {
    if x < TWO64 / 2 then x else x - TWO64
  }

  /** Go's uint64(i) of a signed value. */
  function FromInt64(i: int): uint64 {
    i % TWO64
  }

  function Sext(v: uint64, width: nat): uint64
    requires 1 <= width <= 64
  {
    var shift := 64 - width;
    FromInt64(ToInt64((v * Pow2(shift)) % TWO64) / Pow2(shift))
  }

  /** Go's int32(v). */
  function ToInt32(v: uint32): int {
    if v < 0x8000_0000 then v else v - 0x1_0000_0000
  }

  function Sext32(v: uint32): uint64 {
    FromInt64(ToInt32(v))
  }

  /** The value of the w-bit two's complement pattern held in the low bits of u. */
  function TwosComplement(u: nat, w: nat): int
    requires w >= 1
  {
    var low := u % Pow2(w);
    if low < Pow2(w - 1) then low else low - Pow2(w)
  }

  // Powers of two and remainders

  lemma {:induction false} Pow2Add(a: nat, b: nat)
    ensures Pow2(a) * Pow2(b) == Pow2(a + b)
  {
    if a > 0 {
      Pow2Add(a - 1, b);
    }
  }

  lemma Pow2Constants()
    ensures Pow2(11) == 0x800 && Pow2(12) == 0x1000 && Pow2(13) == 0x2000
    ensures Pow2(20) == 0x10_0000 && Pow2(21) == 0x20_0000
    ensures Pow2(31) == 0x8000_0000 && Pow2(32) == 0x1_0000_0000 && Pow2(64) == TWO64
  {
    assert Pow2(5) == 32;
    Pow2Add(5, 5);
    Pow2Add(10, 10);
    Pow2Add(10, 20);
    Pow2Add(32, 32);
  }

  lemma MultipleBelow(e: int, d: int)
    requires -d < e * d < d
    ensures e == 0
  {}

  lemma DivModUnique(n: int, d: int, q: int, r: int)
    requires d > 0 && n == q * d + r && 0 <= r < d
    ensures n / d == q && n % d == r
  {
    assert (q - n / d) * d == n % d - r;
    MultipleBelow(q - n / d, d);
  }

  /** Shifting left in p * m = 2^64 keeps exactly the part of v below m, moved up. */
  lemma ShiftLeftKeepsLow(v: nat, p: nat, m: nat)
    requires p > 0 && m > 0
    ensures p * m > 0 && (v * p) % (p * m) == (v % m) * p
  {
    var q, r := v / m, v % m;
    assert v * p == q * (p * m) + r * p by {
      assert v == q * m + r;
      assert q * m * p == q * (p * m);
    }
    assert r * p + p <= p * m by {
      assert p * (r + 1) <= p * m;
    }
    DivModUnique(v * p, p * m, q, r * p);
  }

  /** sext(v, width) is v's low `width` bits read as a two's complement number. */
  lemma SextValue(v: uint64, width: nat)
    requires 1 <= width <= 64
    ensures ToInt64(Sext(v, width)) == TwosComplement(v, width)
    ensures -(Pow2(width - 1) as int) <= TwosComplement(v, width) < Pow2(width - 1)
  {
    var p, m, h := Pow2(64 - width), Pow2(width), Pow2(width - 1);
    Pow2Add(64 - width, width);
    Pow2Constants();
    ShiftLeftKeepsLow(v, p, m);
    SignedQuotient(v % m, p, m, h);
  }

  /** The integer core of sext: the moved-up low part, read as signed and divided back. */
  lemma SignedQuotient(low: nat, p: nat, m: nat, h: nat)
    requires p > 0 && h > 0 && m == 2 * h && low < m && p * m == TWO64
    ensures low * p < TWO64
    ensures ToInt64(FromInt64(ToInt64(low * p) / p)) == if low < h then low else low - m
    ensures h <= TWO64 / 2
  {
    var t := if low < h then low else low - m;
    assert h * p == TWO64 / 2 by {
      assert 2 * (h * p) == p * m;
    }
    assert h <= h * p;
    assert (low + 1) * p <= m * p;
    assert ToInt64(low * p) == t * p by {
      if low < h {
        assert (low + 1) * p <= h * p;
      } else {
        assert low * p >= h * p;
        assert t * p == low * p - p * m;
      }
    }
    DivModUnique(t * p, p, t, 0);
  }

  lemma Sext32IsSext(v: uint32)
    ensures Sext32(v) == Sext(v, 32)
  {
    SextValue(v, 32);
    Pow2Constants();
  }

  /** Every signed value of w bits is the value of its own low w bits. */
  lemma SignedPattern(i: int, w: nat)
    requires w >= 1 && -(Pow2(w - 1) as int) <= i < Pow2(w - 1)
    ensures TwosComplement(i % Pow2(w), w) == i
  {
    var m := Pow2(w);
    if i < 0 {
      DivModUnique(i, m, -1, i + m);
    } else {
      DivModUnique(i, m, 0, i);
    }
    DivModUnique(i % m, m, 0, i % m);
  }

  // Decoders: the bit pattern each one assembles in a uint32, then its sign extension

  function PatternI(inst: word): word {
    inst >> 20
  }

  function PatternS(inst: word): word {
    ((inst >> 25) << 5) | ((inst >> 7) & 0x1f)
  }

  function PatternB(inst: word): word {
    ((inst >> 31) << 12) | (((inst >> 7) & 1) << 11) | (((inst >> 25) & 0x3f) << 5) | (((inst >> 8) & 0xf) << 1)
  }

  function PatternU(inst: word): word {
    inst & 0xffff_f000
  }

  function PatternJ(inst: word): word {
    ((inst >> 31) << 20) | (((inst >> 12) & 0xff) << 12) | (((inst >> 20) & 1) << 11) | (((inst >> 21) & 0x3ff) << 1)
  }

  function ImmI(inst: word): uint64 {
    Sext(PatternI(inst) as int, 12)
  }

  function ImmS(inst: word): uint64 {
    Sext(PatternS(inst) as int, 12)
  }

  function ImmB(inst: word): uint64 {
    Sext(PatternB(inst) as int, 13)
  }

  function ImmU(inst: word): uint64 {
    Sext(PatternU(inst) as int, 32)
  }

  function ImmJ(inst: word): uint64 {
    Sext(PatternJ(inst) as int, 21)
  }

  // Encoders: where section 2.3 of the RISC-V Unprivileged ISA puts each immediate bit.  `rest`
  // supplies the bits of every other field.

  function EncodeI(imm: word, rest: word): word {
    (rest & 0x000f_ffff) | (imm << 20)
  }

  function EncodeS(imm: word, rest: word): word {
    (rest & 0x01ff_f07f) | ((imm & 0xfe0) << 20) | ((imm & 0x1f) << 7)
  }

  function EncodeB(imm: word, rest: word): word {
    (rest & 0x01ff_f07f)
    | ((imm & 0x1000) << 19) | ((imm & 0x7e0) << 20) | ((imm & 0x1e) << 7) | ((imm & 0x800) >> 4)
  }

  function EncodeU(imm: word, rest: word): word {
    (rest & 0x0000_0fff) | (imm & 0xffff_f000)
  }

  function EncodeJ(imm: word, rest: word): word {
    (rest & 0x0000_0fff)
    | ((imm & 0x10_0000) << 11) | ((imm & 0x7fe) << 20) | ((imm & 0x800) << 9) | (imm & 0xf_f000)
  }

  // The bits of imm that each format can hold

  predicate FitsI(imm: word) {
    imm & 0xffff_f000 == 0
  }

  predicate FitsB(imm: word) {
    imm & 0xffff_e001 == 0
  }

  predicate FitsU(imm: word) {
    imm & 0x0000_0fff == 0
  }

  predicate FitsJ(imm: word) {
    imm & 0xffe0_0001 == 0
  }

  lemma PatternOfEncodingI(imm: word, rest: word)
    requires FitsI(imm)
    ensures PatternI(EncodeI(imm, rest)) == imm
  {}

  lemma PatternOfEncodingS(imm: word, rest: word)
    requires FitsI(imm)
    ensures PatternS(EncodeS(imm, rest)) == imm
  {}

  lemma PatternOfEncodingB(imm: word, rest: word)
    requires FitsB(imm)
    ensures PatternB(EncodeB(imm, rest)) == imm
  {}

  lemma PatternOfEncodingU(imm: word, rest: word)
    requires FitsU(imm)
    ensures PatternU(EncodeU(imm, rest)) == imm
  {}

  lemma PatternOfEncodingJ(imm: word, rest: word)
    requires FitsJ(imm)
    ensures PatternJ(EncodeJ(imm, rest)) == imm
  {}

  // Re-encoding a decoded pattern restores the whole word.

  lemma EncodingOfPatternI(inst: word)
    ensures FitsI(PatternI(inst)) && EncodeI(PatternI(inst), inst) == inst
  {}

  lemma EncodingOfPatternS(inst: word)
    ensures FitsI(PatternS(inst)) && EncodeS(PatternS(inst), inst) == inst
  {}

  lemma EncodingOfPatternB(inst: word)
    ensures FitsB(PatternB(inst)) && EncodeB(PatternB(inst), inst) == inst
  {}

  lemma EncodingOfPatternU(inst: word)
    ensures FitsU(PatternU(inst)) && EncodeU(PatternU(inst), inst) == inst
  {}

  lemma EncodingOfPatternJ(inst: word)
    ensures FitsJ(PatternJ(inst)) && EncodeJ(PatternJ(inst), inst) == inst
  {}

  // Clear low bits of a pattern make its value a multiple.

  lemma HalfOf(imm: word) returns (half: word)
    requires imm & 1 == 0
    ensures half < 0x8000_0000 && imm == half << 1
  {
    half := imm >> 1;
  }

  lemma Doubled(imm: word, half: word)
    requires half < 0x8000_0000 && imm == half << 1
    ensures imm as int == 2 * (half as int)
  {}

  lemma EvenPattern(imm: word) returns (half: nat)
    requires imm & 1 == 0
    ensures imm as int == half * 2
  {
    var h := HalfOf(imm);
    Doubled(imm, h);
    half := h as int;
  }

  lemma PageOf(imm: word) returns (page: word)
    requires imm & 0xfff == 0
    ensures page < 0x10_0000 && imm == page << 12
  {
    page := imm >> 12;
  }

  lemma PageShifted(imm: word, page: word)
    requires page < 0x10_0000 && imm == page << 12
    ensures imm as int == 4096 * (page as int)
  {}

  lemma PagePattern(imm: word) returns (page: nat)
    requires imm & 0xfff == 0
    ensures imm as int == page * 4096
  {
    var p := PageOf(imm);
    PageShifted(imm, p);
    page := p as int;
  }

  lemma LowBitsB(inst: word)
    ensures PatternB(inst) & 1 == 0
  {}

  lemma AlignedB(inst: word) returns (u: uint64, half: nat)
    ensures ImmB(inst) == Sext(u, 13) && u == half * 2
  {
    LowBitsB(inst);
    half := EvenPattern(PatternB(inst));
    u := PatternB(inst) as int;
  }

  lemma LowBitsJ(inst: word)
    ensures PatternJ(inst) & 1 == 0
  {}

  lemma AlignedJ(inst: word) returns (u: uint64, half: nat)
    ensures ImmJ(inst) == Sext(u, 21) && u == half * 2
  {
    LowBitsJ(inst);
    half := EvenPattern(PatternJ(inst));
    u := PatternJ(inst) as int;
  }

  lemma LowBitsU(inst: word)
    ensures PatternU(inst) & 0xfff == 0
  {}

  lemma AlignedU(inst: word) returns (u: uint64, page: nat)
    ensures ImmU(inst) == Sext(u, 32) && u == page * 4096
  {
    u := ValueU(inst);
    LowBitsU(inst);
    page := PagePattern(PatternU(inst));
  }

  lemma ValueU(inst: word) returns (u: uint64)
    ensures u == PatternU(inst) as int && ImmU(inst) == Sext(u, 32)
  {
    u := PatternU(inst) as int;
  }

  lemma MultipleOfDivisor(a: nat, d: nat, k: nat)
    requires d > 0 && k > 0
    ensures d * k > 0 && (a * d) % (d * k) % d == 0 && ((a * d) % (d * k) - d * k) % d == 0
  {
    var r := a % k;
    ShiftLeftKeepsLow(a, d, k);
    assert r * d - d * k == (r - k) * d;
    DivModUnique(r * d, d, r, 0);
    DivModUnique((r - k) * d, d, r - k, 0);
  }

  /** Sign-extending a multiple of d gives a multiple of d in the signed range. */
  lemma AlignedValue(u: uint64, a: nat, d: nat, k: nat, h: int, w: nat)
    requires 1 <= w <= 64 && d > 0 && k > 0 && u == a * d
    requires Pow2(w) == d * k && Pow2(w - 1) == h
    ensures ToInt64(Sext(u, w)) % d == 0
    ensures -h <= ToInt64(Sext(u, w)) < h
  {
    SextValue(u, w);
    MultipleOfDivisor(a, d, k);
  }

  lemma AlignedValues(u: uint64, a: nat)
    ensures u == a * 2 ==> -0x1000 <= ToInt64(Sext(u, 13)) < 0x1000 && ToInt64(Sext(u, 13)) % 2 == 0
    ensures u == a * 2 ==> -0x10_0000 <= ToInt64(Sext(u, 21)) < 0x10_0000 && ToInt64(Sext(u, 21)) % 2 == 0
    ensures u == a * 4096 ==> -0x8000_0000 <= ToInt64(Sext(u, 32)) < 0x8000_0000 && ToInt64(Sext(u, 32)) % 4096 == 0
  {
    Pow2Constants();
    if u == a * 2 {
      AlignedValue(u, a, 2, 0x1000, 0x1000, 13);
      AlignedValue(u, a, 2, 0x10_0000, 0x10_0000, 21);
    }
    if u == a * 4096 {
      AlignedValue(u, a, 4096, 0x10_0000, 0x8000_0000, 32);
    }
  }

  // Every immediate decodes to its signed value, whatever the other fields hold; the decoded value
  // has its format's range and alignment; and it determines the immediate's bits of the word.

  lemma DecodeI(imm: word, rest: word)
    requires FitsI(imm)
    ensures ToInt64(ImmI(EncodeI(imm, rest))) == TwosComplement(imm as int, 12)
  {
    PatternOfEncodingI(imm, rest);
    SextValue(imm as int, 12);
  }

  lemma RangeI(inst: word)
    ensures -0x800 <= ToInt64(ImmI(inst)) < 0x800
  {
    Pow2Constants();
    SextValue(PatternI(inst) as int, 12);
  }

  lemma DecodeS(imm: word, rest: word)
    requires FitsI(imm)
    ensures ToInt64(ImmS(EncodeS(imm, rest))) == TwosComplement(imm as int, 12)
  {
    PatternOfEncodingS(imm, rest);
    SextValue(imm as int, 12);
  }

  lemma RangeS(inst: word)
    ensures -0x800 <= ToInt64(ImmS(inst)) < 0x800
  {
    Pow2Constants();
    SextValue(PatternS(inst) as int, 12);
  }

  lemma DecodeB(imm: word, rest: word)
    requires FitsB(imm)
    ensures ToInt64(ImmB(EncodeB(imm, rest))) == TwosComplement(imm as int, 13)
  {
    PatternOfEncodingB(imm, rest);
    SextValue(imm as int, 13);
  }

  lemma RangeB(inst: word)
    ensures -0x1000 <= ToInt64(ImmB(inst)) < 0x1000 && ToInt64(ImmB(inst)) % 2 == 0
  {
    hide ImmB;
    var u, half := AlignedB(inst);
    AlignedValues(u, half);
  }

  lemma DecodeU(imm: word, rest: word)
    requires FitsU(imm)
    ensures ToInt64(ImmU(EncodeU(imm, rest))) == TwosComplement(imm as int, 32)
  {
    PatternOfEncodingU(imm, rest);
    SextValue(imm as int, 32);
  }

  lemma RangeU(inst: word)
    ensures -0x8000_0000 <= ToInt64(ImmU(inst)) < 0x8000_0000 && ToInt64(ImmU(inst)) % 4096 == 0
  {
    hide ImmU;
    var u, page := AlignedU(inst);
    AlignedValues(u, page);
  }

  lemma DecodeJ(imm: word, rest: word)
    requires FitsJ(imm)
    ensures ToInt64(ImmJ(EncodeJ(imm, rest))) == TwosComplement(imm as int, 21)
  {
    PatternOfEncodingJ(imm, rest);
    SextValue(imm as int, 21);
  }

  lemma RangeJ(inst: word)
    ensures -0x10_0000 <= ToInt64(ImmJ(inst)) < 0x10_0000 && ToInt64(ImmJ(inst)) % 2 == 0
  {
    hide ImmJ;
    var u, half := AlignedJ(inst);
    AlignedValues(u, half);
  }

  // Both directions: a signed immediate placed by its two's complement bits decodes to itself, and
  // the decoded value's own bits, placed again, give back the word.

  lemma SextLow(v: uint64, w: nat)
    requires 1 <= w <= 64 && v < Pow2(w)
    ensures ToInt64(Sext(v, w)) % Pow2(w) == v
  {
    hide Sext, ToInt64;
    SextValue(v, w);
    DivModUnique(v, Pow2(w), 0, v);
    if TwosComplement(v, w) < 0 {
      DivModUnique(TwosComplement(v, w), Pow2(w), -1, v);
    }
  }

  lemma PatternsFit(inst: word)
    ensures PatternI(inst) < 0x1000 && PatternS(inst) < 0x1000 && PatternB(inst) < 0x2000 && PatternJ(inst) < 0x20_0000
  {}

  function Push(half: word, bit: nat): word {
    if bit == 1 then (half << 1) | 1 else half << 1
  }

  /** The word with these bits, written from the highest down. */
  function Word(n: nat): word {
    if n == 0 then 0 else Push(Word(n / 2), n % 2)
  }

  lemma Odd(imm: word, half: word)
    requires half < 0x8000_0000 && imm == (half << 1) | 1
    ensures imm as int == 2 * (half as int) + 1
  {}

  lemma HalfBelow(half: word)
    requires half as int < 0x8000_0000
    ensures half < 0x8000_0000
  {}

  lemma PushIs(half: word, bit: nat)
    requires half as int < 0x8000_0000 && bit < 2
    ensures Push(half, bit) as int == 2 * (half as int) + bit
  {
    HalfBelow(half);
    if bit == 1 {
      Odd(Push(half, bit), half);
    } else {
      Doubled(Push(half, bit), half);
    }
  }

  lemma Zero()
    ensures (0 as word) as int == 0 && Push(0, 0) == 0
  {}

  lemma WordStep(n: nat)
    ensures Word(n) == Push(Word(n / 2), n % 2)
  {
    hide Push;
    Zero();
  }

  lemma {:induction false} WordIs(n: nat)
    requires n < 0x1_0000_0000
    ensures Word(n) as int == n
    decreases n
  {
    hide Push;
    Zero();
    if n > 0 {
      WordIs(n / 2);
      PushIs(Word(n / 2), n % 2);
    }
  }

  lemma FittingI(imm: word)
    requires imm as int < 0x1000
    ensures FitsI(imm)
  {}

  lemma EvenFits(imm: word, half: word)
    requires imm == Push(half, 0)
    ensures imm as int < 0x2000 ==> FitsB(imm)
    ensures imm as int < 0x20_0000 ==> FitsJ(imm)
  {
    if imm as int < 0x20_0000 {
      Below21(imm);
    }
    if imm as int < 0x2000 {
      Below13(imm);
    }
  }

  lemma Below13(imm: word)
    requires imm as int < 0x2000
    ensures imm < 0x2000
  {}

  lemma Below21(imm: word)
    requires imm as int < 0x20_0000
    ensures imm < 0x20_0000
  {}

  lemma Fitting(n: nat)
    requires n < 0x20_0000 && n % 2 == 0
    ensures n < 0x2000 ==> FitsB(Word(n))
    ensures FitsJ(Word(n))
  {
    hide FitsB, FitsJ, Word, Push;
    WordIs(n);
    WordStep(n);
    EvenFits(Word(n), Word(n / 2));
  }

  /** Twelve zeros behind. */
  function Page(x: word): word {
    Push(Push(Push(Push(Push(Push(Push(Push(Push(Push(Push(Push(x, 0), 0), 0), 0), 0), 0), 0), 0), 0), 0), 0), 0)
  }

  lemma PageFits(x: word)
    ensures FitsU(Page(x))
  {}

  lemma WordOfDouble(n: nat)
    ensures Word(2 * n) == Push(Word(n), 0)
  {
    hide Push, Word;
    WordStep(2 * n);
  }

  lemma FittingU(n: nat)
    requires n % 4096 == 0
    ensures FitsU(Word(n))
  {
    hide FitsU, Word, Push;
    var k := n / 4096;
    WordOfDouble(k);
    WordOfDouble(2 * k);
    WordOfDouble(4 * k);
    WordOfDouble(8 * k);
    WordOfDouble(16 * k);
    WordOfDouble(32 * k);
    WordOfDouble(64 * k);
    WordOfDouble(128 * k);
    WordOfDouble(256 * k);
    WordOfDouble(512 * k);
    WordOfDouble(1024 * k);
    WordOfDouble(2048 * k);
    PageFits(Word(k));
  }

  lemma Residues(i: int)
    ensures i % 2 == 0 ==> i % 0x2000 % 2 == 0 && i % 0x20_0000 % 2 == 0
    ensures i % 4096 == 0 ==> i % 0x1_0000_0000 % 4096 == 0
  {
    Residue(i, 2, 0x1000);
    Residue(i, 2, 0x10_0000);
    Residue(i, 4096, 0x10_0000);
  }

  lemma Residue(i: int, d: nat, k: nat)
    requires d > 0 && k > 0
    ensures d * k > 0 && (i % d == 0 ==> i % (d * k) % d == 0)
  {
    var m := d * k;
    var r := i % m;
    if i % d == 0 {
      assert r == (i / d) * d - (i / m) * k * d == (i / d - (i / m) * k) * d;
      DivModUnique(r, d, i / d - (i / m) * k, 0);
    }
  }

  lemma SameWord(a: word, b: word)
    requires a as int == b as int
    ensures a == b
  {
    assert (a as int) as word == a && (b as int) as word == b;
  }

  lemma InvertsI(i: int, rest: word)
    requires -0x800 <= i < 0x800
    ensures ToInt64(ImmI(EncodeI(Word(i % 0x1000), rest))) == i
  {
    hide ImmI, EncodeI, FitsI, ToInt64, Word;
    Pow2Constants();
    SignedPattern(i, 12);
    WordIs(i % 0x1000);
    FittingI(Word(i % 0x1000));
    DecodeI(Word(i % 0x1000), rest);
  }

  lemma RestoresI(inst: word, imm: word)
    requires imm as int == ToInt64(ImmI(inst)) % 0x1000
    ensures EncodeI(imm, inst) == inst
  {
    hide PatternI, EncodeI, FitsI, ToInt64, Sext;
    Pow2Constants();
    PatternsFit(inst);
    SextLow(PatternI(inst) as int, 12);
    SameWord(imm, PatternI(inst));
    EncodingOfPatternI(inst);
  }

  lemma InvertsS(i: int, rest: word)
    requires -0x800 <= i < 0x800
    ensures ToInt64(ImmS(EncodeS(Word(i % 0x1000), rest))) == i
  {
    hide ImmS, EncodeS, FitsI, ToInt64, Word;
    Pow2Constants();
    SignedPattern(i, 12);
    WordIs(i % 0x1000);
    FittingI(Word(i % 0x1000));
    DecodeS(Word(i % 0x1000), rest);
  }

  lemma RestoresS(inst: word, imm: word)
    requires imm as int == ToInt64(ImmS(inst)) % 0x1000
    ensures EncodeS(imm, inst) == inst
  {
    hide PatternS, EncodeS, FitsI, ToInt64, Sext;
    Pow2Constants();
    PatternsFit(inst);
    SextLow(PatternS(inst) as int, 12);
    SameWord(imm, PatternS(inst));
    EncodingOfPatternS(inst);
  }

  lemma InvertsB(i: int, rest: word)
    requires -0x1000 <= i < 0x1000 && i % 2 == 0
    ensures ToInt64(ImmB(EncodeB(Word(i % 0x2000), rest))) == i
  {
    hide ImmB, EncodeB, FitsB, ToInt64, Word;
    Pow2Constants();
    Residues(i);
    SignedPattern(i, 13);
    WordIs(i % 0x2000);
    Fitting(i % 0x2000);
    DecodeB(Word(i % 0x2000), rest);
  }

  lemma RestoresB(inst: word, imm: word)
    requires imm as int == ToInt64(ImmB(inst)) % 0x2000
    ensures EncodeB(imm, inst) == inst
  {
    hide PatternB, EncodeB, FitsB, ToInt64, Sext;
    Pow2Constants();
    PatternsFit(inst);
    SextLow(PatternB(inst) as int, 13);
    SameWord(imm, PatternB(inst));
    EncodingOfPatternB(inst);
  }

  lemma InvertsU(i: int, rest: word)
    requires -0x8000_0000 <= i < 0x8000_0000 && i % 4096 == 0
    ensures ToInt64(ImmU(EncodeU(Word(i % 0x1_0000_0000), rest))) == i
  {
    hide ImmU, EncodeU, FitsU, ToInt64, Word;
    Pow2Constants();
    Residues(i);
    SignedPattern(i, 32);
    WordIs(i % 0x1_0000_0000);
    FittingU(i % 0x1_0000_0000);
    DecodeU(Word(i % 0x1_0000_0000), rest);
  }

  lemma RestoresU(inst: word, imm: word)
    requires imm as int == ToInt64(ImmU(inst)) % 0x1_0000_0000
    ensures EncodeU(imm, inst) == inst
  {
    hide PatternU, EncodeU, FitsU, ToInt64, Sext;
    Pow2Constants();
    PatternsFit(inst);
    SextLow(PatternU(inst) as int, 32);
    SameWord(imm, PatternU(inst));
    EncodingOfPatternU(inst);
  }

  lemma InvertsJ(i: int, rest: word)
    requires -0x10_0000 <= i < 0x10_0000 && i % 2 == 0
    ensures ToInt64(ImmJ(EncodeJ(Word(i % 0x20_0000), rest))) == i
  {
    hide ImmJ, EncodeJ, FitsJ, ToInt64, Word;
    Pow2Constants();
    Residues(i);
    SignedPattern(i, 21);
    WordIs(i % 0x20_0000);
    Fitting(i % 0x20_0000);
    DecodeJ(Word(i % 0x20_0000), rest);
  }

  lemma RestoresJ(inst: word, imm: word)
    requires imm as int == ToInt64(ImmJ(inst)) % 0x20_0000
    ensures EncodeJ(imm, inst) == inst
  {
    hide PatternJ, EncodeJ, FitsJ, ToInt64, Sext;
    Pow2Constants();
    PatternsFit(inst);
    SextLow(PatternJ(inst) as int, 21);
    SameWord(imm, PatternJ(inst));
    EncodingOfPatternJ(inst);
  }
}
