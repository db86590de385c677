/** The field GF(2^8) modulo x^8 + x^4 + x^3 + x^2 + 1 (0x11D) in which the error
    correction codewords of a QR symbol are computed.

    `ReedSolomonMultiply` is the shift-and-reduce loop of the encoder; `Mul` is the
    function it computes. The lemmas establish that (bv8, ^, Mul) is a field and that
    the powers 2^0 .. 2^254 are distinct. */
module Gf256 {

  type Byte = bv8

  function Add(a: Byte, b: Byte): Byte {
    a ^ b
  }

  /** Multiplication by x: shift, and reduce when the degree reaches 8. The five shifts
      of the top bit spell out its product with 0x11D, less the bit that drops out. */
  function Xtime(z: Byte): Byte {
    (z << 1) ^ (z >> 7) ^ ((z >> 7) << 2) ^ ((z >> 7) << 3) ^ ((z >> 7) << 4)
  }

  /** `y` shifted right by `i`; constant shift distances are what the solver handles. */
  function High(y: Byte, i: nat): Byte
    requires i <= 8
  {
    match i
    case 0 => y
    case 1 => y >> 1
    case 2 => y >> 2
    case 3 => y >> 3
    case 4 => y >> 4
    case 5 => y >> 5
    case 6 => y >> 6
    case 7 => y >> 7
    case _ => 0
  }

  /** Bit `i` of `y`. */
  predicate Bit(y: Byte, i: nat)
    requires i < 8
  {
    High(y, i) & 1 != 0
  }

  /** The accumulator after the `n` most significant bits of `y` are consumed. */
  function Horner(x: Byte, y: Byte, n: nat): Byte
    requires n <= 8
  {
    if n == 0 then 0
    else Add(Xtime(Horner(x, y, n - 1)), if Bit(y, 8 - n) then x else 0)
  }

  function Mul(x: Byte, y: Byte): Byte {
    Horner(x, y, 8)
  }

  // ---- The loop, on a register wide enough to see the bit shifted out ----

  /** z' = (z << 1) ^ ((z >> 7) * 0x11D). */
  function WideXtime(z: bv16): bv16 {
    (z << 1) ^ ((z >> 7) * 0x11D)
  }

  /** z' = z ^ (((y >> i) & 1) * x). */
  function WideAdd(z: bv16, bit: bool, x: Byte): bv16 {
    z ^ ((if bit then 1 else 0) * x as bv16)
  }

  predicate Narrow(z: bv16) {
    z >> 8 == 0
  }

  function LowByte(z: bv16): Byte
    requires Narrow(z)
  {
    z as bv8
  }

  lemma WideXtimeReduces(z: bv16)
    requires Narrow(z)
    ensures Narrow(WideXtime(z)) && LowByte(WideXtime(z)) == Xtime(LowByte(z))
  {
  }

  lemma WideAddXors(z: bv16, bit: bool, x: Byte)
    requires Narrow(z)
    ensures Narrow(WideAdd(z, bit, x))
    ensures LowByte(WideAdd(z, bit, x)) == Add(LowByte(z), if bit then x else 0)
  {
  }

  lemma ZeroIsNarrow()
    ensures Narrow(0) && LowByte(0) == 0
  {
  }

  method ReedSolomonMultiply(x: Byte, y: Byte) returns (r: Byte)
    ensures r == Mul(x, y)
  {
    hide Xtime, Add, Bit, WideXtime, WideAdd, Narrow, LowByte;
    ZeroIsNarrow();
    var z: bv16 := 0;
    var i := 8;
    while i > 0
      invariant 0 <= i <= 8
      invariant Narrow(z) && LowByte(z) == Horner(x, y, 8 - i)
    {
      i := i - 1;
      WideXtimeReduces(z);
      z := WideXtime(z);
      WideAddXors(z, Bit(y, i), x);
      z := WideAdd(z, Bit(y, i), x);
    }
    r := LowByte(z);
  }

  // ---- Addition ----

  lemma AddLaws(a: Byte, b: Byte, c: Byte)
    ensures Add(a, b) == Add(b, a)
    ensures Add(Add(a, b), c) == Add(a, Add(b, c))
    ensures Add(a, 0) == a == Add(0, a)
    ensures Add(a, a) == 0
  {
  }

  lemma AddSwap(a: Byte, b: Byte, c: Byte, d: Byte)
    ensures Add(Add(a, b), Add(c, d)) == Add(Add(a, c), Add(b, d))
  {
    hide Add;
    AddLaws(a, b, Add(c, d));
    AddLaws(b, c, d);
    AddLaws(c, b, d);
    AddLaws(a, c, Add(b, d));
  }

  lemma AddCancel(a: Byte, b: Byte)
    ensures Add(a, b) == 0 <==> a == b
    ensures Add(Add(a, b), b) == a
  {
  }

  // ---- Linearity of the loop in each operand ----

  lemma XtimeAdd(a: Byte, b: Byte)
    ensures Xtime(Add(a, b)) == Add(Xtime(a), Xtime(b))
    ensures Xtime(0) == 0
  {
  }

  lemma {:induction false} HornerZero(y: Byte, n: nat)
    requires n <= 8
    ensures Horner(0, y, n) == 0
  {
    hide Xtime, Add, Bit;
    if n > 0 {
      HornerZero(y, n - 1);
      XtimeAdd(0, 0);
      AddLaws(0, 0, 0);
    }
  }

  lemma {:induction false} HornerAddLeft(a: Byte, b: Byte, y: Byte, n: nat)
    requires n <= 8
    ensures Horner(Add(a, b), y, n) == Add(Horner(a, y, n), Horner(b, y, n))
  {
    hide Xtime, Add, Bit;
    AddLaws(0, 0, 0);
    if n > 0 {
      HornerAddLeft(a, b, y, n - 1);
      var p, q := Horner(a, y, n - 1), Horner(b, y, n - 1);
      XtimeAdd(p, q);
      var bit := Bit(y, 8 - n);
      AddSwap(Xtime(p), Xtime(q), if bit then a else 0, if bit then b else 0);
    }
  }

  lemma BitAdd(a: Byte, b: Byte, i: nat)
    requires i < 8
    ensures Bit(Add(a, b), i) == (Bit(a, i) != Bit(b, i))
  {
    match i
    case 0 => case 1 => case 2 => case 3 => case 4 => case 5 => case 6 => case _ =>
  }

  lemma {:induction false} HornerAddRight(x: Byte, a: Byte, b: Byte, n: nat)
    requires n <= 8
    ensures Horner(x, Add(a, b), n) == Add(Horner(x, a, n), Horner(x, b, n))
  {
    hide Xtime, Add, Bit;
    AddLaws(0, 0, 0);
    if n > 0 {
      HornerAddRight(x, a, b, n - 1);
      var p, q := Horner(x, a, n - 1), Horner(x, b, n - 1);
      XtimeAdd(p, q);
      BitAdd(a, b, 8 - n);
      AddSwap(Xtime(p), Xtime(q), if Bit(a, 8 - n) then x else 0, if Bit(b, 8 - n) then x else 0);
      AddLaws(x, 0, 0);
    }
  }

  lemma {:induction false} HornerXtime(x: Byte, y: Byte, n: nat)
    requires n <= 8
    ensures Horner(Xtime(x), y, n) == Xtime(Horner(x, y, n))
  {
    hide Xtime, Add, Bit;
    XtimeAdd(0, 0);
    if n > 0 {
      HornerXtime(x, y, n - 1);
      XtimeAdd(Xtime(Horner(x, y, n - 1)), if Bit(y, 8 - n) then x else 0);
    }
  }

  /** Multiplying by `y` commutes with running the loop on `x`. */
  lemma {:induction false} HornerMul(a: Byte, x: Byte, y: Byte, n: nat)
    requires n <= 8
    ensures Mul(Horner(a, x, n), y) == Horner(Mul(a, y), x, n)
  {
    hide Xtime, Add, Bit, Mul;
    MulIsHorner(0, y);
    HornerZero(y, 8);
    if n > 0 {
      HornerMul(a, x, y, n - 1);
      var z := Horner(a, x, n - 1);
      var c := if Bit(x, 8 - n) then a else 0;
      MulAddLeft(Xtime(z), c, y);
      MulIsHorner(Xtime(z), y);
      MulIsHorner(z, y);
      HornerXtime(z, y, 8);
    }
  }

  lemma MulIsHorner(x: Byte, y: Byte)
    ensures Mul(x, y) == Horner(x, y, 8)
  {
    hide Horner;
  }

  // ---- Field laws ----

  lemma MulAddLeft(a: Byte, b: Byte, y: Byte)
    ensures Mul(Add(a, b), y) == Add(Mul(a, y), Mul(b, y))
  {
    hide Horner, Add;
    HornerAddLeft(a, b, y, 8);
  }

  lemma MulAddRight(x: Byte, a: Byte, b: Byte)
    ensures Mul(x, Add(a, b)) == Add(Mul(x, a), Mul(x, b))
  {
    hide Horner, Add;
    HornerAddRight(x, a, b, 8);
  }

  lemma {:induction false} HornerOne(y: Byte, n: nat)
    requires n <= 8
    ensures Horner(1, y, n) == High(y, 8 - n)
  {
    hide Xtime, Add, Bit, High;
    HighStep(y, n);
    if n > 0 {
      HornerOne(y, n - 1);
    }
  }

  lemma HighStep(y: Byte, n: nat)
    requires n <= 8
    ensures High(y, 8) == 0 && High(y, 0) == y
    ensures n > 0 ==> Add(Xtime(High(y, 9 - n)), if Bit(y, 8 - n) then 1 else 0) == High(y, 8 - n)
  {
    match n
    case 0 => case 1 => case 2 => case 3 => case 4 => case 5 => case 6 => case 7 => case _ =>
  }

  lemma MulUnits(x: Byte)
    ensures Mul(1, x) == x == Mul(x, 1)
    ensures Mul(0, x) == 0 == Mul(x, 0)
  {
    hide Horner;
    HornerOne(x, 8);
    HighStep(x, 8);
    HornerZero(x, 8);
    MulCommutes(1, x);
    MulCommutes(0, x);
  }

  lemma MulRightSwap(a: Byte, x: Byte, y: Byte)
    ensures Mul(Mul(a, x), y) == Mul(Mul(a, y), x)
  {
    hide Horner;
    HornerMul(a, x, y, 8);
  }

  lemma MulCommutes(x: Byte, y: Byte)
    ensures Mul(x, y) == Mul(y, x)
  {
    hide Horner;
    HornerOne(x, 8);
    HighStep(x, 8);
    HornerOne(y, 8);
    HighStep(y, 8);
    MulRightSwap(1, x, y);
  }

  lemma MulAssociates(a: Byte, b: Byte, c: Byte)
    ensures Mul(Mul(a, b), c) == Mul(a, Mul(b, c))
  {
    hide Mul;
    MulRightSwap(b, a, c);
    MulCommutes(a, b);
    MulCommutes(a, Mul(b, c));
  }

  // ---- No zero divisors ----

  /** `Mul` with its eight steps written out. */
  function Flat(x: Byte, y: Byte): Byte {
    var z1 := if y & 0x80 != 0 then x else 0;
    var z2 := Add(Xtime(z1), if y & 0x40 != 0 then x else 0);
    var z3 := Add(Xtime(z2), if y & 0x20 != 0 then x else 0);
    var z4 := Add(Xtime(z3), if y & 0x10 != 0 then x else 0);
    var z5 := Add(Xtime(z4), if y & 0x08 != 0 then x else 0);
    var z6 := Add(Xtime(z5), if y & 0x04 != 0 then x else 0);
    var z7 := Add(Xtime(z6), if y & 0x02 != 0 then x else 0);
    Add(Xtime(z7), if y & 0x01 != 0 then x else 0)
  }

  lemma BitMask(y: Byte)
    ensures Bit(y, 7) == (y & 0x80 != 0) && Bit(y, 6) == (y & 0x40 != 0)
    ensures Bit(y, 5) == (y & 0x20 != 0) && Bit(y, 4) == (y & 0x10 != 0)
    ensures Bit(y, 3) == (y & 0x08 != 0) && Bit(y, 2) == (y & 0x04 != 0)
    ensures Bit(y, 1) == (y & 0x02 != 0) && Bit(y, 0) == (y & 0x01 != 0)
  {
  }

  lemma HornerStep(x: Byte, y: Byte, n: nat)
    requires 1 <= n <= 8
    ensures Horner(x, y, n) == Add(Xtime(Horner(x, y, n - 1)), if Bit(y, 8 - n) then x else 0)
    ensures n == 1 ==> Horner(x, y, n) == if Bit(y, 7) then x else 0
  {
    hide Add, Xtime, Bit;
    if n == 1 {
      XtimeAdd(0, 0);
      AddLaws(x, 0, 0);
      AddLaws(0, 0, 0);
    }
  }

  lemma MulIsFlat(x: Byte, y: Byte)
    ensures Mul(x, y) == Flat(x, y)
  {
    hide Add, Xtime, Bit, Horner;
    BitMask(y);
    HornerStep(x, y, 1); HornerStep(x, y, 2); HornerStep(x, y, 3); HornerStep(x, y, 4);
    HornerStep(x, y, 5); HornerStep(x, y, 6); HornerStep(x, y, 7); HornerStep(x, y, 8);
  }

  // 0x11D is irreducible: checked on odd operands, by the top bit of `y`.

  lemma OddProductTop(x: Byte, y: Byte)
    requires x & 1 == 1 && y & 0x81 == 0x81
    ensures Flat(x, y) != 0
  {
  }

  lemma OddProductLow(x: Byte, y: Byte)
    requires x & 1 == 1 && y & 0x81 == 1
    ensures Flat(x, y) != 0
  {
  }

  lemma Halve(y: Byte)
    requires y & 1 == 0
    ensures Xtime(y >> 1) == y
    ensures y != 0 ==> 0 != y >> 1 < y
    ensures y & 1 == 0 <==> !(y & 1 == 1)
  {
  }

  lemma OddCases(y: Byte)
    ensures y & 1 == 0 || y & 1 == 1
    ensures y & 1 == 1 ==> y & 0x81 == 0x81 || y & 0x81 == 1
  {
  }

  lemma XtimeInjective(z: Byte)
    requires Xtime(z) == 0
    ensures z == 0
  {
  }

  lemma MulXtime(x: Byte, y: Byte)
    ensures Mul(Xtime(x), y) == Xtime(Mul(x, y))
    ensures Mul(x, Xtime(y)) == Xtime(Mul(x, y))
  {
    hide Horner, Xtime;
    HornerXtime(x, y, 8);
    HornerXtime(y, x, 8);
    MulCommutes(x, Xtime(y));
    MulCommutes(x, y);
  }

  lemma {:induction false} NoZeroDivisors(x: Byte, y: Byte)
    requires x != 0 && y != 0
    ensures Mul(x, y) != 0
    decreases x as int + y as int
  {
    hide Mul, Flat, Xtime;
    OddCases(x);
    OddCases(y);
    if x & 1 == 0 {
      Halve(x);
      NoZeroDivisors(x >> 1, y);
      MulXtime(x >> 1, y);
      if Xtime(Mul(x >> 1, y)) == 0 { XtimeInjective(Mul(x >> 1, y)); }
    } else if y & 1 == 0 {
      Halve(y);
      NoZeroDivisors(x, y >> 1);
      MulXtime(x, y >> 1);
      if Xtime(Mul(x, y >> 1)) == 0 { XtimeInjective(Mul(x, y >> 1)); }
    } else {
      MulIsFlat(x, y);
      if y & 0x81 == 1 { OddProductLow(x, y); } else { OddProductTop(x, y); }
    }
  }

  // ---- Powers of the generator 2 ----

  /** 2^k. */
  function Root(k: nat): Byte {
    if k == 0 then 1 else Mul(Root(k - 1), 2)
  }

  lemma MulTwo(x: Byte)
    ensures Mul(x, 2) == Xtime(x)
  {
    hide Mul;
    MulCommutes(x, 2);
    MulXtime(1, x);
    MulUnits(x);
    assert Xtime(1) == 2;
  }

  lemma {:induction false} RootAdd(a: nat, b: nat)
    ensures Root(a + b) == Mul(Root(a), Root(b))
  {
    hide Mul;
    if b == 0 {
      MulUnits(Root(a));
    } else {
      RootAdd(a, b - 1);
      MulAssociates(Root(a), Root(b - 1), 2);
    }
  }

  lemma {:induction false} RootNonZero(k: nat)
    ensures Root(k) != 0
  {
    hide Mul;
    if k > 0 {
      RootNonZero(k - 1);
      NoZeroDivisors(Root(k - 1), 2);
    }
  }

  lemma RootSeventeen()
    ensures Root(15) == 0x26 && Root(17) == 0x98
  {
    hide Mul, Xtime;
    MulTwo(Root(0)); MulTwo(Root(1)); MulTwo(Root(2)); MulTwo(Root(3)); MulTwo(Root(4));
    MulTwo(Root(5)); MulTwo(Root(6)); MulTwo(Root(7)); MulTwo(Root(8)); MulTwo(Root(9));
    MulTwo(Root(10)); MulTwo(Root(11)); MulTwo(Root(12)); MulTwo(Root(13)); MulTwo(Root(14));
    MulTwo(Root(15)); MulTwo(Root(16));
    XtimeChain();
  }

  lemma XtimeChain()
    ensures Xtime(1) == 2 && Xtime(2) == 4 && Xtime(4) == 8 && Xtime(8) == 0x10
    ensures Xtime(0x10) == 0x20 && Xtime(0x20) == 0x40 && Xtime(0x40) == 0x80
    ensures Xtime(0x80) == 0x1D && Xtime(0x1D) == 0x3A && Xtime(0x3A) == 0x74
    ensures Xtime(0x74) == 0xE8 && Xtime(0xE8) == 0xCD && Xtime(0xCD) == 0x87
    ensures Xtime(0x87) == 0x13 && Xtime(0x13) == 0x26 && Xtime(0x26) == 0x4C
    ensures Xtime(0x4C) == 0x98
  {
  }

  lemma RootLandmarks()
    ensures Root(15) != 1 && Root(51) != 1 && Root(85) != 1 && Root(255) == 1
  {
    hide Mul, Root;
    RootSeventeen();
    ProductTable();
    RootAdd(17, 17);
    RootAdd(34, 17);
    RootAdd(34, 51);
    RootAdd(85, 85);
    RootAdd(170, 85);
  }

  lemma ProductTable()
    ensures Mul(0x98, 0x98) == 0x4E && Mul(0x4E, 0x98) == 0x0A && Mul(0x4E, 0x0A) == 0xD6
    ensures Mul(0xD6, 0xD6) == 0xD7 && Mul(0xD7, 0xD6) == 1
  {
    hide Mul, Flat;
    MulIsFlat(0x98, 0x98);
    MulIsFlat(0x4E, 0x98);
    MulIsFlat(0x4E, 0x0A);
    MulIsFlat(0xD6, 0xD6);
    MulIsFlat(0xD7, 0xD6);
    FlatTable();
  }

  lemma FlatTable()
    ensures Flat(0x98, 0x98) == 0x4E && Flat(0x4E, 0x98) == 0x0A && Flat(0x4E, 0x0A) == 0xD6
    ensures Flat(0xD6, 0xD6) == 0xD7 && Flat(0xD7, 0xD6) == 1
  {
  }

  /** If 2^k = 1 then 2^(k*m) = 1. */
  lemma {:induction false} RootMultiple(k: nat, m: nat)
    requires Root(k) == 1
    ensures k * m >= 0 && Root(k * m) == 1
  {
    hide Mul;
    if m > 0 {
      RootMultiple(k, m - 1);
      RootAdd(k, k * (m - 1));
      MulUnits(1);
      assert k + k * (m - 1) == k * m;
    }
  }

  /** If 2^a = 2^b = 1 then 2^(a mod b) = 1. */
  lemma RootModulo(a: nat, b: nat)
    requires b > 0 && Root(a) == 1 && Root(b) == 1
    ensures Root(a % b) == 1
  {
    hide Mul, Root;
    RootMultiple(b, a / b);
    RootAdd(b * (a / b), a % b);
    MulUnits(Root(a % b));
  }

  /** No positive exponent below 255 reaches 1. */
  lemma {:induction false} NoSmallerOrder(k: nat)
    requires 0 < k < 255
    ensures Root(k) != 1
  {
    hide Mul, Root;
    if Root(k) == 1 {
      RootLandmarks();
      RootModulo(255, k);
      if 255 % k != 0 {
        NoSmallerOrder(255 % k);
      } else {
        var m := DivisorOf255(k);
        RootMultiple(k, m);
      }
    }
  }

  /** The order of 2 is 255: exactly the multiples of 255 are exponents that reach 1. */
  lemma RootOrder(k: nat)
    ensures Root(k) == 1 <==> k % 255 == 0
  {
    hide Mul, Root;
    RootLandmarks();
    RootMultiple(255, k / 255);
    if Root(k) == 1 && k % 255 != 0 {
      RootModulo(k, 255);
      NoSmallerOrder(k % 255);
    }
  }

  /** 255 = 3 * 5 * 17. */
  lemma SmallFactor(a: nat, b: nat)
    requires 1 <= a <= 16 && a * b == 255
    ensures (a == 1 && b == 255) || (a == 3 && b == 85) || (a == 5 && b == 51) || (a == 15 && b == 17)
  {
    match a
    case 1 => case 2 => case 3 => case 4 => case 5 => case 6 => case 7 => case 8 =>
    case 9 => case 10 => case 11 => case 12 => case 13 => case 14 => case 15 => case _ =>
  }

  /** A proper divisor of 255 divides 15, 51 or 85. */
  lemma DivisorOf255(k: nat) returns (m: nat)
    requires 0 < k < 255 && 255 % k == 0
    ensures k * m == 15 || k * m == 51 || k * m == 85
  {
    var q := 255 / k;
    assert k * q == 255;
    if k <= 16 {
      SmallFactor(k, q);
      m := if k == 1 then 15 else if k == 3 then 5 else if k == 5 then 3 else 1;
    } else {
      assert (k - 17) * q >= 0;
      SmallFactor(q, k);
      m := if k == 17 then 3 else 1;
    }
  }

  /** The evaluation points of a block of at most 255 codewords are distinct. */
  lemma RootsDistinct(a: nat, b: nat)
    requires a < b < 255
    ensures Root(a) != Root(b)
  {
    hide Mul, Root;
    if Root(a) == Root(b) {
      RootAdd(a, b - a);
      RootNonZero(a);
      MulUnits(Root(a));
      MulCancel(Root(a), Root(b - a), 1);
      NoSmallerOrder(b - a);
    }
  }

  lemma MulCancel(a: Byte, x: Byte, y: Byte)
    requires a != 0 && Mul(a, x) == Mul(a, y)
    ensures x == y
  {
    hide Mul, Add;
    MulAddRight(a, x, y);
    AddCancel(Mul(a, x), Mul(a, y));
    AddCancel(x, y);
    if Add(x, y) != 0 { NoZeroDivisors(a, Add(x, y)); }
  }
}
