/** Reed-Solomon error correction over GF(2^8): the generator polynomial, the division
    that yields the error correction codewords, and what those codewords are for. */
module ReedSolomon {
  import opened Gf256
  import opened Results
  import opened Sizes

  /** Coefficients from the highest to the lowest power. */
  type Poly = seq<Byte>

  function Eval(p: Poly, x: Byte): Byte {
    if p == [] then 0 else Add(Mul(Eval(p[..|p| - 1], x), x), p[|p| - 1])
  }

  function Zeros(n: nat): (p: Poly)
    ensures |p| == n && forall i :: 0 <= i < n ==> p[i] == 0
  {
    seq(n, i => 0)
  }

  function Sum(p: Poly, q: Poly): (s: Poly)
    requires |p| == |q|
    ensures |s| == |p| && forall i :: 0 <= i < |s| ==> s[i] == Add(p[i], q[i])
  {
    seq(|p|, i requires 0 <= i < |p| => Add(p[i], q[i]))
  }

  function Scale(p: Poly, f: Byte): (s: Poly)
    ensures |s| == |p| && forall i :: 0 <= i < |s| ==> s[i] == Mul(p[i], f)
  {
    seq(|p|, i requires 0 <= i < |p| => Mul(p[i], f))
  }

  /** The schoolbook product. */
  function Product(q: Poly, g: Poly): (p: Poly)
    requires |g| > 0
    ensures |p| == |q| + |g| - 1
  {
    if q == [] then Zeros(|g| - 1)
    else
      var n := |q| - 1;
      Sum(Product(q[..n], g) + [0], Zeros(n) + Scale(g, q[n]))
  }

  // ---- Evaluation respects the operations ----

  lemma EvalAppend(p: Poly, c: Byte, x: Byte)
    ensures Eval(p + [c], x) == Add(Mul(Eval(p, x), x), c)
  {
    hide Mul, Add;
    assert (p + [c])[..|p|] == p;
  }

  lemma {:induction false} EvalZeros(n: nat, x: Byte)
    ensures Eval(Zeros(n), x) == 0
  {
    hide Mul, Add;
    if n > 0 {
      assert Zeros(n)[..n - 1] == Zeros(n - 1);
      EvalZeros(n - 1, x);
      MulUnits(x);
      AddLaws(0, 0, 0);
    }
  }

  lemma {:induction false} EvalZerosThen(n: nat, p: Poly, x: Byte)
    ensures Eval(Zeros(n) + p, x) == Eval(p, x)
  {
    hide Mul, Add;
    if p == [] {
      assert Zeros(n) + p == Zeros(n);
      EvalZeros(n, x);
    } else {
      var k := |p| - 1;
      EvalZerosThen(n, p[..k], x);
      assert (Zeros(n) + p)[..n + k] == Zeros(n) + p[..k];
    }
  }

  lemma {:induction false} EvalSum(p: Poly, q: Poly, x: Byte)
    requires |p| == |q|
    ensures Eval(Sum(p, q), x) == Add(Eval(p, x), Eval(q, x))
  {
    hide Mul, Add;
    if p == [] {
      AddLaws(0, 0, 0);
    } else {
      var k := |p| - 1;
      assert Sum(p, q)[..k] == Sum(p[..k], q[..k]);
      EvalSum(p[..k], q[..k], x);
      MulAddLeft(Eval(p[..k], x), Eval(q[..k], x), x);
      AddSwap(Mul(Eval(p[..k], x), x), Mul(Eval(q[..k], x), x), p[k], q[k]);
    }
  }

  lemma {:induction false} EvalScale(p: Poly, f: Byte, x: Byte)
    ensures Eval(Scale(p, f), x) == Mul(Eval(p, x), f)
  {
    hide Mul, Add;
    if p == [] {
      MulUnits(f);
    } else {
      var k := |p| - 1;
      assert Scale(p, f)[..k] == Scale(p[..k], f);
      EvalScale(p[..k], f, x);
      MulAddLeft(Mul(Eval(p[..k], x), x), p[k], f);
      MulRightSwap(Eval(p[..k], x), x, f);
    }
  }

  lemma {:induction false} EvalProduct(q: Poly, g: Poly, x: Byte)
    requires |g| > 0
    ensures Eval(Product(q, g), x) == Mul(Eval(q, x), Eval(g, x))
  {
    hide Mul, Add;
    if q == [] {
      EvalZeros(|g| - 1, x);
      MulUnits(Eval(g, x));
    } else {
      var n := |q| - 1;
      var u, c, e := Eval(q[..n], x), q[n], Eval(g, x);
      EvalProduct(q[..n], g, x);
      EvalSum(Product(q[..n], g) + [0], Zeros(n) + Scale(g, c), x);
      EvalAppend(Product(q[..n], g), 0, x);
      AddLaws(Mul(Mul(u, e), x), 0, 0);
      EvalZerosThen(n, Scale(g, c), x);
      EvalScale(g, c, x);
      MulAddLeft(Mul(u, x), c, e);
      MulRightSwap(u, e, x);
      MulCommutes(c, e);
    }
  }

  // ---- The generator polynomial ----

  /** p * (x - r); subtraction is addition here. */
  function TimesLinear(p: Poly, r: Byte): (q: Poly)
    ensures |q| == |p| + 1
  {
    Sum(p + [0], [0] + Scale(p, r))
  }

  /** (x - 2^0)(x - 2^1) ... (x - 2^(n-1)), leading coefficient included. */
  function Generator(n: nat): (g: Poly)
    ensures |g| == n + 1
  {
    if n == 0 then [1] else TimesLinear(Generator(n - 1), Root(n - 1))
  }

  lemma EvalTimesLinear(p: Poly, r: Byte, x: Byte)
    ensures Eval(TimesLinear(p, r), x) == Mul(Eval(p, x), Add(x, r))
  {
    hide Mul, Add;
    EvalSum(p + [0], [0] + Scale(p, r), x);
    EvalAppend(p, 0, x);
    AddLaws(Mul(Eval(p, x), x), 0, 0);
    assert [0] == Zeros(1);
    EvalZerosThen(1, Scale(p, r), x);
    EvalScale(p, r, x);
    MulAddRight(Eval(p, x), x, r);
  }

  lemma {:induction false} GeneratorMonic(n: nat)
    ensures Generator(n)[0] == 1
  {
    hide Mul, Add, Root;
    if n > 0 {
      GeneratorMonic(n - 1);
      AddLaws(1, 0, 0);
    }
  }

  lemma EvalOne(x: Byte)
    ensures Eval([1], x) == 1
  {
    hide Mul, Add;
    assert [1] == [] + [1];
    EvalAppend([], 1, x);
    MulUnits(x);
    AddLaws(1, 0, 0);
  }

  /** The roots of the generator are exactly 2^0 .. 2^(n-1). */
  lemma {:induction false} GeneratorRoots(n: nat, x: Byte)
    ensures Eval(Generator(n), x) == 0 <==> exists k :: 0 <= k < n && x == Root(k)
  {
    hide Mul, Add, Root, Eval, TimesLinear;
    if n == 0 {
      EvalOne(x);
    } else {
      GeneratorRoots(n - 1, x);
      EvalTimesLinear(Generator(n - 1), Root(n - 1), x);
      var u, v := Eval(Generator(n - 1), x), Add(x, Root(n - 1));
      AddCancel(x, Root(n - 1));
      MulUnits(u);
      MulUnits(v);
      assert Eval(Generator(n), x) == Mul(u, v);
      if u != 0 && v != 0 {
        NoZeroDivisors(u, v);
        assert x != Root(n - 1);
      } else if u != 0 {
        assert 0 <= n - 1 < n && x == Root(n - 1);
      }
    }
  }

  /** The vector the in-place product works on after `i` factors: the factor product so
      far, right-aligned in degree + 1 places. The first place is not stored. */
  function Stage(degree: nat, i: nat): (p: Poly)
    requires i <= degree
    ensures |p| == degree + 1
  {
    Zeros(degree - i) + Generator(i)
  }

  lemma StageAt(degree: nat, i: nat, j: nat)
    requires i <= degree && j <= degree
    ensures Stage(degree, i)[j] == if j < degree - i then 0 else Generator(i)[j - (degree - i)]
  {
    hide Mul, Add, Root, Generator;
  }

  lemma TimesLinearAt(p: Poly, r: Byte, m: nat)
    requires m <= |p|
    ensures TimesLinear(p, r)[m] ==
            Add(if m < |p| then p[m] else 0, if m >= 1 then Mul(p[m - 1], r) else 0)
  {
    hide Mul, Add;
  }

  lemma StageStep(degree: nat, i: nat, j: nat)
    requires i < degree && 1 <= j <= degree
    ensures Stage(degree, i + 1)[j] ==
            Add(Mul(Stage(degree, i)[j], Root(i)), if j < degree then Stage(degree, i)[j + 1] else 0)
  {
    hide Mul, Add, Root, TimesLinear, Stage;
    MulUnits(Root(i));
    AddLaws(0, 0, 0);
    StageAt(degree, i + 1, j);
    StageAt(degree, i, j);
    if j < degree { StageAt(degree, i, j + 1); }
    var m := j - (degree - i - 1);
    if m >= 0 {
      TimesLinearAt(Generator(i), Root(i), m);
      AddLaws(if m <= i then Generator(i)[m] else 0, if m >= 1 then Mul(Generator(i)[m - 1], Root(i)) else 0, 0);
    }
  }

  method ComputeDivisor(degree: int) returns (divisor: Result<seq<Byte>>)
    ensures divisor.Ok? <==> 1 <= degree <= 255
    ensures divisor.Ok? ==> [1] + divisor.value == Generator(degree)
    ensures divisor.Fail? ==> divisor.failure == DomainError
  {
    hide Mul, Add, Root, Stage, Generator;
    if degree < 1 || degree > 255 {
      return Fail(DomainError);
    }
    var result := new Byte[degree](_ => 0);
    result[degree - 1] := 1;
    var root: Byte := 1;
    RootZero();
    FirstStage(degree);
    for i := 0 to degree
      invariant root == Root(i)
      invariant forall k :: 0 <= k < degree ==> result[k] == Stage(degree, i)[k + 1]
    {
      for j := 0 to degree
        invariant forall k :: 0 <= k < j ==> result[k] == Stage(degree, i + 1)[k + 1]
        invariant forall k :: j <= k < degree ==> result[k] == Stage(degree, i)[k + 1]
      {
        StageStep(degree, i, j + 1);
        AddLaws(Mul(result[j], root), 0, 0);
        var product := ReedSolomonMultiply(result[j], root);
        result[j] := product;
        if j + 1 < degree {
          result[j] := Add(result[j], result[j + 1]);
        }
      }
      RootSucc(i);
      root := ReedSolomonMultiply(root, 2);
    }
    divisor := Ok(result[..]);
    LastStage(degree);
  }

  lemma FirstStage(degree: nat)
    requires degree >= 1
    ensures forall k :: 1 <= k <= degree ==> Stage(degree, 0)[k] == if k == degree then 1 else 0
  {
    hide Mul, Add, Root;
  }

  lemma LastStage(degree: nat)
    ensures Stage(degree, degree) == Generator(degree)
    ensures Generator(degree)[0] == 1
  {
    hide Mul, Add, Root, Generator;
    GeneratorMonic(degree);
  }

  lemma RootZero()
    ensures Root(0) == 1
  {
    hide Mul;
  }

  lemma RootSucc(k: nat)
    ensures Root(k + 1) == Mul(Root(k), 2)
  {
    hide Mul;
  }

  // ---- Polynomial division ----

  /** One step: drop the leading coefficient and subtract its multiple of the divisor. */
  function Reduce(r: Poly, divisor: Poly, b: Byte): (r': Poly)
    requires |r| == |divisor| > 0
    ensures |r'| == |r|
  {
    Sum(r[1..] + [0], Scale(divisor, Add(b, r[0])))
  }

  function Remainder(data: seq<Byte>, divisor: Poly): (r: Poly)
    requires |divisor| > 0
    ensures |r| == |divisor|
  {
    if data == [] then Zeros(|divisor|)
    else Reduce(Remainder(data[..|data| - 1], divisor), divisor, data[|data| - 1])
  }

  ghost function Quotient(data: seq<Byte>, divisor: Poly): (q: Poly)
    requires |divisor| > 0
    ensures |q| == |data|
  {
    if data == [] then []
    else
      var n := |data| - 1;
      Quotient(data[..n], divisor) + [Add(data[n], Remainder(data[..n], divisor)[0])]
  }

  method ComputeRemainder(data: seq<Byte>, divisor: seq<Byte>) returns (result: seq<Byte>)
    requires |divisor| > 0
    ensures result == Remainder(data, divisor)
  {
    hide Mul, Add;
    result := Zeros(|divisor|);
    for n := 0 to |data|
      invariant result == Remainder(data[..n], divisor)
    {
      var factor := Add(data[n], result[0]);
      ghost var before := result;
      result := result[1..] + [0];
      ghost var shifted := result;
      for i := 0 to |result|
        invariant |result| == |divisor|
        invariant forall k :: 0 <= k < i ==> result[k] == Add(shifted[k], Mul(divisor[k], factor))
        invariant forall k :: i <= k < |result| ==> result[k] == shifted[k]
      {
        var product := ReedSolomonMultiply(divisor[i], factor);
        result := result[i := Add(result[i], product)];
      }
      assert data[..n + 1][..n] == data[..n];
      assert result == Reduce(before, divisor, data[n]);
    }
    assert data[..|data|] == data;
  }

  /** One division step, as an identity of coefficient vectors. */
  lemma DivisionStep(d: seq<Byte>, r: Poly, divisor: Poly, b: Byte)
    requires |r| == |divisor| > 0
    ensures d + [b] + Reduce(r, divisor, b) ==
            Sum(d + r + [0], Zeros(|d|) + Scale([1] + divisor, Add(b, r[0])))
  {
    hide Mul, Add;
    var f := Add(b, r[0]);
    var left, right := d + r + [0], Zeros(|d|) + Scale([1] + divisor, f);
    var s := d + [b] + Reduce(r, divisor, b);
    MulUnits(f);
    forall i | 0 <= i < |s|
      ensures s[i] == Add(left[i], right[i])
    {
      if i < |d| {
        AddLaws(d[i], 0, 0);
      } else if i == |d| {
        AddLaws(r[0], f, 0);
        AddCancel(b, r[0]);
      }
    }
  }

  /** Division: the data followed by the remainder is, coefficient by coefficient, the
      product of the quotient and the monic divisor. */
  lemma {:induction false} DivisionIdentity(data: seq<Byte>, divisor: Poly)
    requires |divisor| > 0
    ensures data + Remainder(data, divisor) == Product(Quotient(data, divisor), [1] + divisor)
  {
    hide Mul, Add, Sum, Scale, Zeros, Reduce;
    if data == [] {
      assert Product([], [1] + divisor) == Zeros(|divisor|);
    } else {
      var n := |data| - 1;
      var r, q := Remainder(data[..n], divisor), Quotient(data[..n], divisor);
      DivisionIdentity(data[..n], divisor);
      assert Quotient(data, divisor)[..n] == q;
      DivisionStep(data[..n], r, divisor, data[n]);
      assert data[..n] + [data[n]] == data;
    }
  }

  // ---- Codewords ----

  /** `c` passes the check a reader makes: zero at each of the first `n` powers of 2. */
  ghost predicate Checks(c: seq<Byte>, n: nat) {
    forall k :: 0 <= k < n ==> Eval(c, Root(k)) == 0
  }

  /** A block as the encoder emits it: data followed by `n` error correction codewords. */
  ghost function Block(data: seq<Byte>, n: nat): (c: seq<Byte>)
    requires n > 0
    ensures |c| == |data| + n
  {
    data + Remainder(data, Generator(n)[1..])
  }

  lemma BlockChecks(data: seq<Byte>, n: nat)
    requires n > 0
    ensures Block(data, n) == Product(Quotient(data, Generator(n)[1..]), Generator(n))
    ensures Checks(Block(data, n), n)
  {
    hide Mul, Add, Root;
    var divisor := Generator(n)[1..];
    GeneratorMonic(n);
    assert [1] + divisor == Generator(n);
    DivisionIdentity(data, divisor);
    var q := Quotient(data, divisor);
    forall k | 0 <= k < n
      ensures Eval(Block(data, n), Root(k)) == 0
    {
      EvalProduct(q, Generator(n), Root(k));
      GeneratorRoots(n, Root(k));
      MulUnits(Eval(q, Root(k)));
    }
  }

  // ---- Minimum distance ----

  ghost function Support(c: seq<Byte>): set<nat> {
    set i: nat | 0 <= i < |c| && c[i] != 0
  }

  /** The positions where two words of the same length differ. */
  ghost function Difference(a: seq<Byte>, b: seq<Byte>): set<nat>
    requires |a| == |b|
  {
    set i: nat | 0 <= i < |a| && a[i] != b[i]
  }

  /** The leading coefficient contributes its multiple of a power of the point. */
  lemma {:induction false} EvalFront(a: Byte, t: seq<Byte>, k: nat)
    ensures k * |t| >= 0 && Eval([a] + t, Root(k)) == Add(Mul(a, Root(k * |t|)), Eval(t, Root(k)))
  {
    hide Mul, Add, Root;
    var x := Root(k);
    if t == [] {
      assert [a] + t == [] + [a];
      EvalAppend([], a, x);
      RootZero();
      MulUnits(a);
      MulUnits(x);
      AddLaws(a, 0, 0);
    } else {
      var u, b := t[..|t| - 1], t[|t| - 1];
      EvalFront(a, u, k);
      assert ([a] + t)[..|t|] == [a] + u;
      var p, e := Mul(a, Root(k * |u|)), Eval(u, x);
      MulAddLeft(p, e, x);
      MulAssociates(a, Root(k * |u|), x);
      assert k * |u| + k == k * |t|;
      RootAdd(k * |u|, k);
      AddLaws(Mul(p, x), Mul(e, x), b);
    }
  }

  /** Each coefficient times (its locator - X): coefficient i of a word of length L has
      locator 2^(L-1-i), and the coefficient whose locator is X drops out. */
  ghost function Twist(c: seq<Byte>, X: Byte): (t: seq<Byte>)
    ensures |t| == |c|
  {
    if c == [] then []
    else [Mul(c[0], Add(Root(|c| - 1), X))] + Twist(c[1..], X)
  }

  lemma {:induction false} TwistAt(c: seq<Byte>, X: Byte, i: nat)
    requires i < |c|
    ensures Twist(c, X)[i] == Mul(c[i], Add(Root(|c| - 1 - i), X))
  {
    hide Mul, Add, Root;
    if i > 0 { TwistAt(c[1..], X, i - 1); }
  }

  lemma {:induction false} EvalTwist(c: seq<Byte>, X: Byte, k: nat)
    ensures Eval(Twist(c, X), Root(k)) == Add(Eval(c, Root(k + 1)), Mul(X, Eval(c, Root(k))))
  {
    hide Mul, Add, Root;
    if c == [] {
      assert Twist(c, X) == [];
      MulUnits(X);
      AddLaws(0, 0, 0);
    } else {
      var a, t := c[0], c[1..];
      assert Twist(c, X) == [Mul(a, Add(Root(|t|), X))] + Twist(t, X);
      hide Eval, Twist;
      var n := |t|;
      assert c == [a] + t;
      EvalTwist(t, X, k);
      EvalFront(Mul(a, Add(Root(n), X)), Twist(t, X), k);
      EvalFront(a, t, k);
      EvalFront(a, t, k + 1);
      assert (k + 1) * n == k * n + n;
      TwistTerm(a, X, n, k * n);
      var p, q := Mul(a, Root(k * n)), Eval(t, Root(k));
      MulAddRight(X, p, q);
      AddSwap(Mul(a, Root(k * n + n)), Mul(X, p), Eval(t, Root(k + 1)), Mul(X, q));
    }
  }

  lemma TwistTerm(a: Byte, X: Byte, n: nat, m: nat)
    ensures Mul(Mul(a, Add(Root(n), X)), Root(m)) ==
            Add(Mul(a, Root(m + n)), Mul(X, Mul(a, Root(m))))
  {
    hide Mul, Add, Root;
    MulAddRight(a, Root(n), X);
    MulAddLeft(Mul(a, Root(n)), Mul(a, X), Root(m));
    MulAssociates(a, Root(n), Root(m));
    RootAdd(n, m);
    assert n + m == m + n;
    MulCommutes(a, X);
    MulAssociates(X, a, Root(m));
  }

  /** A word of at most 255 symbols that passes `n` checks is zero or has more than `n`
      non-zero symbols. */
  lemma {:induction false} CheckedWordsAreHeavy(c: seq<Byte>, n: nat)
    requires |c| <= 255 && Checks(c, n) && Support(c) != {}
    ensures |Support(c)| > n
    decreases n
  {
    hide Mul, Add, Root, Eval;
    if n > 0 {
      assert Eval(c, Root(0)) == 0;
      var j :| j in Support(c);
      var X := Root(|c| - 1 - j);
      var t := Twist(c, X);
      TwistSupport(c, j);
      forall k | 0 <= k < n - 1
        ensures Eval(t, Root(k)) == 0
      {
        EvalTwist(c, X, k);
        MulUnits(X);
        AddLaws(0, 0, 0);
      }
      if Support(t) == {} {
        forall i: nat | i < |c| && i != j
          ensures c[i] == 0
        {
          assert i !in Support(c) - {j};
        }
        LoneSymbol(c, j);
      } else {
        CheckedWordsAreHeavy(t, n - 1);
      }
    }
  }

  lemma TwistSupport(c: seq<Byte>, j: nat)
    requires |c| <= 255 && j in Support(c)
    ensures Support(Twist(c, Root(|c| - 1 - j))) == Support(c) - {j}
    ensures |Support(c) - {j}| == |Support(c)| - 1
  {
    hide Mul, Add, Root, Twist;
    var X := Root(|c| - 1 - j);
    forall i: nat | i < |c|
      ensures Twist(c, X)[i] != 0 <==> c[i] != 0 && i != j
    {
      TwistAt(c, X, i);
      var d := Add(Root(|c| - 1 - i), X);
      AddCancel(Root(|c| - 1 - i), X);
      MulUnits(c[i]);
      MulUnits(d);
      if i < j {
        RootsDistinct(|c| - 1 - j, |c| - 1 - i);
      } else if j < i {
        RootsDistinct(|c| - 1 - i, |c| - 1 - j);
      }
      if c[i] != 0 && d != 0 { NoZeroDivisors(c[i], d); }
    }
  }

  /** A word with a single non-zero symbol fails the first check. */
  lemma {:induction false} LoneSymbol(c: seq<Byte>, j: nat)
    requires j < |c| && c[j] != 0 && forall i :: 0 <= i < |c| && i != j ==> c[i] == 0
    ensures Eval(c, Root(0)) != 0
  {
    hide Mul, Add, Root;
    var n := |c| - 1;
    RootZero();
    MulUnits(Eval(c[..n], 1));
    AddLaws(Eval(c[..n], 1), 0, 0);
    AddLaws(c[n], 0, 0);
    if j == n {
      assert c[..n] == Zeros(n);
      EvalZeros(n, 1);
    } else {
      LoneSymbol(c[..n], j);
    }
  }

  lemma {:induction false} ChecksSum(a: seq<Byte>, b: seq<Byte>, n: nat)
    requires |a| == |b| && Checks(a, n) && Checks(b, n)
    ensures Checks(Sum(a, b), n)
    ensures Support(Sum(a, b)) == Difference(a, b)
  {
    hide Mul, Add, Root, Eval;
    AddLaws(0, 0, 0);
    forall k | 0 <= k < n
      ensures Eval(Sum(a, b), Root(k)) == 0
    {
      EvalSum(a, b, Root(k));
    }
    forall i | 0 <= i < |a|
      ensures Sum(a, b)[i] != 0 <==> a[i] != b[i]
    {
      AddCancel(a[i], b[i]);
    }
  }

  /** The blocks of two different data sequences differ in more than `n` places. */
  lemma MinimumDistance(d: seq<Byte>, e: seq<Byte>, n: nat)
    requires |d| == |e| && d != e
    requires 0 < n && |d| + n <= 255
    ensures |Difference(Block(d, n), Block(e, n))| > n
  {
    hide Block, Checks;
    BlockChecks(d, n);
    BlockChecks(e, n);
    BlockPrefix(d, n);
    BlockPrefix(e, n);
    var i :| 0 <= i < |d| && d[i] != e[i];
    var a, b := Block(d, n), Block(e, n);
    assert i in Difference(a, b) by { assert a[i] == a[..|d|][i] && b[i] == b[..|d|][i]; }
    ChecksSum(a, b, n);
    CheckedWordsAreHeavy(Sum(a, b), n);
  }

  lemma BlockPrefix(d: seq<Byte>, n: nat)
    requires n > 0
    ensures Block(d, n)[..|d|] == d
  {
    hide Remainder;
  }

  lemma Triangle(a: seq<Byte>, b: seq<Byte>, c: seq<Byte>)
    requires |a| == |b| == |c|
    ensures |Difference(a, c)| <= |Difference(a, b)| + |Difference(b, c)|
  {
    var u := Difference(a, b) + Difference(b, c);
    assert Difference(a, c) <= u;
    SubsetSize(Difference(a, c), u);
    assert |u| <= |Difference(a, b)| + |Difference(b, c)|;
  }

  /** What the codewords are for: a scanned block with at most n/2 damaged symbols can
      have come from one data sequence only. */
  lemma UniqueCorrection(d: seq<Byte>, e: seq<Byte>, n: nat, scanned: seq<Byte>)
    requires |d| == |e| && 0 < n && |d| + n <= 255 && |scanned| == |d| + n
    requires 2 * |Difference(Block(d, n), scanned)| <= n
    requires 2 * |Difference(scanned, Block(e, n))| <= n
    ensures d == e
  {
    hide Block;
    if d != e {
      MinimumDistance(d, e, n);
      Triangle(Block(d, n), scanned, Block(e, n));
    }
  }
}
