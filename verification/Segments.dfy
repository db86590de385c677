/** Segments: how digits, alphanumeric text and bytes become bits (sections 7.4.3 to 7.4.5
    of ISO/IEC 18004), and how a reader gets them back. */
module Segments {
  import opened BitStream
  import opened Results

  /** A character of the input, as the encoder sees it. */
  type Octet = n: nat | n < 256

  datatype Mode = Numeric | Alphanumeric | ByteMode

  function ModeBits(m: Mode): nat {
    match m
    case Numeric => 1
    case Alphanumeric => 2
    case ByteMode => 4
  }

  /** Width of the character count field; it grows at versions 10 and 27. */
  function NumCharCountBits(m: Mode, ver: nat): nat {
    var range := (ver + 7) / 17;
    match m
    case Numeric => if range == 0 then 10 else if range == 1 then 12 else 14
    case Alphanumeric => if range == 0 then 9 else if range == 1 then 11 else 13
    case ByteMode => if range == 0 then 8 else 16
  }

  datatype Segment = Segment(mode: Mode, numChars: nat, data: Bits)

  // ---- Character sets ----

  predicate IsDigit(c: Octet) {
    48 <= c <= 57
  }

  /** Position in "0123456789ABCDEFGHIJKLMNOPQRSTUVWXYZ $%*+-./:", if any. */
  function CharsetIndex(c: Octet): Option<nat> {
    if 48 <= c <= 57 then Some(c - 48)
    else if 65 <= c <= 90 then Some(c - 55)
    else if c == 32 then Some(36)
    else if c == 36 then Some(37)
    else if c == 37 then Some(38)
    else if c == 42 then Some(39)
    else if c == 43 then Some(40)
    else if c == 45 then Some(41)
    else if c == 46 then Some(42)
    else if c == 47 then Some(43)
    else if c == 58 then Some(44)
    else None
  }

  predicate IsAlnum(c: Octet) {
    CharsetIndex(c).Some?
  }

  function CharsetChar(v: nat): Octet
    requires v < 45
  {
    if v < 10 then v + 48
    else if v < 36 then v + 55
    else [32, 36, 37, 42, 43, 45, 46, 47, 58][v - 36]
  }

  lemma CharsetBack(c: Octet)
    requires IsAlnum(c)
    ensures CharsetIndex(c).value < 45 && CharsetChar(CharsetIndex(c).value) == c
  {
  }

  predicate AllDigits(t: seq<Octet>) {
    forall i :: 0 <= i < |t| ==> IsDigit(t[i])
  }

  predicate AllAlnum(t: seq<Octet>) {
    forall i :: 0 <= i < |t| ==> IsAlnum(t[i])
  }

  function DigitValues(t: seq<Octet>): (v: seq<nat>)
    requires AllDigits(t)
    ensures |v| == |t| && Below(v, 10)
  {
    seq(|t|, i requires 0 <= i < |t| => t[i] - 48)
  }

  function AlnumValues(t: seq<Octet>): (v: seq<nat>)
    requires AllAlnum(t)
    ensures |v| == |t| && Below(v, 45)
  {
    seq(|t|, i requires 0 <= i < |t| => CharsetIndex(t[i]).value)
  }

  predicate Below(v: seq<nat>, base: nat) {
    forall i :: 0 <= i < |v| ==> v[i] < base
  }

  // ---- What the encoders emit ----

  /** The value of a group of digits in some base. */
  function Group(v: seq<nat>, base: nat): nat {
    if v == [] then 0 else Group(v[..|v| - 1], base) * base + v[|v| - 1]
  }

  /** Three digits in ten bits, two in seven, one in four. */
  function NumericBits(v: seq<nat>): Bits {
    if v == [] then []
    else if |v| < 3 then BitsOf(Group(v, 10), |v| * 3 + 1)
    else BitsOf(Group(v[..3], 10), 10) + NumericBits(v[3..])
  }

  /** Two characters in eleven bits, one in six. */
  function AlnumBits(v: seq<nat>): Bits {
    if v == [] then []
    else if |v| == 1 then BitsOf(Group(v, 45), 6)
    else BitsOf(Group(v[..2], 45), 11) + AlnumBits(v[2..])
  }

  function ByteBits(b: seq<Octet>): Bits {
    if b == [] then [] else BitsOf(b[0], 8) + ByteBits(b[1..])
  }

  lemma {:induction false} NumericBitsJoin(p: seq<nat>, q: seq<nat>)
    requires |p| % 3 == 0
    ensures NumericBits(p + q) == NumericBits(p) + NumericBits(q)
  {
    hide Group, BitsOf;
    if p == [] {
      assert p + q == q;
    } else {
      assert (p + q)[..3] == p[..3];
      assert (p + q)[3..] == p[3..] + q;
      NumericBitsJoin(p[3..], q);
    }
  }

  lemma {:induction false} AlnumBitsJoin(p: seq<nat>, q: seq<nat>)
    requires |p| % 2 == 0
    ensures AlnumBits(p + q) == AlnumBits(p) + AlnumBits(q)
  {
    hide Group, BitsOf;
    if p == [] {
      assert p + q == q;
    } else {
      assert (p + q)[..2] == p[..2];
      assert (p + q)[2..] == p[2..] + q;
      AlnumBitsJoin(p[2..], q);
    }
  }

  lemma {:induction false} ByteBitsJoin(p: seq<Octet>, q: seq<Octet>)
    ensures ByteBits(p + q) == ByteBits(p) + ByteBits(q)
  {
    hide BitsOf;
    if p == [] {
      assert p + q == q;
    } else {
      assert (p + q)[1..] == p[1..] + q;
      ByteBitsJoin(p[1..], q);
    }
  }

  lemma FieldWidths()
    ensures Pow2(4) == 16 && Pow2(6) == 64 && Pow2(7) == 128 && Pow2(8) == 256
    ensures Pow2(10) == 1024 && Pow2(11) == 2048 && Pow2(1) == 2
  {
    assert Pow2(4) == 16;
    assert Pow2(8) == 256;
  }

  lemma GroupAppend(v: seq<nat>, x: nat, base: nat)
    ensures Group(v + [x], base) == Group(v, base) * base + x
    ensures Group([], base) == 0
  {
    assert (v + [x])[..|v|] == v;
  }

  /** A group fits the field it is written to. */
  lemma NumericFits(v: seq<nat>)
    requires Below(v, 10) && |v| <= 3
    ensures Group(v, 10) < Pow2(|v| * 3 + 1)
  {
    hide Group, Pow2;
    FieldWidths();
    GroupAppend([], 0, 10);
    if |v| >= 1 { GroupAppend([], v[0], 10); assert [] + [v[0]] == v[..1]; }
    if |v| >= 2 { GroupAppend(v[..1], v[1], 10); assert v[..1] + [v[1]] == v[..2]; }
    if |v| == 3 { GroupAppend(v[..2], v[2], 10); assert v[..2] + [v[2]] == v; }
    assert v[..|v|] == v;
  }

  lemma AlnumFits(v: seq<nat>)
    requires Below(v, 45) && 1 <= |v| <= 2
    ensures Group(v, 45) < Pow2(if |v| == 1 then 6 else 11)
  {
    hide Group, Pow2;
    FieldWidths();
    GroupAppend([], v[0], 45);
    assert [] + [v[0]] == v[..1];
    if |v| == 2 { GroupAppend(v[..1], v[1], 45); assert v[..1] + [v[1]] == v; }
    assert v[..|v|] == v;
  }

  // ---- The encoders ----

  const INT_MAX := 0x7FFF_FFFF

  method MakeBytes(data: seq<Octet>) returns (r: Result<Segment>)
    ensures r.Ok? <==> |data| <= INT_MAX
    ensures r.Ok? ==> r.value == Segment(ByteMode, |data|, ByteBits(data))
    ensures r.Fail? ==> r.failure == LengthError
  {
    if |data| > INT_MAX {
      return Fail(LengthError);
    }
    var bb := new BitBuffer();
    for n := 0 to |data|
      invariant bb.bits == ByteBits(data[..n])
    {
      FieldWidths();
      var ok := bb.AppendBits(data[n], 8);
      assert data[..n + 1] == data[..n] + [data[n]];
      ByteBitsJoin(data[..n], [data[n]]);
    }
    assert data[..|data|] == data;
    r := Ok(Segment(ByteMode, |data|, bb.bits));
  }

  lemma NoDigits(t: seq<Octet>)
    ensures AllDigits(t[..0]) && DigitValues(t[..0]) == [] && Below([], 10)
  {
  }

  lemma DigitStep(t: seq<Octet>, n: nat)
    requires n < |t|
    ensures AllDigits(t[..n]) && 48 <= t[n] <= 57 ==>
              AllDigits(t[..n + 1]) && DigitValues(t[..n + 1]) == DigitValues(t[..n]) + [t[n] - 48]
    ensures t[n] < 48 || t[n] > 57 ==> !AllDigits(t)
  {
  }

  lemma BelowAppend(v: seq<nat>, x: nat, base: nat)
    requires Below(v, base) && x < base
    ensures Below(v + [x], base)
  {
  }

  method MakeNumeric(digits: seq<Octet>) returns (r: Result<Segment>)
    ensures r.Ok? <==> AllDigits(digits)
    ensures r.Ok? ==> r.value == Segment(Numeric, |digits|, NumericBits(DigitValues(digits)))
    ensures r.Fail? ==> r.failure == DomainError
  {
    hide Group, NumericBits, Pow2, BitsOf, Below, AllDigits, DigitValues;
    var bb := new BitBuffer();
    var accumData: nat := 0;
    var accumCount := 0;
    ghost var v: seq<nat> := [];
    ghost var pending: seq<nat> := [];
    NothingEmitted();
    NoDigits(digits);
    for n := 0 to |digits|
      invariant AllDigits(digits[..n]) && v + pending == DigitValues(digits[..n])
      invariant |v| % 3 == 0 && accumCount == |pending| < 3 && Below(pending, 10)
      invariant bb.bits == NumericBits(v) && accumData == Group(pending, 10)
    {
      var c := digits[n];
      DigitStep(digits, n);
      if c < 48 || c > 57 {
        return Fail(DomainError);
      }
      GroupAppend(pending, c - 48, 10);
      BelowAppend(pending, c - 48, 10);
      accumData := accumData * 10 + (c - 48);
      accumCount := accumCount + 1;
      pending := pending + [c - 48];
      assert v + pending == DigitValues(digits[..n + 1]);
      if accumCount == 3 {
        NumericFits(pending);
        var ok := bb.AppendBits(accumData, 10);
        NumericGroup(v, pending);
        v := v + pending;
        pending := [];
        GroupAppend([], 0, 10);
        accumData := 0;
        accumCount := 0;
      }
    }
    assert digits[..|digits|] == digits;
    if accumCount > 0 {
      NumericFits(pending);
      var ok := bb.AppendBits(accumData, accumCount * 3 + 1);
      NumericGroup(v, pending);
    } else {
      assert v + pending == v;
    }
    r := Ok(Segment(Numeric, |digits|, bb.bits));
  }

  lemma NothingEmitted()
    ensures NumericBits([]) == [] && AlnumBits([]) == [] && Group([], 10) == 0 && Group([], 45) == 0
  {
  }

  lemma NumericGroup(v: seq<nat>, g: seq<nat>)
    requires |v| % 3 == 0 && 1 <= |g| <= 3
    ensures NumericBits(v + g) == NumericBits(v) + BitsOf(Group(g, 10), |g| * 3 + 1)
  {
    hide Group, BitsOf;
    NumericBitsJoin(v, g);
    if |g| == 3 {
      assert g[..3] == g && g[3..] == [];
    }
  }

  method MakeAlphanumeric(text: seq<Octet>) returns (r: Result<Segment>)
    ensures r.Ok? <==> AllAlnum(text)
    ensures r.Ok? ==> r.value == Segment(Alphanumeric, |text|, AlnumBits(AlnumValues(text)))
    ensures r.Fail? ==> r.failure == DomainError
  {
    hide Group, AlnumBits, Pow2, BitsOf, CharsetIndex;
    var bb := new BitBuffer();
    var accumData: nat := 0;
    var accumCount := 0;
    ghost var v: seq<nat> := [];
    ghost var pending: seq<nat> := [];
    NothingEmitted();
    for n := 0 to |text|
      invariant AllAlnum(text[..n]) && v + pending == AlnumValues(text[..n])
      invariant |v| % 2 == 0 && accumCount == |pending| < 2 && Below(pending, 45)
      invariant bb.bits == AlnumBits(v) && accumData == Group(pending, 45)
    {
      var position := CharsetIndex(text[n]);
      if position == None {
        return Fail(DomainError);
      }
      var c := position.value;
      CharsetBack(text[n]);
      GroupAppend(pending, c, 45);
      accumData := accumData * 45 + c;
      accumCount := accumCount + 1;
      pending := pending + [c];
      assert AlnumValues(text[..n + 1]) == AlnumValues(text[..n]) + [c];
      if accumCount == 2 {
        AlnumFits(pending);
        var ok := bb.AppendBits(accumData, 11);
        AlnumGroup(v, pending);
        v := v + pending;
        pending := [];
        GroupAppend([], 0, 45);
        accumData := 0;
        accumCount := 0;
      }
    }
    assert text[..|text|] == text;
    if accumCount > 0 {
      AlnumFits(pending);
      var ok := bb.AppendBits(accumData, 6);
      AlnumGroup(v, pending);
    } else {
      assert v + pending == v;
    }
    r := Ok(Segment(Alphanumeric, |text|, bb.bits));
  }

  lemma AlnumGroup(v: seq<nat>, g: seq<nat>)
    requires |v| % 2 == 0 && 1 <= |g| <= 2
    ensures AlnumBits(v + g) == AlnumBits(v) + BitsOf(Group(g, 45), if |g| == 1 then 6 else 11)
  {
    hide Group, BitsOf;
    AlnumBitsJoin(v, g);
    if |g| == 2 {
      assert g[..2] == g && g[2..] == [];
    }
  }

  /** What a text becomes: nothing, or one segment in the densest mode it fits. */
  ghost function SegmentsOf(text: seq<Octet>): seq<Segment> {
    if text == [] then []
    else if AllDigits(text) then [Segment(Numeric, |text|, NumericBits(DigitValues(text)))]
    else if AllAlnum(text) then [Segment(Alphanumeric, |text|, AlnumBits(AlnumValues(text)))]
    else [Segment(ByteMode, |text|, ByteBits(text))]
  }

  method MakeSegments(text: seq<Octet>) returns (r: Result<seq<Segment>>)
    ensures r.Ok? <==> AllDigits(text) || AllAlnum(text) || |text| <= INT_MAX
    ensures r.Ok? ==> r.value == SegmentsOf(text)
    ensures r.Fail? ==> r.failure == LengthError
  {
    if text == [] {
      return Ok([]);
    }
    var numeric := IsNumeric(text);
    if numeric {
      var s := MakeNumeric(text);
      return Ok([s.value]);
    }
    var alnum := IsAlphanumeric(text);
    if alnum {
      var s := MakeAlphanumeric(text);
      return Ok([s.value]);
    }
    var s := MakeBytes(text);
    r := if s.Ok? then Ok([s.value]) else Fail(s.failure);
  }

  method IsNumeric(text: seq<Octet>) returns (r: bool)
    ensures r <==> AllDigits(text)
  {
    for n := 0 to |text|
      invariant AllDigits(text[..n])
    {
      if text[n] < 48 || text[n] > 57 {
        return false;
      }
    }
    return true;
  }

  method IsAlphanumeric(text: seq<Octet>) returns (r: bool)
    ensures r <==> AllAlnum(text)
  {
    for n := 0 to |text|
      invariant AllAlnum(text[..n])
    {
      if CharsetIndex(text[n]) == None {
        return false;
      }
    }
    return true;
  }

  // ---- The reader ----

  /** Bits taken by `n` characters of a mode. */
  function DataLength(m: Mode, n: nat): nat {
    match m
    case Numeric => 10 * (n / 3) + (if n % 3 == 0 then 0 else n % 3 * 3 + 1)
    case Alphanumeric => 11 * (n / 2) + 6 * (n % 2)
    case ByteMode => 8 * n
  }

  /** The `n` digits of a group's value. */
  function Ungroup(x: nat, n: nat, base: nat): (v: seq<nat>)
    requires base > 0
    ensures |v| == n
    decreases n
  {
    if n == 0 then [] else Ungroup(x / base, n - 1, base) + [x % base]
  }

  function ReadNumeric(b: Bits, n: nat): (v: seq<nat>)
    ensures |v| == n
    decreases n
  {
    if n == 0 then []
    else if n < 3 then Ungroup(ValueOf(b), n, 10)
    else Ungroup(ValueOf(Front(b, 10)), 3, 10) + ReadNumeric(Back(b, 10), n - 3)
  }

  function ReadAlnum(b: Bits, n: nat): (v: seq<nat>)
    ensures |v| == n
    decreases n
  {
    if n == 0 then []
    else if n == 1 then Ungroup(ValueOf(b), 1, 45)
    else Ungroup(ValueOf(Front(b, 11)), 2, 45) + ReadAlnum(Back(b, 11), n - 2)
  }

  function ReadBytes(b: Bits, n: nat): (v: seq<nat>)
    ensures |v| == n
    decreases n
  {
    if n == 0 then [] else [ValueOf(Front(b, 8))] + ReadBytes(Back(b, 8), n - 1)
  }

  function Front(b: Bits, n: nat): Bits {
    if n <= |b| then b[..n] else b
  }

  function Back(b: Bits, n: nat): Bits {
    if n <= |b| then b[n..] else []
  }

  lemma FrontBack(a: Bits, b: Bits)
    ensures Front(a + b, |a|) == a && Back(a + b, |a|) == b
  {
  }

  lemma {:induction false} UngroupBack(v: seq<nat>, base: nat)
    requires Below(v, base) && base > 0
    ensures Ungroup(Group(v, base), |v|, base) == v
  {
    if v != [] {
      var n := |v| - 1;
      var g := Group(v[..n], base);
      UngroupBack(v[..n], base);
      QuotientIs(Group(v, base), base, g, v[n]);
      assert base * g + v[n] == g * base + v[n];
      RemainderIs(Group(v, base), base, g, v[n]);
      assert v == v[..n] + [v[n]];
    }
  }

  lemma RemainderIs(a: nat, p: nat, q: nat, r: nat)
    requires a == p * q + r && r < p
    ensures a % p == r
  {
    QuotientIs(a, p, q, r);
    assert a == p * (a / p) + a % p;
  }

  lemma {:induction false} NumericBack(v: seq<nat>)
    requires Below(v, 10)
    ensures |NumericBits(v)| == DataLength(Numeric, |v|)
    ensures ReadNumeric(NumericBits(v), |v|) == v
  {
    hide Group, BitsOf, Ungroup, ValueOf, Pow2, Front, Back;
    if v == [] {
    } else if |v| < 3 {
      NumericFits(v);
      ValueBack(Group(v, 10), |v| * 3 + 1);
      UngroupBack(v, 10);
    } else {
      NumericBack(v[3..]);
      NumericFits(v[..3]);
      ValueBack(Group(v[..3], 10), 10);
      UngroupBack(v[..3], 10);
      FrontBack(BitsOf(Group(v[..3], 10), 10), NumericBits(v[3..]));
      assert v == v[..3] + v[3..];
    }
  }

  lemma {:induction false} AlnumBack(v: seq<nat>)
    requires Below(v, 45)
    ensures |AlnumBits(v)| == DataLength(Alphanumeric, |v|)
    ensures ReadAlnum(AlnumBits(v), |v|) == v
  {
    hide Group, BitsOf, Ungroup, ValueOf, Pow2, Front, Back;
    if v == [] {
    } else if |v| == 1 {
      AlnumFits(v);
      ValueBack(Group(v, 45), 6);
      UngroupBack(v, 45);
    } else {
      AlnumBack(v[2..]);
      AlnumFits(v[..2]);
      ValueBack(Group(v[..2], 45), 11);
      UngroupBack(v[..2], 45);
      FrontBack(BitsOf(Group(v[..2], 45), 11), AlnumBits(v[2..]));
      assert v == v[..2] + v[2..];
    }
  }

  lemma {:induction false} BytesBack(t: seq<Octet>)
    ensures |ByteBits(t)| == DataLength(ByteMode, |t|)
    ensures ReadBytes(ByteBits(t), |t|) == t
  {
    hide BitsOf, ValueOf, Front, Back;
    if t != [] {
      BytesBack(t[1..]);
      assert t[0] < Pow2(8) by { FieldWidths(); }
      ValueBack(t[0], 8);
      FrontBack(BitsOf(t[0], 8), ByteBits(t[1..]));
      assert t == [t[0]] + t[1..];
    }
  }

  /** What one segment says. */
  datatype Chunk = Chunk(mode: Mode, text: seq<Octet>)

  ghost predicate Encodable(c: Chunk) {
    match c.mode
    case Numeric => AllDigits(c.text)
    case Alphanumeric => AllAlnum(c.text)
    case ByteMode => |c.text| <= INT_MAX
  }

  /** The segment an encoder makes of a chunk: see `MakeNumeric`, `MakeAlphanumeric` and
      `MakeBytes`. */
  function Encode(c: Chunk): (s: Segment)
    requires c.mode == Numeric ==> AllDigits(c.text)
    requires c.mode == Alphanumeric ==> AllAlnum(c.text)
    ensures s.mode == c.mode && s.numChars == |c.text|
  {
    Segment(c.mode, |c.text|,
      match c.mode
      case Numeric => NumericBits(DigitValues(c.text))
      case Alphanumeric => AlnumBits(AlnumValues(c.text))
      case ByteMode => ByteBits(c.text))
  }

  /** The characters a reader makes of `n` characters' worth of data bits. */
  function ReadChars(m: Mode, b: Bits, n: nat): (t: seq<nat>)
    ensures |t| == n
  {
    match m
    case Numeric =>
      var v := ReadNumeric(b, n);
      seq(n, i requires 0 <= i < n => v[i] + 48)
    case Alphanumeric =>
      var v := ReadAlnum(b, n);
      seq(n, i requires 0 <= i < n => if v[i] < 45 then CharsetChar(v[i]) else 0)
    case ByteMode => ReadBytes(b, n)
  }

  /** Reading a segment's data gives back its characters. */
  lemma CharsBack(c: Chunk)
    requires Encodable(c)
    ensures |Encode(c).data| == DataLength(c.mode, |c.text|)
    ensures ReadChars(c.mode, Encode(c).data, |c.text|) == c.text
  {
    hide NumericBits, AlnumBits, ByteBits, ReadNumeric, ReadAlnum, ReadBytes, CharsetIndex, CharsetChar;
    match c.mode
    case Numeric => NumericBack(DigitValues(c.text));
    case Alphanumeric =>
      AlnumBack(AlnumValues(c.text));
      forall i | 0 <= i < |c.text|
        ensures CharsetIndex(c.text[i]).value < 45 && CharsetChar(CharsetIndex(c.text[i]).value) == c.text[i]
      {
        CharsetBack(c.text[i]);
      }
    case ByteMode => BytesBack(c.text);
  }
}
