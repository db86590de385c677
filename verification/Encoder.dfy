/** From segments to a finished symbol: choosing the version and level, the terminator and
    padding, and what a reader of the symbol gets back. */
module Encoder {
  import opened BitStream
  import opened FunctionPatterns
  import opened Grid
  import opened QrSymbol
  import opened QrTables
  import opened Results
  import opened Segments
  import Drawing
  import Gf256
  import Interleave
  import MaskPenalty
  import Zigzag

  // ---- The bit stream of a segment list ----

  ghost function SegmentBits(s: Segment, ver: nat): Bits {
    BitsOf(ModeBits(s.mode), 4) + BitsOf(s.numChars, NumCharCountBits(s.mode, ver)) + s.data
  }

  ghost function Stream(segs: seq<Segment>, ver: nat): Bits {
    if segs == [] then [] else Stream(segs[..|segs| - 1], ver) + SegmentBits(segs[|segs| - 1], ver)
  }

  ghost predicate CountsFit(segs: seq<Segment>, ver: nat) {
    forall s :: s in segs ==> s.numChars < Pow2(NumCharCountBits(s.mode, ver))
  }

  /** The segments can be written at this version in an int's worth of bits. */
  ghost predicate Writable(segs: seq<Segment>, ver: nat) {
    CountsFit(segs, ver) && |Stream(segs, ver)| <= INT_MAX
  }

  ghost predicate Fits(segs: seq<Segment>, ver: nat, ecl: Ecc)
    requires ValidVersion(ver)
  {
    Writable(segs, ver) && |Stream(segs, ver)| <= 8 * NumDataCodewords(ver, ecl)
  }

  lemma StreamStep(segs: seq<Segment>, ver: nat, n: nat)
    requires n < |segs|
    ensures Stream(segs[..n + 1], ver) == Stream(segs[..n], ver) + SegmentBits(segs[n], ver)
  {
    assert segs[..n + 1][..n] == segs[..n];
  }

  lemma {:induction false} StreamGrows(segs: seq<Segment>, ver: nat, n: nat)
    requires n <= |segs|
    ensures |Stream(segs[..n], ver)| <= |Stream(segs, ver)|
    decreases |segs| - n
  {
    if n < |segs| {
      StreamStep(segs, ver, n);
      StreamGrows(segs, ver, n + 1);
    } else {
      assert segs[..n] == segs;
    }
  }

  /** -1 when a count does not fit its field or the total does not fit an int. */
  method GetTotalBits(segs: seq<Segment>, ver: nat) returns (result: int)
    ensures result == if Writable(segs, ver) then |Stream(segs, ver)| else -1
  {
    hide Stream, BitsOf, Pow2, SegmentBits, NumCharCountBits;
    assert Stream(segs[..0], ver) == [] by { EmptyStream(segs, ver); }
    result := 0;
    for n := 0 to |segs|
      invariant result == |Stream(segs[..n], ver)| <= INT_MAX
      invariant CountsFit(segs[..n], ver)
    {
      var seg := segs[n];
      var ccbits := NumCharCountBits(seg.mode, ver);
      if seg.numChars >= Pow2(ccbits) {
        return -1;
      }
      StreamStep(segs, ver, n);
      SegmentLength(seg, ver);
      StreamGrows(segs, ver, n + 1);
      if 4 + ccbits > INT_MAX - result {
        return -1;
      }
      result := result + 4 + ccbits;
      if |seg.data| > INT_MAX - result {
        return -1;
      }
      result := result + |seg.data|;
    }
    assert segs[..|segs|] == segs;
  }

  lemma EmptyStream(segs: seq<Segment>, ver: nat)
    ensures Stream(segs[..0], ver) == []
  {
  }

  lemma SegmentLength(s: Segment, ver: nat)
    ensures |SegmentBits(s, ver)| == 4 + NumCharCountBits(s.mode, ver) + |s.data|
  {
    hide BitsOf;
  }

  // ---- Terminator and padding ----

  ghost function ZeroBits(n: nat): (b: Bits)
    ensures |b| == n && forall i :: 0 <= i < n ==> !b[i]
  {
    seq(n, _ => false)
  }

  lemma {:induction false} BitsOfZero(n: nat)
    ensures BitsOf(0, n) == ZeroBits(n)
  {
    if n > 0 {
      BitsOfZero(n - 1);
    }
  }

  function OtherPad(pad: nat): nat {
    if pad == 0xEC then 0x11 else 0xEC
  }

  /** `n` pad bytes, 0xEC and 0x11 in turn. */
  ghost function PadBytes(n: nat, first: nat): (b: Bits)
    ensures |b| == 8 * n
  {
    if n == 0 then [] else BitsOf(first, 8) + PadBytes(n - 1, OtherPad(first))
  }

  function Terminator(used: nat, capacity: nat): nat
    requires used <= capacity
  {
    if capacity - used < 4 then capacity - used else 4
  }

  /** Bits missing to a whole byte. */
  function ToByte(n: nat): nat {
    (8 - n % 8) % 8
  }

  function BytesLeft(used: nat, capacity: nat): (n: nat)
    requires used <= capacity && used % 8 == 0 && capacity % 8 == 0
    ensures 8 * n == capacity - used
  {
    (capacity - used) / 8
  }

  /** The stream filled up to the capacity. */
  ghost function Filled(stream: Bits, capacity: nat): (b: Bits)
    requires |stream| <= capacity && capacity % 8 == 0
    ensures |b| == capacity && b[..|stream|] == stream
  {
    var t := stream + ZeroBits(Terminator(|stream|, capacity));
    var z := t + ZeroBits(ToByte(|t|));
    WholeBytes(|t|, capacity);
    z + PadBytes(BytesLeft(|z|, capacity), 0xEC)
  }

  /** Whole bytes from a bit string. */
  ghost function PackBytes(b: Bits): (data: seq<Gf256.Byte>)
    requires |b| % 8 == 0
    ensures |data| == |b| / 8
  {
    seq(|b| / 8, k requires 0 <= k < |b| / 8 => PackedByte(b, k))
  }

  ghost function PackedByte(b: Bits, k: nat): Gf256.Byte
    requires 8 * k + 8 <= |b|
  {
    Zigzag.Pack(b[8 * k], b[8 * k + 1], b[8 * k + 2], b[8 * k + 3],
                b[8 * k + 4], b[8 * k + 5], b[8 * k + 6], b[8 * k + 7])
  }

  ghost function UnpackBytes(data: seq<Gf256.Byte>): (b: Bits)
    ensures |b| == 8 * |data|
  {
    seq(8 * |data|, i requires 0 <= i < 8 * |data| => Zigzag.DataBit(data, i))
  }

  /** Bytes whose bits are `b` are the packing of `b`. */
  lemma PackIs(b: Bits, data: seq<Gf256.Byte>)
    requires |b| == 8 * |data| && forall i :: 0 <= i < |b| ==> Zigzag.DataBit(data, i) == b[i]
    ensures PackBytes(b) == data
    ensures UnpackBytes(data) == b
  {
    hide PackedByte, Zigzag.DataBit;
    forall k | 0 <= k < |data|
      ensures PackedByte(b, k) == data[k]
    {
      PackedBack(b, data, k);
    }
  }

  lemma PackedBack(b: Bits, data: seq<Gf256.Byte>, k: nat)
    requires |b| == 8 * |data| && k < |data|
    requires forall i :: 0 <= i < |b| ==> Zigzag.DataBit(data, i) == b[i]
    ensures PackedByte(b, k) == data[k]
  {
    hide Zigzag.Pack, Gf256.Bit, Zigzag.DataBit;
    Zigzag.PackBits(data[k]);
    BitOfByte(data, k, 0); BitOfByte(data, k, 1); BitOfByte(data, k, 2); BitOfByte(data, k, 3);
    BitOfByte(data, k, 4); BitOfByte(data, k, 5); BitOfByte(data, k, 6); BitOfByte(data, k, 7);
  }

  lemma BitOfByte(data: seq<Gf256.Byte>, k: nat, j: nat)
    requires k < |data| && j < 8
    ensures Zigzag.DataBit(data, 8 * k + j) == Gf256.Bit(data[k], 7 - j)
  {
    hide Gf256.Bit;
    assert (8 * k + j) / 8 == k && (8 * k + j) % 8 == j;
  }

  /** The bit 1 << i. */
  function OneBit(i: nat): Gf256.Byte
    requires i < 8
  {
    match i
    case 0 => 1
    case 1 => 2
    case 2 => 4
    case 3 => 8
    case 4 => 16
    case 5 => 32
    case 6 => 64
    case _ => 128
  }

  function OrBit(x: Gf256.Byte, i: nat, bit: bool): Gf256.Byte
    requires i < 8
  {
    x | (if bit then OneBit(i) else 0)
  }

  lemma OrBitReads(x: Gf256.Byte, i: nat, bit: bool, j: nat)
    requires i < 8 && j < 8
    ensures Gf256.Bit(OrBit(x, i, bit), j) == (Gf256.Bit(x, j) || (i == j && bit))
    ensures !Gf256.Bit(0, j)
  {
    hide Gf256.Bit, OneBit;
    AnyBit(x, OneBit(i), j);
    OneBitReads(i, j);
  }

  lemma OneBitReads(i: nat, j: nat)
    requires i < 8 && j < 8
    ensures Gf256.Bit(OneBit(i), j) == (i == j)
  {
    hide Gf256.Bit;
    AnyBit(0, 0, j);
  }

  lemma ZeroHasNoBits()
    ensures forall j: nat :: j < 8 ==> !Gf256.Bit(0, j)
  {
    forall j: nat | j < 8
      ensures !Gf256.Bit(0, j)
    {
      OrBitReads(0, 0, false, j);
    }
  }

  lemma AnyBit(x: Gf256.Byte, m: Gf256.Byte, j: nat)
    requires j < 8
    ensures Gf256.Bit(x | m, j) == (Gf256.Bit(x, j) || Gf256.Bit(m, j))
    ensures Gf256.Bit(x | 0, j) == Gf256.Bit(x, j) && !Gf256.Bit(0, j)
    ensures Gf256.Bit(1, j) == (j == 0) && Gf256.Bit(2, j) == (j == 1) && Gf256.Bit(4, j) == (j == 2)
    ensures Gf256.Bit(8, j) == (j == 3) && Gf256.Bit(16, j) == (j == 4) && Gf256.Bit(32, j) == (j == 5)
    ensures Gf256.Bit(64, j) == (j == 6) && Gf256.Bit(128, j) == (j == 7)
  {
    match j
    case 0 => case 1 => case 2 => case 3 => case 4 => case 5 => case 6 => case _ =>
  }

  /** Pack bits into bytes in big endian. */
  method PackCodewords(b: Bits) returns (data: seq<Gf256.Byte>)
    requires |b| % 8 == 0
    ensures data == PackBytes(b)
  {
    hide Zigzag.Pack, Gf256.Bit, OrBit, PackBytes;
    var dataCodewords := new Gf256.Byte[|b| / 8](_ => 0);
    ZeroHasNoBits();
    for i := 0 to |b|
      invariant forall k :: 0 <= k < |b| ==>
                  Gf256.Bit(dataCodewords[k / 8], 7 - k % 8) == (k < i && b[k])
    {
      forall j | 0 <= j < 8
        ensures Gf256.Bit(OrBit(dataCodewords[i / 8], 7 - i % 8, b[i]), j)
                == (Gf256.Bit(dataCodewords[i / 8], j) || (7 - i % 8 == j && b[i]))
      {
        OrBitReads(dataCodewords[i / 8], 7 - i % 8, b[i], j);
      }
      dataCodewords[i / 8] := OrBit(dataCodewords[i / 8], 7 - i % 8, b[i]);
    }
    data := dataCodewords[..];
    PackIs(b, data);
  }

  // ---- Encoding ----

  /** The data codewords a symbol carries for a segment list. */
  ghost function DataOf(segs: seq<Segment>, ver: nat, ecl: Ecc): (data: seq<Gf256.Byte>)
    requires ValidVersion(ver) && Fits(segs, ver, ecl)
    ensures |data| == NumDataCodewords(ver, ecl)
  {
    PackBytes(Filled(Stream(segs, ver), 8 * NumDataCodewords(ver, ecl)))
  }

  /** Concatenate all segments. */
  method AppendSegments(segs: seq<Segment>, ver: nat, bb: BitBuffer)
    requires CountsFit(segs, ver) && bb.bits == []
    modifies bb
    ensures bb.bits == Stream(segs, ver)
  {
    hide Stream, BitsOf, Pow2, SegmentBits, NumCharCountBits;
    EmptyStream(segs, ver);
    for n := 0 to |segs|
      invariant bb.bits == Stream(segs[..n], ver)
    {
      var seg := segs[n];
      StreamStep(segs, ver, n);
      FieldsFit(seg, ver);
      ghost var before := bb.bits;
      var ok := bb.AppendBits(ModeBits(seg.mode), 4);
      ok := bb.AppendBits(seg.numChars, NumCharCountBits(seg.mode, ver));
      bb.Append(seg.data);
      SegmentBitsAre(before, seg, ver);
    }
    assert segs[..|segs|] == segs;
  }

  /** Add the terminator, fill the last byte, and alternate the pad bytes. */
  method PadBuffer(bb: BitBuffer, capacity: nat)
    requires |bb.bits| <= capacity && capacity % 8 == 0
    modifies bb
    ensures bb.bits == Filled(old(bb.bits), capacity)
  {
    hide BitsOf, Pow2, Filled, PadBytes, ToByte, BytesLeft;
    WholeBytes(|bb.bits| + Terminator(|bb.bits|, capacity), capacity);
    ghost var stream := bb.bits;
    ZeroFits();
    BitsOfZero(Terminator(|stream|, capacity));
    var ok := bb.AppendBits(0, if capacity - |bb.bits| < 4 then capacity - |bb.bits| else 4);
    ghost var t := bb.bits;
    BitsOfZero(ToByte(|t|));
    ok := bb.AppendBits(0, ToByte(|bb.bits|));
    WholeBytes(|t|, capacity);
    FilledIs(stream, capacity, t, bb.bits);

    var padByte := 0xEC;
    while |bb.bits| < capacity
      invariant |bb.bits| % 8 == 0 && |bb.bits| <= capacity
      invariant padByte == 0xEC || padByte == 0x11
      invariant bb.bits + PadBytes(BytesLeft(|bb.bits|, capacity), padByte) == Filled(stream, capacity)
      decreases capacity - |bb.bits|
    {
      ghost var before, left := bb.bits, BytesLeft(|bb.bits|, capacity);
      PadStep(left, padByte);
      BelowByte(padByte);
      ok := bb.AppendBits(padByte, 8);
      assert BytesLeft(|bb.bits|, capacity) == left - 1;
      assert before + (BitsOf(padByte, 8) + PadBytes(left - 1, OtherPad(padByte)))
             == bb.bits + PadBytes(left - 1, OtherPad(padByte));
      padByte := OtherPad(padByte);
    }
    NoPad(padByte);
    assert bb.bits + [] == bb.bits;
  }

  /** The data codewords: the segments, terminated and padded, as bytes. */
  method MakeCodewords(segs: seq<Segment>, ver: nat, ecl: Ecc) returns (data: seq<Gf256.Byte>)
    requires ValidVersion(ver) && Fits(segs, ver, ecl)
    ensures data == DataOf(segs, ver, ecl)
  {
    hide Stream, PackBytes, Filled, NumDataCodewords;
    var bb := new BitBuffer();
    AppendSegments(segs, ver, bb);
    PadBuffer(bb, 8 * NumDataCodewords(ver, ecl));
    data := PackCodewords(bb.bits);
  }

  lemma FieldsFit(s: Segment, ver: nat)
    ensures ModeBits(s.mode) < Pow2(4)
    ensures 0 <= NumCharCountBits(s.mode, ver) <= 31
  {
    FieldWidths();
  }

  lemma SegmentBitsAre(before: Bits, s: Segment, ver: nat)
    ensures before + BitsOf(ModeBits(s.mode), 4) + BitsOf(s.numChars, NumCharCountBits(s.mode, ver)) + s.data
            == before + SegmentBits(s, ver)
  {
    hide BitsOf, ModeBits, NumCharCountBits;
    var a, b := BitsOf(ModeBits(s.mode), 4), BitsOf(s.numChars, NumCharCountBits(s.mode, ver));
    assert before + a + b + s.data == before + (a + b + s.data);
  }

  lemma ZeroFits()
    ensures forall n: nat :: 0 < Pow2(n)
  {
  }

  lemma BelowByte(pad: nat)
    requires pad == 0xEC || pad == 0x11
    ensures pad < Pow2(8)
  {
    FieldWidths();
  }

  lemma WholeBytes(used: nat, capacity: nat)
    requires used <= capacity && capacity % 8 == 0
    ensures (used + ToByte(used)) % 8 == 0 && used + ToByte(used) <= capacity && ToByte(used) < 8
  {
  }

  lemma FilledIs(stream: Bits, capacity: nat, t: Bits, z: Bits)
    requires |stream| <= capacity && capacity % 8 == 0
    requires t == stream + ZeroBits(Terminator(|stream|, capacity))
    requires z == t + ZeroBits(ToByte(|t|)) && |z| <= capacity && |z| % 8 == 0
    ensures Filled(stream, capacity) == z + PadBytes(BytesLeft(|z|, capacity), 0xEC)
  {
    hide PadBytes;
  }

  lemma PadStep(n: nat, pad: nat)
    requires n > 0
    ensures PadBytes(n, pad) == BitsOf(pad, 8) + PadBytes(n - 1, OtherPad(pad))
  {
    hide BitsOf;
  }

  lemma NoPad(pad: nat)
    ensures PadBytes(0, pad) == []
  {
  }

  /** The strongest level is chosen that still holds the data; without boosting, the given one. */
  ghost predicate Boosted(segs: seq<Segment>, ver: nat, asked: Ecc, boostEcl: bool, ecl: Ecc)
    requires ValidVersion(ver)
  {
    && Fits(segs, ver, ecl) && Rank(asked) <= Rank(ecl)
    && (boostEcl ==> forall e :: Fits(segs, ver, e) ==> Rank(e) <= Rank(ecl))
    && (!boostEcl ==> ecl == asked)
  }

  lemma WeakerFits(segs: seq<Segment>, ver: nat, weak: Ecc, strong: Ecc)
    requires ValidVersion(ver) && Fits(segs, ver, strong) && Rank(weak) <= Rank(strong)
    ensures Fits(segs, ver, weak)
  {
    hide NumDataCodewords, Stream, Writable;
    if Rank(weak) < Rank(strong) { StrongerHoldsLess(ver, weak, strong); }
  }

  /** `patterns[v]` are the function patterns of version v. */
  method EncodeSegments(segs: seq<Segment>, asked: Ecc, minVersion: int, maxVersion: int, mask: int,
                        boostEcl: bool, patterns: seq<seq<Drawing.Write>>) returns (r: Result<QrCode>)
    requires |patterns| == MAX_VERSION + 1
    requires forall v: nat :: ValidVersion(v) ==> PatternsFit(v, patterns[v])
    ensures r.Fail? ==>
              if 1 <= minVersion <= maxVersion <= MAX_VERSION && -1 <= mask <= 7
              then r.failure == DataTooLong && forall v :: minVersion <= v <= maxVersion ==> !Fits(segs, v, asked)
              else r.failure == InvalidArgument
    ensures r.Ok? ==> 1 <= minVersion <= maxVersion <= MAX_VERSION && -1 <= mask <= 7
    ensures r.Ok? ==>
              var q := r.value;
              && fresh(q) && q.Valid() && minVersion <= q.version <= maxVersion
              && Boosted(segs, q.version, asked, boostEcl, q.errorCorrectionLevel)
              && (forall v :: minVersion <= v < q.version ==> !Fits(segs, v, asked))
              && 0 <= q.mask <= 7 && (mask != -1 ==> q.mask == mask)
              && q.modules == SymbolOf(q.version, q.errorCorrectionLevel, patterns[q.version],
                   Codewords(q.version, q.errorCorrectionLevel, DataOf(segs, q.version, q.errorCorrectionLevel)), q.mask)
  {
    hide Stream, Writable, NumDataCodewords, SymbolOf, Codewords, DataOf, PatternsFit, MaskPenalty.Penalty;
    if !(MIN_VERSION <= minVersion <= maxVersion <= MAX_VERSION) || mask < -1 || mask > 7 {
      return Fail(InvalidArgument);
    }
    var version: nat := minVersion;
    var dataUsedBits: int;
    while true
      invariant minVersion <= version <= maxVersion
      invariant forall v :: minVersion <= v < version ==> !Fits(segs, v, asked)
      decreases maxVersion - version
    {
      CapacityPositive(version, asked);
      var dataCapacityBits := NumDataCodewords(version, asked) * 8;
      dataUsedBits := GetTotalBits(segs, version);
      if dataUsedBits != -1 && dataUsedBits <= dataCapacityBits {
        break;
      }
      if version >= maxVersion {
        return Fail(DataTooLong);
      }
      version := version + 1;
    }

    var ecl := asked;
    var levels := [Medium, Quartile, High];
    for i := 0 to 3
      invariant Fits(segs, version, ecl) && (!boostEcl ==> ecl == asked)
      invariant Rank(ecl) <= Rank(asked) || Rank(ecl) <= i
      invariant boostEcl ==> forall e :: Rank(e) <= i && Fits(segs, version, e) ==> Rank(e) <= Rank(ecl)
      invariant boostEcl ==> Rank(ecl) >= (if i < Rank(asked) then 0 else Rank(asked))
    {
      var newEcl := levels[i];
      CapacityPositive(version, newEcl);
      if Rank(newEcl) <= Rank(asked) { WeakerFits(segs, version, newEcl, asked); }
      if boostEcl && dataUsedBits <= NumDataCodewords(version, newEcl) * 8 {
        ecl := newEcl;
      }
    }
    var data := MakeCodewords(segs, version, ecl);
    r := QrCode.Build(version, ecl, patterns[version], data, mask);
  }

  lemma CapacityPositive(ver: nat, ecl: Ecc)
    requires ValidVersion(ver)
    ensures NumDataCodewords(ver, ecl) > 0
  {
    BlocksFit(ver, ecl);
  }

  // ---- The reader ----

  datatype Reading = Reading(mode: Mode, chars: seq<nat>)

  function ModeOf(v: nat): Option<Mode> {
    if v == 1 then Some(Numeric) else if v == 2 then Some(Alphanumeric) else if v == 4 then Some(ByteMode) else None
  }

  /** Mode, character count and data, again and again, up to the terminator. */
  ghost function Parse(b: Bits, ver: nat): seq<Reading>
    decreases |b|
  {
    if |b| < 4 then []
    else
      match ModeOf(ValueOf(b[..4]))
      case None => []
      case Some(m) =>
        var cc := NumCharCountBits(m, ver);
        if |b| < 4 + cc then []
        else
          var n := ValueOf(b[4..4 + cc]);
          var end := 4 + cc + DataLength(m, n);
          if |b| < end then []
          else [Reading(m, ReadChars(m, b[4 + cc..end], n))] + Parse(b[end..], ver)
  }

  ghost predicate AllEncodable(chunks: seq<Chunk>) {
    forall i :: 0 <= i < |chunks| ==> Encodable(chunks[i])
  }

  ghost function EncodeAll(chunks: seq<Chunk>): (segs: seq<Segment>)
    requires AllEncodable(chunks)
    ensures |segs| == |chunks| && forall i :: 0 <= i < |chunks| ==> segs[i] == Encode(chunks[i])
  {
    seq(|chunks|, i requires 0 <= i < |chunks| => Encode(chunks[i]))
  }

  ghost function Readings(chunks: seq<Chunk>): (rs: seq<Reading>)
    ensures |rs| == |chunks|
  {
    seq(|chunks|, i requires 0 <= i < |chunks| => Reading(chunks[i].mode, chunks[i].text))
  }

  /** One segment in front of anything reads back as that segment. */
  lemma ParseSegment(c: Chunk, rest: Bits, ver: nat)
    requires Encodable(c) && |c.text| < Pow2(NumCharCountBits(c.mode, ver))
    ensures Parse(SegmentBits(Encode(c), ver) + rest, ver) == [Reading(c.mode, c.text)] + Parse(rest, ver)
  {
    hide BitsOf, ValueOf, Encode, ReadChars, DataLength, NumCharCountBits, Pow2;
    CharsBack(c);
    var cc, n := NumCharCountBits(c.mode, ver), |c.text|;
    FieldsFit(Encode(c), ver);
    ValueBack(ModeBits(c.mode), 4);
    ValueBack(n, cc);
    var m, k, d := BitsOf(ModeBits(c.mode), 4), BitsOf(n, cc), Encode(c).data;
    var b := SegmentBits(Encode(c), ver) + rest;
    assert b == m + k + d + rest;
    assert b[..4] == m;
    assert b[4..4 + cc] == k;
    assert b[4 + cc..4 + cc + |d|] == d;
    assert b[4 + cc + |d|..] == rest;
  }

  lemma {:induction false} ParseStream(chunks: seq<Chunk>, rest: Bits, ver: nat)
    requires AllEncodable(chunks) && CountsFit(EncodeAll(chunks), ver)
    ensures Parse(Stream(EncodeAll(chunks), ver) + rest, ver) == Readings(chunks) + Parse(rest, ver)
  {
    hide Parse, SegmentBits, Encode, NumCharCountBits, Pow2;
    var segs := EncodeAll(chunks);
    if chunks == [] {
      assert segs == [] && Readings(chunks) == [];
      assert Stream(segs, ver) + rest == rest;
    } else {
      var n := |chunks| - 1;
      var c := chunks[n];
      assert segs[n] in segs;
      var init := chunks[..n];
      assert EncodeAll(init) == segs[..n];
      assert forall s :: s in segs[..n] ==> s in segs;
      ParseSegment(c, rest, ver);
      ParseStream(init, SegmentBits(segs[n], ver) + rest, ver);
      assert Stream(segs, ver) + rest == Stream(segs[..n], ver) + (SegmentBits(segs[n], ver) + rest);
      assert Readings(chunks) == Readings(init) + [Reading(c.mode, c.text)];
    }
  }

  /** The terminator stops the reader, however little room it had. */
  lemma ParseStops(stream: Bits, capacity: nat, ver: nat)
    requires |stream| <= capacity && capacity % 8 == 0
    ensures Parse(Filled(stream, capacity)[|stream|..], ver) == []
  {
    hide PadBytes, NumCharCountBits;
    var rest := Filled(stream, capacity)[|stream|..];
    if |rest| >= 4 {
      assert rest[..4] == ZeroBits(4);
      BitsOfZero(4);
      ValueBack(0, 4);
    }
  }

  /** The data codewords of a segment list read back as the segments. */
  lemma DataReads(chunks: seq<Chunk>, ver: nat, ecl: Ecc)
    requires ValidVersion(ver) && AllEncodable(chunks)
    requires Fits(EncodeAll(chunks), ver, ecl)
    ensures Parse(UnpackBytes(DataOf(EncodeAll(chunks), ver, ecl)), ver) == Readings(chunks)
  {
    hide Parse, Stream, Filled, NumDataCodewords, CountsFit;
    var stream := Stream(EncodeAll(chunks), ver);
    var capacity := 8 * NumDataCodewords(ver, ecl);
    var b := Filled(stream, capacity);
    UnpackPacked(b);
    ParseStream(chunks, b[|stream|..], ver);
    ParseStops(stream, capacity, ver);
    assert b == stream + b[|stream|..];
    assert Readings(chunks) + [] == Readings(chunks);
  }

  lemma UnpackPacked(b: Bits)
    requires |b| % 8 == 0
    ensures UnpackBytes(PackBytes(b)) == b
  {
    hide PackedByte, Zigzag.DataBit;
    forall i | 0 <= i < |b|
      ensures Zigzag.DataBit(PackBytes(b), i) == b[i]
    {
      PackedBit(b, i / 8, i % 8);
      BitOfByte(PackBytes(b), i / 8, i % 8);
    }
    assert |b| == 8 * (|b| / 8);
  }

  lemma PackedBit(b: Bits, k: nat, j: nat)
    requires 8 * k + 8 <= |b| && j < 8
    ensures Gf256.Bit(PackedByte(b, k), 7 - j) == b[8 * k + j]
  {
    hide Gf256.Bit, Zigzag.Pack;
    PackReads(b[8 * k], b[8 * k + 1], b[8 * k + 2], b[8 * k + 3],
              b[8 * k + 4], b[8 * k + 5], b[8 * k + 6], b[8 * k + 7]);
  }

  lemma PackReads(b7: bool, b6: bool, b5: bool, b4: bool, b3: bool, b2: bool, b1: bool, b0: bool)
    ensures var x := Zigzag.Pack(b7, b6, b5, b4, b3, b2, b1, b0);
            && Gf256.Bit(x, 7) == b7 && Gf256.Bit(x, 6) == b6 && Gf256.Bit(x, 5) == b5 && Gf256.Bit(x, 4) == b4
            && Gf256.Bit(x, 3) == b3 && Gf256.Bit(x, 2) == b2 && Gf256.Bit(x, 1) == b1 && Gf256.Bit(x, 0) == b0
  {
  }

  // ---- From text to symbol and back ----

  /** What a reader makes of the modules of a symbol: format information, codewords, data,
      segments. */
  ghost function ReadMessage(g: Modules, ver: nat, patterns: seq<Drawing.Write>): seq<Reading>
    requires ValidVersion(ver) && PatternsFit(ver, patterns) && Square(g, SizeOf(ver))
  {
    var level := LevelNamed(Drawing.FormatLevel(ReadFormat(g, SizeOf(ver))));
    var l := LayoutOf(ver, level);
    Parse(UnpackBytes(Interleave.ReadData(l, ReadSymbol(g, ver, patterns), l.numBlocks)), ver)
  }

  /** Encoding segments at any version and level they fit, drawing them under any mask, and
      reading the symbol gives the segments back. */
  lemma MessageBack(chunks: seq<Chunk>, ver: nat, ecl: Ecc, patterns: seq<Drawing.Write>, m: nat)
    requires ValidVersion(ver) && PatternsFit(ver, patterns) && m < 8
    requires AllEncodable(chunks) && Fits(EncodeAll(chunks), ver, ecl)
    ensures var data := DataOf(EncodeAll(chunks), ver, ecl);
            ReadMessage(SymbolOf(ver, ecl, patterns, Codewords(ver, ecl, data), m), ver, patterns)
            == Readings(chunks)
  {
    hide Parse, Stream, Fits, DataOf, SymbolOf, ReadSymbol, PatternsFit, ReadFormat, LevelNamed, UnpackBytes;
    hide Interleave.Interleaved, Interleave.ReadData, LayoutOf, NumDataCodewords, RawCodewords, Drawing.FormatLevel;
    var data := DataOf(EncodeAll(chunks), ver, ecl);
    var codewords := Codewords(ver, ecl, data);
    MaskReads(ver, ecl, patterns, codewords, m);
    SymbolReads(ver, ecl, patterns, codewords, m);
    Interleave.DataRecovered(LayoutOf(ver, ecl), data);
    DataReads(chunks, ver, ecl);
  }

  /** The one chunk of a text, in the densest mode it fits. */
  ghost function ChunksOf(text: seq<Octet>): seq<Chunk> {
    if text == [] then []
    else if AllDigits(text) then [Chunk(Numeric, text)]
    else if AllAlnum(text) then [Chunk(Alphanumeric, text)]
    else [Chunk(ByteMode, text)]
  }

  ghost function TextOf(rs: seq<Reading>): seq<nat> {
    if rs == [] then [] else TextOf(rs[..|rs| - 1]) + rs[|rs| - 1].chars
  }

  lemma ChunksAreSegments(text: seq<Octet>)
    requires AllDigits(text) || AllAlnum(text) || |text| <= INT_MAX
    ensures AllEncodable(ChunksOf(text)) && EncodeAll(ChunksOf(text)) == SegmentsOf(text)
    ensures TextOf(Readings(ChunksOf(text))) == text
  {
    hide AllDigits, AllAlnum, NumericBits, AlnumBits, ByteBits;
    var rs := Readings(ChunksOf(text));
    if text != [] {
      assert rs[..0] == [] && |rs| == 1;
      assert TextOf(rs) == TextOf(rs[..0]) + text;
    }
  }

  /** Reading the symbol of a text gives the text, in the least version that holds it; a text
      is refused exactly when no version does. */
  method EncodeText(text: seq<Octet>, ecl: Ecc) returns (r: Result<QrCode>)
    ensures r.Ok? ==>
              var q := r.value;
              && q.Valid() && Rank(ecl) <= Rank(q.errorCorrectionLevel) && PatternsFit(q.version, Patterns(q.version))
              && TextOf(ReadMessage(q.modules, q.version, Patterns(q.version))) == text
              && Fits(SegmentsOf(text), q.version, ecl)
              && forall v :: MIN_VERSION <= v < q.version ==> !Fits(SegmentsOf(text), v, ecl)
    ensures r.Fail? ==>
              if AllDigits(text) || AllAlnum(text) || |text| <= INT_MAX
              then r.failure == DataTooLong && forall v :: MIN_VERSION <= v <= MAX_VERSION ==> !Fits(SegmentsOf(text), v, ecl)
              else r.failure == LengthError
  {
    hide PatternsFit, Patterns, AllPatterns, ReadMessage, SymbolOf, Codewords, DataOf, SegmentsOf, ChunksOf;
    hide EncodeAll, Readings, TextOf, Fits, MaskPenalty.Penalty, AllDigits, AllAlnum, AllEncodable;
    var segs := MakeSegments(text);
    if segs.Fail? {
      return Fail(segs.failure);
    }
    AllPatternsFit();
    r := EncodeSegments(segs.value, ecl, MIN_VERSION, MAX_VERSION, -1, true, AllPatterns());
    if r.Ok? {
      var q := r.value;
      WeakerFits(segs.value, q.version, ecl, q.errorCorrectionLevel);
      ChunksAreSegments(text);
      MessageBack(ChunksOf(text), q.version, q.errorCorrectionLevel, Patterns(q.version), q.mask);
    }
  }
}
