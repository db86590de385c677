/** Splitting the data codewords into blocks, appending error correction to each block,
    and interleaving the blocks into the codeword sequence of the symbol. */
module Interleave {
  import opened Gf256
  import opened ReedSolomon
  import opened Results

  /** How a symbol's codewords are divided. The first `numShort` blocks hold `shortData`
      data codewords, the others one more; each block has `ecc` correction codewords. */
  datatype Layout = Layout(numBlocks: nat, numShort: nat, shortData: nat, ecc: nat) {

    ghost predicate Valid() {
      0 < numShort <= numBlocks && 0 < ecc <= 255
    }

    function DataLength(): nat
      requires Valid()
    {
      numBlocks * shortData + (numBlocks - numShort)
    }

    function RawLength(): nat
      requires Valid()
    {
      numBlocks * (shortData + ecc) + (numBlocks - numShort)
    }

    function BlockData(j: nat): nat {
      if j < numShort then shortData else shortData + 1
    }

    /** Index of block j's first data codeword. */
    function Start(j: nat): nat {
      j * shortData + (if j < numShort then 0 else j - numShort)
    }

    /** The padding byte: the short blocks have no data codeword in this column. */
    predicate Skipped(i: nat, j: nat) {
      i == shortData && j < numShort
    }

    function RowStart(i: nat): int {
      i * numBlocks - (if i > shortData then numShort else 0)
    }

    /** Where column `i` of block `j` ends up. */
    function Pos(i: nat, j: nat): int {
      RowStart(i) + j - (if i == shortData then numShort else 0)
    }

    /** The column of the t-th codeword of block j, stepping over the padding. */
    function Column(j: nat, t: nat): nat {
      if j < numShort && t >= shortData then t + 1 else t
    }
  }

  /** The division for a symbol with `raw` codewords in all. */
  function Plan(numBlocks: nat, ecc: nat, raw: nat): (l: Layout)
    requires 0 < numBlocks && 0 < ecc <= 255 && raw / numBlocks >= ecc
    ensures l.Valid() && l.numBlocks == numBlocks && l.ecc == ecc
    ensures l.RawLength() == raw && l.DataLength() == raw - ecc * numBlocks
  {
    var l := Layout(numBlocks, numBlocks - raw % numBlocks, raw / numBlocks - ecc, ecc);
    assert numBlocks * (raw / numBlocks) == numBlocks * l.shortData + ecc * numBlocks;
    l
  }

  // ---- The blocks ----

  lemma StartStep(l: Layout, j: nat)
    requires l.Valid() && j < l.numBlocks
    ensures l.Start(j + 1) == l.Start(j) + l.BlockData(j)
    ensures l.Start(0) == 0 && l.Start(l.numBlocks) == l.DataLength()
  {
    assert (j + 1) * l.shortData == j * l.shortData + l.shortData;
    assert 0 * l.shortData == 0;
  }

  lemma {:induction false} StartBound(l: Layout, j: nat)
    requires l.Valid() && j <= l.numBlocks
    ensures l.Start(j) <= l.DataLength()
    decreases l.numBlocks - j
  {
    if j < l.numBlocks {
      StartBound(l, j + 1);
      StartStep(l, j);
    } else {
      StartStep(l, 0);
    }
  }

  function DataPart(l: Layout, data: seq<Byte>, j: nat): (d: seq<Byte>)
    requires l.Valid() && |data| == l.DataLength() && j < l.numBlocks
    ensures |d| == l.BlockData(j)
  {
    StartStep(l, j);
    StartBound(l, j + 1);
    data[l.Start(j)..l.Start(j) + l.BlockData(j)]
  }

  /** A block as stored before interleaving: all blocks have the same length. */
  function Padded(l: Layout, data: seq<Byte>, j: nat): (b: seq<Byte>)
    requires l.Valid() && |data| == l.DataLength() && j < l.numBlocks
    ensures |b| == l.shortData + 1 + l.ecc
  {
    var d := DataPart(l, data, j);
    d + (if j < l.numShort then [0] else []) + Remainder(d, Generator(l.ecc)[1..])
  }

  lemma PaddedParts(l: Layout, data: seq<Byte>, j: nat)
    requires l.Valid() && |data| == l.DataLength() && j < l.numBlocks
    ensures l.Start(j) + l.BlockData(j) <= |data|
    ensures var d := data[l.Start(j)..l.Start(j) + l.BlockData(j)];
            Padded(l, data, j) == d + (if j < l.numShort then [0] else []) + Remainder(d, Generator(l.ecc)[1..])
  {
    hide Generator, Remainder;
    StartStep(l, j);
    StartBound(l, j + 1);
  }

  // ---- The interleaving ----

  /** The first `j` blocks' contribution to row `i` of the output. */
  function Row(l: Layout, blocks: seq<seq<Byte>>, i: nat, j: nat): seq<Byte>
    requires j <= |blocks| && forall b :: b in blocks ==> i < |b|
  {
    if j == 0 then []
    else Row(l, blocks, i, j - 1) + (if l.Skipped(i, j - 1) then [] else [blocks[j - 1][i]])
  }

  function Rows(l: Layout, blocks: seq<seq<Byte>>, i: nat): seq<Byte>
    requires forall b :: b in blocks ==> i <= |b|
  {
    if i == 0 then [] else Rows(l, blocks, i - 1) + Row(l, blocks, i - 1, |blocks|)
  }

  ghost function Blocks(l: Layout, data: seq<Byte>): (blocks: seq<seq<Byte>>)
    requires l.Valid() && |data| == l.DataLength()
    ensures |blocks| == l.numBlocks
    ensures forall j :: 0 <= j < |blocks| ==> blocks[j] == Padded(l, data, j)
    ensures forall b :: b in blocks ==> |b| == l.shortData + 1 + l.ecc
  {
    seq(l.numBlocks, j requires 0 <= j < l.numBlocks => Padded(l, data, j))
  }

  lemma OutputLength(l: Layout, data: seq<Byte>)
    requires l.Valid() && |data| == l.DataLength()
    ensures |Rows(l, Blocks(l, data), l.shortData + 1 + l.ecc)| == l.RawLength()
  {
    hide Generator, Remainder, Rows, Padded;
    RowsContents(l, Blocks(l, data), l.shortData + 1 + l.ecc, 0, 0);
    RowStep(l, 0);
  }

  ghost function Interleaved(l: Layout, data: seq<Byte>): (s: seq<Byte>)
    requires l.Valid() && |data| == l.DataLength()
    ensures |s| == l.RawLength()
  {
    OutputLength(l, data);
    Rows(l, Blocks(l, data), l.shortData + 1 + l.ecc)
  }

  /** Split the data and append the correction codewords, padding the short blocks. */
  method SplitBlocks(data: seq<Byte>, l: Layout) returns (blocks: seq<seq<Byte>>)
    requires l.Valid() && |data| == l.DataLength()
    ensures blocks == Blocks(l, data)
  {
    hide Generator, Remainder, Padded;
    blocks := [];
    var divisor := ComputeDivisor(l.ecc);
    var rsDiv := divisor.value;
    assert rsDiv == Generator(l.ecc)[1..];
    var k := 0;
    StartStep(l, 0);
    for i := 0 to l.numBlocks
      invariant k == l.Start(i)
      invariant |blocks| == i && forall j :: 0 <= j < i ==> blocks[j] == Padded(l, data, j)
    {
      PaddedParts(l, data, i);
      StartStep(l, i);
      var dat := data[k..k + l.shortData + (if i < l.numShort then 0 else 1)];
      k := k + |dat|;
      var ecc := ComputeRemainder(dat, rsDiv);
      if i < l.numShort {
        dat := dat + [0];
      }
      dat := dat + ecc;
      blocks := blocks + [dat];
    }
  }

  /** Emit the blocks column by column, skipping the padding byte. */
  method InterleaveBlocks(blocks: seq<seq<Byte>>, l: Layout) returns (result: seq<Byte>)
    requires l.Valid() && |blocks| == l.numBlocks
    requires forall b :: b in blocks ==> |b| == l.shortData + 1 + l.ecc
    ensures result == Rows(l, blocks, l.shortData + 1 + l.ecc)
  {
    result := [];
    for i := 0 to |blocks[0]|
      invariant result == Rows(l, blocks, i)
    {
      ghost var before := result;
      for j := 0 to |blocks|
        invariant result == before + Row(l, blocks, i, j)
      {
        if i != l.shortData || j >= l.numShort {
          result := result + [blocks[j][i]];
        }
      }
    }
  }

  method AddEccAndInterleave(data: seq<Byte>, numBlocks: nat, blockEccLen: nat, rawCodewords: nat)
    returns (r: Result<seq<Byte>>)
    requires 0 < numBlocks && 0 < blockEccLen <= 255 && rawCodewords / numBlocks >= blockEccLen
    ensures r.Ok? <==> |data| == rawCodewords - blockEccLen * numBlocks
    ensures r.Ok? ==> r.value == Interleaved(Plan(numBlocks, blockEccLen, rawCodewords), data)
    ensures r.Fail? ==> r.failure == InvalidArgument
  {
    hide Padded, Row, Rows, DataPart;
    if |data| != rawCodewords - blockEccLen * numBlocks {
      return Fail(InvalidArgument);
    }
    var l := Plan(numBlocks, blockEccLen, rawCodewords);
    var blocks := SplitBlocks(data, l);
    var result := InterleaveBlocks(blocks, l);
    r := Ok(result);
  }

  // ---- Where each codeword goes ----

  lemma RowStep(l: Layout, i: nat)
    requires l.Valid()
    ensures l.RowStart(i + 1) == l.RowStart(i) + l.numBlocks - (if i == l.shortData then l.numShort else 0)
    ensures l.RowStart(0) == 0 && l.RowStart(l.shortData + 1 + l.ecc) == l.RawLength()
  {
    assert (i + 1) * l.numBlocks == i * l.numBlocks + l.numBlocks;
    var n := l.shortData + l.ecc;
    assert (n + 1) * l.numBlocks == l.numBlocks * n + l.numBlocks;
    assert 0 * l.numBlocks == 0;
  }

  lemma {:induction false} RowStartMonotone(l: Layout, a: nat, b: nat)
    requires l.Valid() && a <= b
    ensures l.RowStart(a) <= l.RowStart(b)
    decreases b - a
  {
    if a < b {
      RowStep(l, a);
      RowStartMonotone(l, a + 1, b);
    }
  }

  /** Every kept column of every block has a place inside the output. */
  lemma PosInside(l: Layout, i: nat, j: nat)
    requires l.Valid() && i < l.shortData + 1 + l.ecc && j < l.numBlocks && !l.Skipped(i, j)
    ensures 0 <= l.RowStart(i) <= l.Pos(i, j) < l.RowStart(i + 1) <= l.RawLength()
  {
    RowStep(l, i);
    RowStartMonotone(l, 0, i);
    RowStartMonotone(l, i + 1, l.shortData + 1 + l.ecc);
  }

  /** No two codewords share a place. */
  lemma PosInjective(l: Layout, i: nat, j: nat, i': nat, j': nat)
    requires l.Valid() && j < l.numBlocks && j' < l.numBlocks
    requires i < l.shortData + 1 + l.ecc && i' < l.shortData + 1 + l.ecc
    requires !l.Skipped(i, j) && !l.Skipped(i', j')
    requires l.Pos(i, j) == l.Pos(i', j')
    ensures i == i' && j == j'
  {
    PosInside(l, i, j);
    PosInside(l, i', j');
    if i < i' {
      RowStartMonotone(l, i + 1, i');
    } else if i' < i {
      RowStartMonotone(l, i' + 1, i);
    }
  }

  /** Every place of the output holds a codeword, never the padding byte. */
  lemma {:induction false} PosSurjective(l: Layout, p: nat, rows: nat) returns (i: nat, j: nat)
    requires l.Valid() && rows <= l.shortData + 1 + l.ecc && p < l.RowStart(rows)
    ensures i < rows && j < l.numBlocks && !l.Skipped(i, j) && l.Pos(i, j) == p
  {
    RowStep(l, 0);
    if rows > 0 {
      RowStep(l, rows - 1);
      if p < l.RowStart(rows - 1) {
        i, j := PosSurjective(l, p, rows - 1);
      } else {
        i := rows - 1;
        j := p - l.RowStart(i) + (if i == l.shortData then l.numShort else 0);
      }
    }
  }

  lemma {:induction false} RowContents(l: Layout, blocks: seq<seq<Byte>>, i: nat, n: nat)
    requires l.Valid() && n <= |blocks| == l.numBlocks && forall b :: b in blocks ==> i < |b|
    ensures |Row(l, blocks, i, n)| ==
            if i != l.shortData then n else if n < l.numShort then 0 else n - l.numShort
    ensures forall j :: 0 <= j < n && !l.Skipped(i, j) ==>
              0 <= l.Pos(i, j) - l.RowStart(i) < |Row(l, blocks, i, n)|
              && Row(l, blocks, i, n)[l.Pos(i, j) - l.RowStart(i)] == blocks[j][i]
  {
    if n > 0 {
      RowContents(l, blocks, i, n - 1);
    }
  }

  lemma {:induction false} RowsContents(l: Layout, blocks: seq<seq<Byte>>, rows: nat, i: nat, j: nat)
    requires l.Valid() && |blocks| == l.numBlocks && forall b :: b in blocks ==> rows <= |b|
    requires rows <= l.shortData + 1 + l.ecc
    ensures |Rows(l, blocks, rows)| == l.RowStart(rows)
    ensures i < rows && j < l.numBlocks && !l.Skipped(i, j) ==>
              0 <= l.Pos(i, j) < |Rows(l, blocks, rows)|
              && Rows(l, blocks, rows)[l.Pos(i, j)] == blocks[j][i]
  {
    hide Row, Layout.Pos, Layout.Skipped, Layout.RowStart;
    if rows == 0 {
      RowStep(l, 0);
    } else {
      RowsContents(l, blocks, rows - 1, i, j);
      LastRow(l, blocks, rows - 1, j);
      var front, row := Rows(l, blocks, rows - 1), Row(l, blocks, rows - 1, |blocks|);
      assert Rows(l, blocks, rows) == front + row;
    }
  }

  lemma LastRow(l: Layout, blocks: seq<seq<Byte>>, i: nat, j: nat)
    requires l.Valid() && |blocks| == l.numBlocks && forall b :: b in blocks ==> i < |b|
    requires i < l.shortData + 1 + l.ecc
    ensures l.RowStart(i + 1) == l.RowStart(i) + |Row(l, blocks, i, |blocks|)|
    ensures j < l.numBlocks && !l.Skipped(i, j) ==>
              var k := l.Pos(i, j) - l.RowStart(i);
              0 <= k < |Row(l, blocks, i, |blocks|)| && Row(l, blocks, i, |blocks|)[k] == blocks[j][i]
  {
    hide Row, Layout.Pos, Layout.Skipped, Layout.RowStart;
    RowContents(l, blocks, i, |blocks|);
    RowStep(l, i);
  }

  // ---- De-interleaving ----

  lemma ColumnInside(l: Layout, j: nat, t: nat)
    requires l.Valid() && j < l.numBlocks && t < l.BlockData(j) + l.ecc
    ensures l.Column(j, t) < l.shortData + 1 + l.ecc && !l.Skipped(l.Column(j, t), j)
    ensures 0 <= l.Pos(l.Column(j, t), j) < l.RawLength()
  {
    PosInside(l, l.Column(j, t), j);
  }

  /** Block `j` as a reader gathers it from the codewords of a symbol. */
  ghost function Gather(l: Layout, codewords: seq<Byte>, j: nat): (b: seq<Byte>)
    requires l.Valid() && |codewords| == l.RawLength() && j < l.numBlocks
    ensures |b| == l.BlockData(j) + l.ecc
  {
    seq(l.BlockData(j) + l.ecc,
        t requires 0 <= t < l.BlockData(j) + l.ecc =>
          ColumnInside(l, j, t); codewords[l.Pos(l.Column(j, t), j)])
  }

  /** De-interleaving gives back each block: its data followed by its correction codewords. */
  lemma GatherRecovers(l: Layout, data: seq<Byte>, j: nat)
    requires l.Valid() && |data| == l.DataLength() && j < l.numBlocks
    ensures Gather(l, Interleaved(l, data), j) == Block(DataPart(l, data, j), l.ecc)
  {
    hide Generator, Remainder, Rows;
    var blocks := Blocks(l, data);
    var g := Gather(l, Interleaved(l, data), j);
    var d := DataPart(l, data, j);
    var e := Remainder(d, Generator(l.ecc)[1..]);
    forall t | 0 <= t < |g|
      ensures g[t] == (d + e)[t]
    {
      ColumnInside(l, j, t);
      RowsContents(l, blocks, l.shortData + 1 + l.ecc, l.Column(j, t), j);
      assert g[t] == Padded(l, data, j)[l.Column(j, t)];
    }
    assert g == d + e;
  }

  ghost function ConcatParts(l: Layout, data: seq<Byte>, n: nat): seq<Byte>
    requires l.Valid() && |data| == l.DataLength() && n <= l.numBlocks
  {
    if n == 0 then [] else ConcatParts(l, data, n - 1) + DataPart(l, data, n - 1)
  }

  /** The data parts of the blocks, in order, are the data. */
  lemma {:induction false} PartsConcatenate(l: Layout, data: seq<Byte>, n: nat)
    requires l.Valid() && |data| == l.DataLength() && n <= l.numBlocks
    ensures 0 <= l.Start(n) <= |data| && ConcatParts(l, data, n) == data[..l.Start(n)]
    ensures n == l.numBlocks ==> ConcatParts(l, data, n) == data
  {
    hide Layout.Start, Layout.BlockData, Layout.DataLength;
    StartBound(l, n);
    StartStep(l, 0);
    if n > 0 {
      PartsConcatenate(l, data, n - 1);
      StartStep(l, n - 1);
    }
  }

  /** The data a reader collects: the data codewords of each gathered block. */
  ghost function ReadData(l: Layout, codewords: seq<Byte>, n: nat): seq<Byte>
    requires l.Valid() && |codewords| == l.RawLength() && n <= l.numBlocks
  {
    if n == 0 then []
    else ReadData(l, codewords, n - 1) + Gather(l, codewords, n - 1)[..l.BlockData(n - 1)]
  }

  lemma {:induction false} ReadDataIs(l: Layout, data: seq<Byte>, n: nat)
    requires l.Valid() && |data| == l.DataLength() && n <= l.numBlocks
    ensures ReadData(l, Interleaved(l, data), n) == ConcatParts(l, data, n)
  {
    hide Interleaved, Gather, DataPart, Remainder;
    if n > 0 {
      ReadDataIs(l, data, n - 1);
      GatherRecovers(l, data, n - 1);
    }
  }

  /** De-interleaving an undamaged symbol gives back the data. */
  lemma DataRecovered(l: Layout, data: seq<Byte>)
    requires l.Valid() && |data| == l.DataLength()
    ensures ReadData(l, Interleaved(l, data), l.numBlocks) == data
  {
    hide Interleaved, ReadData;
    ReadDataIs(l, data, l.numBlocks);
    PartsConcatenate(l, data, l.numBlocks);
  }

  lemma {:induction false} PartsDetermine(l: Layout, d: seq<Byte>, e: seq<Byte>, n: nat)
    requires l.Valid() && |d| == |e| == l.DataLength() && n <= l.numBlocks
    requires forall j :: 0 <= j < n ==> DataPart(l, d, j) == DataPart(l, e, j)
    ensures ConcatParts(l, d, n) == ConcatParts(l, e, n)
  {
    if n > 0 { PartsDetermine(l, d, e, n - 1); }
  }

  /** A symbol in which every block has at most ecc/2 damaged codewords has one reading. */
  lemma DamagedSymbolHasOneReading(l: Layout, d: seq<Byte>, e: seq<Byte>, scanned: seq<Byte>)
    requires l.Valid() && |d| == |e| == l.DataLength() && |scanned| == l.RawLength()
    requires l.shortData + 1 + l.ecc <= 255
    requires forall j :: 0 <= j < l.numBlocks ==>
               2 * |Difference(Gather(l, Interleaved(l, d), j), Gather(l, scanned, j))| <= l.ecc
    requires forall j :: 0 <= j < l.numBlocks ==>
               2 * |Difference(Gather(l, scanned, j), Gather(l, Interleaved(l, e), j))| <= l.ecc
    ensures d == e
  {
    forall j | 0 <= j < l.numBlocks
      ensures DataPart(l, d, j) == DataPart(l, e, j)
    {
      GatherRecovers(l, d, j);
      GatherRecovers(l, e, j);
      UniqueCorrection(DataPart(l, d, j), DataPart(l, e, j), l.ecc, Gather(l, scanned, j));
    }
    PartsDetermine(l, d, e, l.numBlocks);
    PartsConcatenate(l, d, l.numBlocks);
    PartsConcatenate(l, e, l.numBlocks);
  }
}
