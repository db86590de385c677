/** The order in which codeword bits fill a symbol: pairs of columns from right to left,
    each pair scanned alternately upward and downward, the vertical timing column
    skipped (section 7.7.3 of ISO/IEC 18004). */
module Zigzag {
  import opened Gf256
  import opened Grid

  /** The right column of the p-th pair; pairs left of the timing column shift by one. */
  function Right(size: nat, p: nat): int {
    if size - 1 - 2 * p > 6 then size - 1 - 2 * p else size - 2 - 2 * p
  }

  predicate Upward(right: int) {
    (right + 1) / 2 % 2 == 0
  }

  function ScanRow(size: nat, right: int, vert: nat): int {
    if Upward(right) then size - 1 - vert else vert
  }

  ghost predicate Scannable(size: nat, p: nat) {
    size >= 7 && size % 2 == 1 && p <= (size - 1) / 2
  }

  /** The two cells at one height of a column pair. */
  ghost function Cells(size: nat, p: nat, vert: nat): (s: seq<Cell>)
    requires Scannable(size, p + 1) && vert < size
  {
    var r := Right(size, p);
    [Cell(r, ScanRow(size, r, vert)), Cell(r - 1, ScanRow(size, r, vert))]
  }

  ghost function ScanPair(size: nat, p: nat, verts: nat): seq<Cell>
    requires Scannable(size, p + 1) && verts <= size
  {
    if verts == 0 then [] else ScanPair(size, p, verts - 1) + Cells(size, p, verts - 1)
  }

  /** The scan of the first `p` column pairs. */
  ghost function Scan(size: nat, p: nat): seq<Cell>
    requires Scannable(size, p)
  {
    if p == 0 then [] else Scan(size, p - 1) + ScanPair(size, p - 1, size)
  }

  ghost function FullScan(size: nat): seq<Cell>
    requires Scannable(size, 0)
  {
    Scan(size, (size - 1) / 2)
  }

  // ---- Every module once ----

  /** The column pair that covers column `x`. */
  function PairOf(size: nat, x: nat): int {
    if x > 6 then (size - 1 - x) / 2 else (size - 2 - x) / 2
  }

  ghost predicate Distinct(s: seq<Cell>) {
    forall i, j :: 0 <= i < j < |s| ==> s[i] != s[j]
  }

  /** `c` is one of the cells at the first `verts` heights of the pair; `ScanRow` is its
      own inverse. */
  ghost predicate InPair(size: nat, p: nat, verts: nat, c: Cell) {
    && (c.x == Right(size, p) || c.x == Right(size, p) - 1)
    && c.y < size && ScanRow(size, Right(size, p), c.y) < verts
  }

  lemma CellsCover(size: nat, p: nat, verts: nat, c: Cell)
    requires Scannable(size, p + 1) && verts < size
    ensures InPair(size, p, verts + 1, c) <==> InPair(size, p, verts, c) || c in Cells(size, p, verts)
    ensures !(InPair(size, p, verts, c) && c in Cells(size, p, verts))
    ensures Distinct(Cells(size, p, verts))
  {
    var r := Right(size, p);
    assert c in Cells(size, p, verts) <==> (c.x == r || c.x == r - 1) && ScanRow(size, r, verts) == c.y;
  }

  lemma DistinctJoin(s: seq<Cell>, t: seq<Cell>)
    requires Distinct(s) && Distinct(t) && forall c :: c in s ==> c !in t
    ensures Distinct(s + t)
  {
    forall i, j | 0 <= i < j < |s + t|
      ensures (s + t)[i] != (s + t)[j]
    {
      if i < |s| <= j {
        assert (s + t)[i] in s && (s + t)[j] in t;
      }
    }
  }

  lemma {:induction false} ScanPairCovers(size: nat, p: nat, verts: nat)
    requires Scannable(size, p + 1) && verts <= size
    ensures Distinct(ScanPair(size, p, verts))
    ensures forall c: Cell :: c in ScanPair(size, p, verts) <==> InPair(size, p, verts, c)
  {
    if verts > 0 {
      hide InPair, Distinct, Cells;
      ScanPairCovers(size, p, verts - 1);
      var before, cells := ScanPair(size, p, verts - 1), Cells(size, p, verts - 1);
      forall c: Cell
        ensures c in before + cells <==> InPair(size, p, verts, c)
        ensures !(c in before && c in cells)
      {
        CellsCover(size, p, verts - 1, c);
      }
      CellsCover(size, p, verts - 1, Cell(0, 0));
      DistinctJoin(before, cells);
    } else {
      assert ScanPair(size, p, 0) == [];
    }
  }

  lemma PairColumns(size: nat, p: nat, x: nat)
    requires Scannable(size, p + 1)
    ensures x == Right(size, p) || x == Right(size, p) - 1 <==> x < size && x != 6 && PairOf(size, x) == p
  {
  }

  lemma {:induction false} ScanCovers(size: nat, p: nat)
    requires Scannable(size, p)
    ensures Distinct(Scan(size, p))
    ensures forall c: Cell :: c in Scan(size, p) <==>
              Inside(c, size) && c.x != 6 && 0 <= PairOf(size, c.x) < p
  {
    if p > 0 {
      hide ScanPair, PairOf, Distinct, InPair;
      ScanCovers(size, p - 1);
      ScanPairCovers(size, p - 1, size);
      var before, pair := Scan(size, p - 1), ScanPair(size, p - 1, size);
      forall c: Cell
        ensures c in pair <==> Inside(c, size) && c.x != 6 && PairOf(size, c.x) == p - 1
      {
        PairCells(size, p - 1, c);
      }
      DistinctJoin(before, pair);
    }
  }

  lemma PairCells(size: nat, p: nat, c: Cell)
    requires Scannable(size, p + 1)
    ensures InPair(size, p, size, c) <==> Inside(c, size) && c.x != 6 && PairOf(size, c.x) == p
  {
    hide PairOf, Right;
    PairColumns(size, p, c.x);
  }

  /** The scan visits each module outside the timing column exactly once. */
  lemma ScanVisitsOnce(size: nat)
    requires Scannable(size, 0)
    ensures Distinct(FullScan(size))
    ensures forall c: Cell :: c in FullScan(size) <==> Inside(c, size) && c.x != 6
  {
    hide Scan, PairOf, Distinct;
    ScanCovers(size, (size - 1) / 2);
    forall x: nat | x < size && x != 6
      ensures 0 <= PairOf(size, x) < (size - 1) / 2
    {
      PairRange(size, x);
    }
  }

  lemma PairRange(size: nat, x: nat)
    requires Scannable(size, 0) && x < size && x != 6
    ensures 0 <= PairOf(size, x) < (size - 1) / 2
  {
  }

  // ---- The modules that carry data ----

  ghost function Free(s: seq<Cell>, isFunction: Modules): seq<Cell>
    requires forall c :: c in s ==> c.y < |isFunction| && c.x < |isFunction[c.y]|
  {
    if s == [] then []
    else
      var n := |s| - 1;
      Free(s[..n], isFunction) + (if At(isFunction, s[n]) then [] else [s[n]])
  }

  lemma {:induction false} FreeKeeps(s: seq<Cell>, isFunction: Modules)
    requires forall c :: c in s ==> c.y < |isFunction| && c.x < |isFunction[c.y]|
    ensures forall c: Cell :: c in Free(s, isFunction) <==> c in s && !At(isFunction, c)
    ensures Distinct(s) ==> Distinct(Free(s, isFunction))
  {
    if s != [] {
      var n := |s| - 1;
      FreeKeeps(s[..n], isFunction);
      assert s == s[..n] + [s[n]];
      if Distinct(s) {
        assert s[n] !in s[..n];
      }
    }
  }

  /** A free cell comes after as many others as there are free cells before it in the scan. */
  lemma {:induction false} FreeOrder(s: seq<Cell>, isFunction: Modules, i: nat)
    requires forall c :: c in s ==> c.y < |isFunction| && c.x < |isFunction[c.y]|
    requires i < |s| && !At(isFunction, s[i])
    ensures (forall c :: c in s[..i] ==> c in s)
            && |Free(s[..i], isFunction)| < |Free(s, isFunction)|
            && Free(s, isFunction)[|Free(s[..i], isFunction)|] == s[i]
    decreases |s|
  {
    var n := |s| - 1;
    if i < n {
      assert s[..n][..i] == s[..i];
      FreeOrder(s[..n], isFunction, i);
    }
  }

  lemma FreeAppend(s: seq<Cell>, c: Cell, isFunction: Modules)
    requires forall d :: d in s + [c] ==> d.y < |isFunction| && d.x < |isFunction[d.y]|
    ensures Free(s + [c], isFunction) == Free(s, isFunction) + (if At(isFunction, c) then [] else [c])
  {
    assert (s + [c])[..|s|] == s;
  }

  // ---- Placing and reading bits ----

  function DataBit(data: seq<Byte>, i: nat): bool
    requires i < 8 * |data|
  {
    Bit(data[i / 8], 7 - i % 8)
  }

  /** `g` after the first `n` bits of the data are put in the first `n` cells. */
  ghost function Placed(g: Modules, cells: seq<Cell>, data: seq<Byte>, n: nat): (g': Modules)
    requires n <= |cells| && n <= 8 * |data|
    requires forall c :: c in cells ==> c.y < |g| && c.x < |g[c.y]|
    ensures |g'| == |g| && forall y :: 0 <= y < |g| ==> |g'[y]| == |g[y]|
  {
    if n == 0 then g else Put(Placed(g, cells, data, n - 1), cells[n - 1], DataBit(data, n - 1))
  }

  lemma {:induction false} PlacedElsewhere(g: Modules, cells: seq<Cell>, data: seq<Byte>, n: nat, c: Cell)
    requires n <= |cells| && n <= 8 * |data|
    requires forall d :: d in cells ==> d.y < |g| && d.x < |g[d.y]|
    requires c.y < |g| && c.x < |g[c.y]| && forall i :: 0 <= i < n ==> cells[i] != c
    ensures At(Placed(g, cells, data, n), c) == At(g, c)
  {
    hide DataBit;
    if n > 0 { PlacedElsewhere(g, cells, data, n - 1, c); }
  }

  lemma {:induction false} PlacedAt(g: Modules, cells: seq<Cell>, data: seq<Byte>, n: nat, k: nat)
    requires k < n <= |cells| && n <= 8 * |data| && Distinct(cells)
    requires forall d :: d in cells ==> d.y < |g| && d.x < |g[d.y]|
    ensures At(Placed(g, cells, data, n), cells[k]) == DataBit(data, k)
  {
    hide DataBit;
    if k < n - 1 { PlacedAt(g, cells, data, n - 1, k); }
  }

  /** Each bit is in its own cell, and no other cell changes. */
  lemma PlacedReads(g: Modules, cells: seq<Cell>, data: seq<Byte>, n: nat)
    requires n <= |cells| && n <= 8 * |data| && Distinct(cells)
    requires forall c :: c in cells ==> c.y < |g| && c.x < |g[c.y]|
    ensures forall k :: 0 <= k < n ==> At(Placed(g, cells, data, n), cells[k]) == DataBit(data, k)
    ensures forall c: Cell :: c.y < |g| && c.x < |g[c.y]| && c !in cells ==>
              At(Placed(g, cells, data, n), c) == At(g, c)
  {
    hide DataBit, Placed, At;
    forall k | 0 <= k < n
      ensures At(Placed(g, cells, data, n), cells[k]) == DataBit(data, k)
    {
      PlacedAt(g, cells, data, n, k);
    }
    forall c: Cell | c.y < |g| && c.x < |g[c.y]| && c !in cells
      ensures At(Placed(g, cells, data, n), c) == At(g, c)
    {
      PlacedElsewhere(g, cells, data, n, c);
    }
  }

  /** Placing with a longer list of cells and the same prefix changes nothing. */
  lemma {:induction false} PlacedPrefix(g: Modules, cells: seq<Cell>, more: seq<Cell>, data: seq<Byte>, n: nat)
    requires n <= |cells| && n <= 8 * |data|
    requires forall c :: c in cells + more ==> c.y < |g| && c.x < |g[c.y]|
    ensures Placed(g, cells, data, n) == Placed(g, cells + more, data, n)
  {
    if n > 0 { PlacedPrefix(g, cells, more, data, n - 1); }
  }

  function Least(a: nat, b: nat): nat {
    if a < b then a else b
  }

  /** Scanning one more cell: it takes the next bit when it is free and a bit is left. */
  lemma PlacedStep(g: Modules, done: seq<Cell>, c: Cell, isFunction: Modules, data: seq<Byte>, i: nat)
    requires forall d :: d in done + [c] ==> d.y < |g| && d.x < |g[d.y]|
    requires forall d :: d in done + [c] ==> d.y < |isFunction| && d.x < |isFunction[d.y]|
    requires i == Least(|Free(done, isFunction)|, 8 * |data|)
    ensures forall d :: d in Free(done, isFunction) + Free(done + [c], isFunction) ==> d in done + [c]
    ensures var before, after := Free(done, isFunction), Free(done + [c], isFunction);
            if !At(isFunction, c) && i < 8 * |data| then
              i + 1 == Least(|after|, 8 * |data|)
              && Placed(g, after, data, i + 1) == Put(Placed(g, before, data, i), c, DataBit(data, i))
            else
              i == Least(|after|, 8 * |data|) && Placed(g, after, data, i) == Placed(g, before, data, i)
  {
    hide DataBit, Free;
    FreeKeeps(done, isFunction);
    FreeKeeps(done + [c], isFunction);
    FreeAppend(done, c, isFunction);
    var before := Free(done, isFunction);
    if !At(isFunction, c) {
      PlacedPrefix(g, before, [c], data, i);
    } else {
      assert before + [] == before;
    }
  }

  /** Eight bits, most significant first. */
  function Pack(b7: bool, b6: bool, b5: bool, b4: bool, b3: bool, b2: bool, b1: bool, b0: bool): Byte {
    (if b7 then 0x80 else 0) | (if b6 then 0x40 else 0) | (if b5 then 0x20 else 0) | (if b4 then 0x10 else 0)
    | (if b3 then 8 else 0) | (if b2 then 4 else 0) | (if b1 then 2 else 0) | (if b0 then 1 else 0)
  }

  lemma PackBits(b: Byte)
    ensures Pack(Bit(b, 7), Bit(b, 6), Bit(b, 5), Bit(b, 4), Bit(b, 3), Bit(b, 2), Bit(b, 1), Bit(b, 0)) == b
  {
  }

  /** The codewords a reader collects from `cells` in order. */
  ghost function ReadCodewords(g: Modules, cells: seq<Cell>, n: nat): (r: seq<Byte>)
    requires 8 * n <= |cells| && forall c :: c in cells ==> c.y < |g| && c.x < |g[c.y]|
    ensures |r| == n
  {
    seq(n, k requires 0 <= k < n => ReadCodeword(g, cells, k))
  }

  ghost function ReadCodeword(g: Modules, cells: seq<Cell>, k: nat): Byte
    requires 8 * k + 8 <= |cells| && forall c :: c in cells ==> c.y < |g| && c.x < |g[c.y]|
  {
    Pack(At(g, cells[8 * k]), At(g, cells[8 * k + 1]), At(g, cells[8 * k + 2]), At(g, cells[8 * k + 3]),
         At(g, cells[8 * k + 4]), At(g, cells[8 * k + 5]), At(g, cells[8 * k + 6]), At(g, cells[8 * k + 7]))
  }

  lemma CodewordBack(g: Modules, cells: seq<Cell>, data: seq<Byte>, k: nat)
    requires k < |data| && 8 * |data| <= |cells|
    requires forall c :: c in cells ==> c.y < |g| && c.x < |g[c.y]|
    requires forall i :: 0 <= i < 8 * |data| ==> At(g, cells[i]) == DataBit(data, i)
    ensures ReadCodeword(g, cells, k) == data[k]
  {
    hide Bit, Pack, At;
    PackBits(data[k]);
    assert At(g, cells[8 * k]) == Bit(data[k], 7);
    assert At(g, cells[8 * k + 1]) == Bit(data[k], 6);
    assert At(g, cells[8 * k + 2]) == Bit(data[k], 5);
    assert At(g, cells[8 * k + 3]) == Bit(data[k], 4);
    assert At(g, cells[8 * k + 4]) == Bit(data[k], 3);
    assert At(g, cells[8 * k + 5]) == Bit(data[k], 2);
    assert At(g, cells[8 * k + 6]) == Bit(data[k], 1);
    assert At(g, cells[8 * k + 7]) == Bit(data[k], 0);
  }

  /** Whatever is drawn on the other cells, reading the data cells gives the codewords back. */
  lemma ReadBack(g: Modules, cells: seq<Cell>, data: seq<Byte>)
    requires 8 * |data| <= |cells|
    requires forall c :: c in cells ==> c.y < |g| && c.x < |g[c.y]|
    requires forall i :: 0 <= i < 8 * |data| ==> At(g, cells[i]) == DataBit(data, i)
    ensures ReadCodewords(g, cells, |data|) == data
  {
    hide ReadCodeword;
    forall k | 0 <= k < |data|
      ensures ReadCodeword(g, cells, k) == data[k]
    {
      CodewordBack(g, cells, data, k);
    }
  }
}
