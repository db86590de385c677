/** The function patterns of every version: timing, finder and alignment patterns and the version
    information (sections 6.3 and 7.10 of ISO/IEC 18004), as the writes that draw them, and the
    room they leave for the codewords. */
module FunctionPatterns {
  import opened Drawing
  import opened Grid
  import opened QrSymbol
  import opened QrTables
  import opened Sizes
  import opened Zigzag

  // ---- The writes, in order ----

  function Abs(a: int): nat {
    if a < 0 then -a else a
  }

  function Distance(dx: int, dy: int): nat {
    if Abs(dx) < Abs(dy) then Abs(dy) else Abs(dx)
  }

  /** Both timing lines, the first `n` steps. */
  function Timing(n: nat): seq<Write> {
    if n == 0 then []
    else Timing(n - 1) + [Write(Cell(6, n - 1), (n - 1) % 2 == 0), Write(Cell(n - 1, 6), (n - 1) % 2 == 0)]
  }

  /** One cell of the finder pattern around (x, y), if it is inside the grid. */
  function FinderCell(x: int, y: int, size: nat, dx: int, dy: int): seq<Write> {
    if 0 <= x + dx < size && 0 <= y + dy < size
    then [Write(Cell(x + dx, y + dy), Distance(dx, dy) != 2 && Distance(dx, dy) != 4)]
    else []
  }

  /** The first `n` of its nine rows of nine. */
  function Finder(x: int, y: int, size: nat, n: nat): seq<Write> {
    if n == 0 then [] else Finder(x, y, size, n - 1) + FinderCell(x, y, size, (n - 1) % 9 - 4, (n - 1) / 9 - 4)
  }

  /** The first `n` cells of the alignment pattern around (x, y). */
  function Alignment(x: nat, y: nat, n: nat): seq<Write>
    requires x >= 2 && y >= 2
  {
    if n == 0 || n > 25 then []
    else
      var dx, dy := (n - 1) % 5 - 2, (n - 1) / 5 - 2;
      Alignment(x, y, n - 1) + [Write(Cell(x + dx, y + dy), Distance(dx, dy) != 1)]
  }

  function NumAlign(ver: nat): nat {
    ver / 7 + 2
  }

  function TwiceQuotient(n: nat, d: nat): nat
    requires d > 0
  {
    n / d * 2
  }

  function AlignStep(ver: nat): nat
    requires ver >= 2
  {
    TwiceQuotient(ver * 8 + NumAlign(ver) * 3 + 5, NumAlign(ver) * 4 - 4)
  }

  /** The i-th alignment coordinate: 6, and then in equal steps up to the last one. */
  function AlignPosition(ver: nat, i: nat): int
    requires ver >= 2
  {
    if i == 0 then 6 else SizeOf(ver) - 7 - (NumAlign(ver) - 1 - i) * AlignStep(ver)
  }

  /** The three corners that hold finder patterns. */
  predicate FinderCorner(ver: nat, i: nat, j: nat) {
    (i == 0 && j == 0) || (i == 0 && j == NumAlign(ver) - 1) || (i == NumAlign(ver) - 1 && j == 0)
  }

  function AlignmentAt(ver: nat, i: nat, j: nat): seq<Write>
    requires 2 <= ver <= MAX_VERSION && i < NumAlign(ver) && j < NumAlign(ver)
  {
    PositionInside(ver, i);
    PositionInside(ver, j);
    if FinderCorner(ver, i, j) then [] else Alignment(AlignPosition(ver, i), AlignPosition(ver, j), 25)
  }

  function AlignmentRow(ver: nat, i: nat, n: nat): seq<Write>
    requires 2 <= ver <= MAX_VERSION && i < NumAlign(ver) && n <= NumAlign(ver)
  {
    if n == 0 then [] else AlignmentRow(ver, i, n - 1) + AlignmentAt(ver, i, n - 1)
  }

  /** The alignment patterns of the first `n` coordinates. */
  function Alignments(ver: nat, n: nat): seq<Write>
    requires 2 <= ver <= MAX_VERSION && n <= NumAlign(ver)
  {
    if n == 0 then [] else Alignments(ver, n - 1) + AlignmentRow(ver, n - 1, NumAlign(ver))
  }

  function VersionRem(ver: bv32, n: nat): bv32 {
    if n == 0 then ver
    else
      var rem := VersionRem(ver, n - 1);
      (rem << 1) ^ ((rem >> 11) * 0x1F25)
  }

  /** The eighteen bits of the version information. */
  function VersionBits(ver: nat): bv32
    requires ver <= MAX_VERSION
  {
    (ver as bv32 << 12) | VersionRem(ver as bv32, 12)
  }

  /** Two copies, the first `n` bits. */
  function VersionInfo(size: nat, bits: bv32, n: nat): seq<Write>
    requires size >= 11 && n <= 18
  {
    if n == 0 then []
    else
      var bit, a, b := (bits >> (n - 1)) & 1 != 0, size - 11 + (n - 1) % 3, (n - 1) / 3;
      VersionInfo(size, bits, n - 1) + [Write(Cell(a, b), bit), Write(Cell(b, a), bit)]
  }

  /** Everything that is drawn besides format information and codewords. */
  function Patterns(ver: nat): seq<Write>
    requires ValidVersion(ver)
  {
    var size := SizeOf(ver);
    Timing(size) + Finder(3, 3, size, 81) + Finder(size - 4, 3, size, 81) + Finder(3, size - 4, size, 81)
    + (if ver >= 2 then Alignments(ver, NumAlign(ver)) else [])
    + (if ver >= 7 then VersionInfo(size, VersionBits(ver), 18) else [])
  }

  // ---- Alignment coordinates ----

  predicate StepFits(ver: nat)
    requires ver >= 2
  {
    AlignStep(ver) >= 4 && (NumAlign(ver) - 2) * AlignStep(ver) + 17 <= SizeOf(ver)
  }

  lemma StepsFit(ver: nat)
    requires 2 <= ver <= MAX_VERSION
    ensures StepFits(ver)
  {
    hide TwiceQuotient;
    match NumAlign(ver)
    case 2 => TwiceQuotientIs(ver * 8 + 11, 4);
    case 3 => TwiceQuotientIs(ver * 8 + 14, 8);
    case 4 => TwiceQuotientIs(ver * 8 + 17, 12);
    case 5 => TwiceQuotientIs(ver * 8 + 20, 16);
    case 6 => TwiceQuotientIs(ver * 8 + 23, 20);
    case _ => TwiceQuotientIs(ver * 8 + 26, 24);
  }

  lemma TwiceQuotientIs(n: nat, d: nat)
    requires d > 0
    ensures d * TwiceQuotient(n, d) <= 2 * n < d * TwiceQuotient(n, d) + 2 * d
  {
    var q := n / d;
    assert d * q <= n < d * q + d;
    assert d * (q * 2) == 2 * (d * q);
  }

  /** The first coordinate is the timing line's, the last is seven from the end, the others are
      clear of the finder patterns. */
  lemma PositionInside(ver: nat, i: nat)
    requires 2 <= ver <= MAX_VERSION && i < NumAlign(ver)
    ensures 6 <= AlignPosition(ver, i) <= SizeOf(ver) - 7
    ensures i > 0 ==> AlignPosition(ver, i) >= 10
    ensures i + 1 < NumAlign(ver) ==> AlignPosition(ver, i) <= SizeOf(ver) - 11
  {
    hide AlignStep;
    StepsFit(ver);
    if i > 0 {
      var left, s := NumAlign(ver) - 1 - i, AlignStep(ver);
      ProductSign(left, s);
      ProductSign(i - 1, s);
      assert (NumAlign(ver) - 2) * s == left * s + (i - 1) * s;
      if left > 0 {
        ProductSign(left - 1, s);
        assert left * s == (left - 1) * s + s;
      }
    }
  }

  // ---- Rectangles of cells ----

  function Strip(x: nat, y: nat, w: nat): seq<Cell> {
    if w == 0 then [] else Strip(x, y, w - 1) + [Cell(x + w - 1, y)]
  }

  function Box(x: nat, y: nat, w: nat, h: nat): seq<Cell> {
    if h == 0 then [] else Box(x, y, w, h - 1) + Strip(x, y + h - 1, w)
  }

  predicate InBox(c: Cell, x: nat, y: nat, w: nat, h: nat) {
    x <= c.x < x + w && y <= c.y < y + h
  }

  lemma {:induction false} StripHas(x: nat, y: nat, w: nat, c: Cell)
    ensures |Strip(x, y, w)| == w
    ensures InBox(c, x, y, w, 1) ==> c in Strip(x, y, w)
  {
    if w > 0 { StripHas(x, y, w - 1, c); }
  }

  lemma {:induction false} BoxHas(x: nat, y: nat, w: nat, h: nat, c: Cell)
    ensures |Box(x, y, w, h)| == w * h
    ensures InBox(c, x, y, w, h) ==> c in Box(x, y, w, h)
  {
    if h > 0 {
      BoxHas(x, y, w, h - 1, c);
      StripHas(x, y + h - 1, w, c);
      assert w * h == w * (h - 1) + w;
    }
  }

  // ---- A cover of the function modules outside the timing column ----

  /** The three finder patterns with their separators, without column 6. */
  function Corners(size: nat): seq<Cell>
    requires size >= 21
  {
    Box(0, 0, 6, 8) + Box(7, 0, 1, 8) + Box(0, size - 8, 6, 8) + Box(7, size - 8, 1, 8) + Box(size - 8, 0, 8, 8)
  }

  function FormatCells(size: nat, n: nat): seq<Cell>
    requires size >= 21 && n <= 31
  {
    if n == 0 then [] else FormatCells(size, n - 1) + [FormatWrite(size, 0, n - 1).cell]
  }

  /** The part of an alignment pattern that is in neither timing line. */
  function AlignCells(ver: nat, i: nat, j: nat): seq<Cell>
    requires 2 <= ver <= MAX_VERSION && i < NumAlign(ver) && j < NumAlign(ver)
  {
    PositionInside(ver, i);
    PositionInside(ver, j);
    var x, y := AlignPosition(ver, i), AlignPosition(ver, j);
    if FinderCorner(ver, i, j) then []
    else if i == 0 then Box(4, y - 2, 2, 5) + Box(7, y - 2, 2, 5)
    else if j == 0 then Box(x - 2, 4, 5, 2) + Box(x - 2, 7, 5, 2)
    else Box(x - 2, y - 2, 5, 5)
  }

  function AlignRowCells(ver: nat, i: nat, n: nat): seq<Cell>
    requires 2 <= ver <= MAX_VERSION && i < NumAlign(ver) && n <= NumAlign(ver)
  {
    if n == 0 then [] else AlignRowCells(ver, i, n - 1) + AlignCells(ver, i, n - 1)
  }

  function AllAlignCells(ver: nat, n: nat): seq<Cell>
    requires 2 <= ver <= MAX_VERSION && n <= NumAlign(ver)
  {
    if n == 0 then [] else AllAlignCells(ver, n - 1) + AlignRowCells(ver, n - 1, NumAlign(ver))
  }

  function VersionCells(size: nat): seq<Cell>
    requires size >= 21
  {
    Box(size - 11, 0, 3, 6) + Box(0, size - 11, 6, 3)
  }

  function TimingRow(size: nat): seq<Cell>
    requires size >= 21
  {
    Box(8, 6, size - 16, 1)
  }

  /** All of it. */
  function Cover(ver: nat): seq<Cell>
    requires ValidVersion(ver)
  {
    var size := SizeOf(ver);
    Corners(size) + TimingRow(size) + FormatCells(size, 31)
    + (if ver >= 2 then AllAlignCells(ver, NumAlign(ver)) else [])
    + (if ver >= 7 then VersionCells(size) else [])
  }

  // ---- How large the cover is ----

  lemma {:induction false} AlignRowSize(ver: nat, i: nat, n: nat)
    requires 2 <= ver <= MAX_VERSION && i < NumAlign(ver) && n <= NumAlign(ver)
    ensures var k := NumAlign(ver);
            |AlignRowCells(ver, i, n)| ==
            if n == 0 then 0
            else if i == 0 then 20 * (if n == k then k - 2 else n - 1)
            else (if i == k - 1 then 0 else 20) + 25 * (n - 1)
  {
    hide AlignPosition, SizeOf;
    if n > 0 {
      AlignRowSize(ver, i, n - 1);
      AlignSize(ver, i, n - 1);
    }
  }

  lemma AlignSize(ver: nat, i: nat, j: nat)
    requires 2 <= ver <= MAX_VERSION && i < NumAlign(ver) && j < NumAlign(ver)
    ensures |AlignCells(ver, i, j)| == if FinderCorner(ver, i, j) then 0 else if i == 0 || j == 0 then 20 else 25
  {
    hide Box, FinderCorner;
    PositionInside(ver, i);
    PositionInside(ver, j);
    var x, y := AlignPosition(ver, i), AlignPosition(ver, j);
    BoxHas(4, y - 2, 2, 5, Cell(0, 0));
    BoxHas(7, y - 2, 2, 5, Cell(0, 0));
    BoxHas(x - 2, 4, 5, 2, Cell(0, 0));
    BoxHas(x - 2, 7, 5, 2, Cell(0, 0));
    BoxHas(x - 2, y - 2, 5, 5, Cell(0, 0));
  }

  lemma {:induction false} AllAlignSize(ver: nat, n: nat)
    requires 2 <= ver <= MAX_VERSION && n <= NumAlign(ver)
    ensures var k := NumAlign(ver);
            |AllAlignCells(ver, n)| ==
            if n == 0 then 0
            else if n < k then 20 * (k - 2) + (n - 1) * (20 + 25 * (k - 1))
            else 40 * (k - 2) + 25 * (k - 1) * (k - 1)
  {
    hide AlignRowCells, AlignPosition, SizeOf;
    if n > 0 {
      AllAlignSize(ver, n - 1);
      AlignRowSize(ver, n - 1, NumAlign(ver));
      var k := NumAlign(ver);
      assert 2 <= k <= 7;
    }
  }

  lemma CornersSize(size: nat)
    requires size >= 21
    ensures |Corners(size)| == 176 && |TimingRow(size)| == size - 16 && |VersionCells(size)| == 36
  {
    hide Box;
    BoxHas(0, 0, 6, 8, Cell(0, 0));
    BoxHas(7, 0, 1, 8, Cell(0, 0));
    BoxHas(0, size - 8, 6, 8, Cell(0, 0));
    BoxHas(7, size - 8, 1, 8, Cell(0, 0));
    BoxHas(size - 8, 0, 8, 8, Cell(0, 0));
    BoxHas(8, 6, size - 16, 1, Cell(0, 0));
    BoxHas(size - 11, 0, 3, 6, Cell(0, 0));
    BoxHas(0, size - 11, 6, 3, Cell(0, 0));
  }

  lemma {:induction false} FormatCellsHas(size: nat, n: nat, c: Cell)
    requires size >= 21 && n <= 31
    ensures |FormatCells(size, n)| == n
    ensures forall k :: 0 <= k < n && FormatWrite(size, 0, k).cell == c ==> c in FormatCells(size, n)
  {
    hide FormatWrite;
    if n > 0 { FormatCellsHas(size, n - 1, c); }
  }

  lemma SizeSquared(ver: nat, size: nat)
    requires size == ver * 4 + 17
    ensures size * (size - 1) == (16 * ver + 128) * ver + 64 + 4 * ver + 208
  {
  }

  lemma AlignTotal(k: nat)
    ensures 40 * (k - 2) + 25 * (k - 1) * (k - 1) == (25 * k - 10) * k - 55
  {
  }

  lemma CoverParts(ver: nat)
    requires ValidVersion(ver)
    ensures var k := NumAlign(ver);
            |Cover(ver)| == 4 * ver + 208 + (if ver >= 2 then 40 * (k - 2) + 25 * (k - 1) * (k - 1) else 0)
                            + (if ver >= 7 then 36 else 0)
  {
    hide Corners, TimingRow, FormatCells, AllAlignCells, VersionCells;
    var size := SizeOf(ver);
    CornersSize(size);
    FormatCellsHas(size, 31, Cell(0, 0));
    if ver >= 2 { AllAlignSize(ver, NumAlign(ver)); }
  }

  /** The cover leaves exactly the raw data modules. */
  lemma CoverSize(ver: nat)
    requires ValidVersion(ver)
    ensures |Cover(ver)| == SizeOf(ver) * (SizeOf(ver) - 1) - NumRawDataModules(ver)
  {
    hide Cover;
    CoverParts(ver);
    SizeSquared(ver, SizeOf(ver));
    AlignTotal(NumAlign(ver));
  }

  // ---- The cover covers ----

  /** Every cell is inside the grid, and in the timing column or covered. */
  ghost predicate Reaches(ws: seq<Write>, size: nat, cover: seq<Cell>) {
    forall w :: w in ws ==> Inside(w.cell, size) && (w.cell.x == 6 || w.cell in cover)
  }

  lemma ReachesJoin(ws: seq<Write>, vs: seq<Write>, size: nat, cover: seq<Cell>)
    requires Reaches(ws, size, cover) && Reaches(vs, size, cover)
    ensures Reaches(ws + vs, size, cover)
  {
  }

  predicate InCorner(c: Cell, size: nat) {
    Inside(c, size) && ((c.x < 8 && c.y < 8) || (c.x < 8 && c.y + 8 >= size) || (c.x + 8 >= size && c.y < 8))
  }

  lemma CornerCovered(ver: nat, c: Cell)
    requires ValidVersion(ver) && InCorner(c, SizeOf(ver)) && c.x != 6
    ensures c in Cover(ver)
  {
    hide Box, TimingRow, FormatCells, AllAlignCells, VersionCells;
    var size := SizeOf(ver);
    BoxHas(0, 0, 6, 8, c);
    BoxHas(7, 0, 1, 8, c);
    BoxHas(0, size - 8, 6, 8, c);
    BoxHas(7, size - 8, 1, 8, c);
    BoxHas(size - 8, 0, 8, 8, c);
    assert c in Corners(size);
  }

  lemma TimingCovered(ver: nat, c: Cell)
    requires ValidVersion(ver) && Inside(c, SizeOf(ver)) && c.x != 6 && c.y == 6
    ensures c in Cover(ver)
  {
    hide Box, Corners, FormatCells, AllAlignCells, VersionCells;
    var size := SizeOf(ver);
    if InCorner(c, size) {
      CornerCovered(ver, c);
    } else {
      BoxHas(8, 6, size - 16, 1, c);
      assert c in TimingRow(size);
    }
  }

  lemma {:induction false} TimingReaches(ver: nat, n: nat)
    requires ValidVersion(ver) && n <= SizeOf(ver)
    ensures Reaches(Timing(n), SizeOf(ver), Cover(ver))
  {
    hide Cover;
    if n > 0 {
      TimingReaches(ver, n - 1);
      if n - 1 != 6 { TimingCovered(ver, Cell(n - 1, 6)); }
    }
  }

  lemma FinderCellReaches(ver: nat, x: int, y: int, dx: int, dy: int)
    requires ValidVersion(ver) && Abs(dx) <= 4 && Abs(dy) <= 4
    requires var size := SizeOf(ver); (x == 3 && y == 3) || (x == size - 4 && y == 3) || (x == 3 && y == size - 4)
    ensures Reaches(FinderCell(x, y, SizeOf(ver), dx, dy), SizeOf(ver), Cover(ver))
  {
    hide Cover, Distance;
    var size := SizeOf(ver);
    if 0 <= x + dx < size && 0 <= y + dy < size {
      var c := Cell(x + dx, y + dy);
      if c.x != 6 { CornerCovered(ver, c); }
    }
  }

  lemma {:induction false} FinderReaches(ver: nat, x: int, y: int, n: nat)
    requires ValidVersion(ver) && n <= 81
    requires var size := SizeOf(ver); (x == 3 && y == 3) || (x == size - 4 && y == 3) || (x == 3 && y == size - 4)
    ensures Reaches(Finder(x, y, SizeOf(ver), n), SizeOf(ver), Cover(ver))
  {
    hide Cover, SizeOf, FinderCell, Reaches;
    if n > 0 {
      FinderReaches(ver, x, y, n - 1);
      var dx, dy := (n - 1) % 9 - 4, (n - 1) / 9 - 4;
      FinderCellReaches(ver, x, y, dx, dy);
      ReachesJoin(Finder(x, y, SizeOf(ver), n - 1), FinderCell(x, y, SizeOf(ver), dx, dy), SizeOf(ver), Cover(ver));
    } else {
      NothingReaches(SizeOf(ver), Cover(ver));
    }
  }

  lemma NothingReaches(size: nat, cover: seq<Cell>)
    ensures Reaches([], size, cover)
  {
  }

  lemma {:induction false} AlignmentReaches(x: nat, y: nat, n: nat, size: nat, cover: seq<Cell>)
    requires x >= 2 && y >= 2 && n <= 25
    requires forall c: Cell :: Abs(c.x - x) <= 2 && Abs(c.y - y) <= 2 ==> Inside(c, size) && (c.x == 6 || c in cover)
    ensures Reaches(Alignment(x, y, n), size, cover)
  {
    if n > 0 {
      AlignmentReaches(x, y, n - 1, size, cover);
      var c := Cell(x + (n - 1) % 5 - 2, y + (n - 1) / 5 - 2);
      assert Abs(c.x - x) <= 2 && Abs(c.y - y) <= 2;
    }
  }

  lemma {:induction false} AlignRowHas(ver: nat, i: nat, n: nat, j: nat, c: Cell)
    requires 2 <= ver <= MAX_VERSION && i < NumAlign(ver) && j < n <= NumAlign(ver) && c in AlignCells(ver, i, j)
    ensures c in AlignRowCells(ver, i, n)
  {
    hide AlignCells;
    if j < n - 1 { AlignRowHas(ver, i, n - 1, j, c); }
  }

  lemma {:induction false} AllAlignHas(ver: nat, n: nat, i: nat, c: Cell)
    requires 2 <= ver <= MAX_VERSION && i < n <= NumAlign(ver) && c in AlignRowCells(ver, i, NumAlign(ver))
    ensures c in AllAlignCells(ver, n)
  {
    hide AlignRowCells;
    if i < n - 1 { AllAlignHas(ver, n - 1, i, c); }
  }

  lemma AlignCovered(ver: nat, i: nat, j: nat, c: Cell)
    requires 2 <= ver <= MAX_VERSION && i < NumAlign(ver) && j < NumAlign(ver) && !FinderCorner(ver, i, j)
    requires Abs(c.x - AlignPosition(ver, i)) <= 2 && Abs(c.y - AlignPosition(ver, j)) <= 2
    ensures Inside(c, SizeOf(ver)) && (c.x == 6 || c in Cover(ver))
  {
    hide Corners, TimingRow, FormatCells, AllAlignCells, AlignRowCells, VersionCells, Box, AlignStep;
    PositionInside(ver, i);
    PositionInside(ver, j);
    var x, y := AlignPosition(ver, i), AlignPosition(ver, j);
    if c.x != 6 {
      if c.y == 6 && i > 0 && j == 0 {
        TimingCovered(ver, c);
      } else {
        BoxHas(4, y - 2, 2, 5, c);
        BoxHas(7, y - 2, 2, 5, c);
        BoxHas(x - 2, 4, 5, 2, c);
        BoxHas(x - 2, 7, 5, 2, c);
        BoxHas(x - 2, y - 2, 5, 5, c);
        assert c in AlignCells(ver, i, j);
        AlignRowHas(ver, i, NumAlign(ver), j, c);
        AllAlignHas(ver, NumAlign(ver), i, c);
      }
    }
  }

  lemma AlignmentAtReaches(ver: nat, i: nat, j: nat)
    requires 2 <= ver <= MAX_VERSION && i < NumAlign(ver) && j < NumAlign(ver)
    ensures Reaches(AlignmentAt(ver, i, j), SizeOf(ver), Cover(ver))
  {
    hide Cover, SizeOf, FinderCorner, AlignPosition, Alignment;
    PositionInside(ver, i);
    PositionInside(ver, j);
    if !FinderCorner(ver, i, j) {
      var x, y := AlignPosition(ver, i), AlignPosition(ver, j);
      forall c: Cell | Abs(c.x - x) <= 2 && Abs(c.y - y) <= 2
        ensures Inside(c, SizeOf(ver)) && (c.x == 6 || c in Cover(ver))
      {
        AlignCovered(ver, i, j, c);
      }
      AlignmentReaches(x, y, 25, SizeOf(ver), Cover(ver));
    }
  }

  lemma {:induction false} AlignmentRowReaches(ver: nat, i: nat, n: nat)
    requires 2 <= ver <= MAX_VERSION && i < NumAlign(ver) && n <= NumAlign(ver)
    ensures Reaches(AlignmentRow(ver, i, n), SizeOf(ver), Cover(ver))
  {
    hide Cover, SizeOf, AlignmentAt;
    if n > 0 {
      AlignmentRowReaches(ver, i, n - 1);
      AlignmentAtReaches(ver, i, n - 1);
    }
  }

  lemma {:induction false} AlignmentsReach(ver: nat, n: nat)
    requires 2 <= ver <= MAX_VERSION && n <= NumAlign(ver)
    ensures Reaches(Alignments(ver, n), SizeOf(ver), Cover(ver))
  {
    hide Cover, SizeOf, AlignmentRow;
    if n > 0 {
      AlignmentsReach(ver, n - 1);
      AlignmentRowReaches(ver, n - 1, NumAlign(ver));
    }
  }

  lemma VersionCovered(ver: nat, c: Cell)
    requires 7 <= ver <= MAX_VERSION
    requires var size := SizeOf(ver); InBox(c, size - 11, 0, 3, 6) || InBox(c, 0, size - 11, 6, 3)
    ensures Inside(c, SizeOf(ver)) && c in Cover(ver)
  {
    hide Corners, TimingRow, FormatCells, AllAlignCells, Box;
    var size := SizeOf(ver);
    BoxHas(size - 11, 0, 3, 6, c);
    BoxHas(0, size - 11, 6, 3, c);
    assert c in VersionCells(size);
  }

  lemma {:induction false} VersionReaches(ver: nat, bits: bv32, n: nat)
    requires 7 <= ver <= MAX_VERSION && n <= 18
    ensures Reaches(VersionInfo(SizeOf(ver), bits, n), SizeOf(ver), Cover(ver))
  {
    hide Cover;
    if n > 0 {
      VersionReaches(ver, bits, n - 1);
      var a, b := SizeOf(ver) - 11 + (n - 1) % 3, (n - 1) / 3;
      VersionCovered(ver, Cell(a, b));
      VersionCovered(ver, Cell(b, a));
    }
  }

  lemma PatternsReach(ver: nat)
    requires ValidVersion(ver)
    ensures Reaches(Patterns(ver), SizeOf(ver), Cover(ver))
  {
    hide Cover, Timing, Finder, Alignments, VersionInfo, VersionBits;
    var size := SizeOf(ver);
    TimingReaches(ver, size);
    FinderReaches(ver, 3, 3, 81);
    FinderReaches(ver, size - 4, 3, 81);
    FinderReaches(ver, 3, size - 4, 81);
    if ver >= 2 { AlignmentsReach(ver, NumAlign(ver)); }
    if ver >= 7 { VersionReaches(ver, VersionBits(ver), 18); }
  }

  // ---- What is left ----

  lemma {:induction false} ScanPairSize(size: nat, p: nat, verts: nat)
    requires Scannable(size, p + 1) && verts <= size
    ensures |ScanPair(size, p, verts)| == 2 * verts
  {
    if verts > 0 { ScanPairSize(size, p, verts - 1); }
  }

  lemma {:induction false} ScanSize(size: nat, p: nat)
    requires Scannable(size, p)
    ensures |Scan(size, p)| == p * (2 * size)
  {
    hide ScanPair;
    if p > 0 {
      ScanSize(size, p - 1);
      ScanPairSize(size, p - 1, size);
      OneMore(p, 2 * size);
    }
  }

  lemma OneMore(p: nat, n: nat)
    requires p > 0
    ensures p * n == (p - 1) * n + n
  {
  }

  lemma HalfTwice(h: nat, size: nat)
    requires 2 * h == size - 1
    ensures h * (2 * size) == size * (size - 1)
  {
    assert h * (2 * size) == (2 * h) * size;
  }

  lemma FullScanSize(size: nat)
    requires Scannable(size, 0)
    ensures |FullScan(size)| == size * (size - 1)
  {
    hide Scan;
    ScanSize(size, (size - 1) / 2);
    HalfTwice((size - 1) / 2, size);
  }

  ghost function Taken(s: seq<Cell>, f: Modules): set<Cell>
    requires forall c :: c in s ==> c.y < |f| && c.x < |f[c.y]|
  {
    if s == [] then {}
    else
      var n := |s| - 1;
      Taken(s[..n], f) + (if At(f, s[n]) then {s[n]} else {})
  }

  lemma {:induction false} TakenOrFree(s: seq<Cell>, f: Modules)
    requires Distinct(s) && forall c :: c in s ==> c.y < |f| && c.x < |f[c.y]|
    ensures |Free(s, f)| + |Taken(s, f)| == |s|
    ensures forall c :: c in Taken(s, f) ==> c in s && At(f, c)
  {
    hide Distinct, At;
    if s != [] {
      var n := |s| - 1;
      DistinctFront(s);
      TakenOrFree(s[..n], f);
      assert forall c :: c in s <==> c in s[..n] || c == s[n];
    }
  }

  lemma DistinctFront(s: seq<Cell>)
    requires Distinct(s) && s != []
    ensures Distinct(s[..|s| - 1]) && s[|s| - 1] !in s[..|s| - 1]
  {
  }

  lemma {:induction false} ListedSize(s: set<Cell>, list: seq<Cell>)
    requires forall c :: c in s ==> c in list
    ensures |s| <= |list|
    decreases |list|
  {
    if list == [] {
      assert s == {};
    } else {
      var n := |list| - 1;
      ListedSize(s - {list[n]}, list[..n]);
      SubsetSize(s, (s - {list[n]}) + {list[n]});
    }
  }

  lemma FormatCovered(ver: nat, k: nat)
    requires ValidVersion(ver) && k < 31
    ensures FormatWrite(SizeOf(ver), 0, k).cell in Cover(ver)
  {
    hide FormatWrite, Corners, TimingRow, AllAlignCells, VersionCells;
    FormatCellsHas(SizeOf(ver), 31, FormatWrite(SizeOf(ver), 0, k).cell);
  }

  /** Every function module outside the timing column is in the cover. */
  lemma MaskCovered(ver: nat, c: Cell)
    requires ValidVersion(ver) && WritesInside(Patterns(ver), SizeOf(ver)) && Inside(c, SizeOf(ver)) && c.x != 6
    ensures At(FunctionMask(ver, Patterns(ver)), c) ==> c in Cover(ver)
  {
    hide Cover, Patterns, Drawn, Marks, FormatWrite, Blank, At;
    var size, ps := SizeOf(ver), Patterns(ver);
    MarksInside(ps, size);
    FormatInside(size, 0, 31);
    var marked := Drawn(Blank(size), Marks(ps), size);
    MarkedAt(Blank(size), ps, size, c);
    MarkedAt(marked, FormatWrites(size, 0, 31), size, c);
    if Written(ps, c) {
      var i :| 0 <= i < |ps| && ps[i].cell == c;
      PatternsReach(ver);
      assert ps[i] in ps;
    } else if Written(FormatWrites(size, 0, 31), c) {
      var k :| 0 <= k < 31 && FormatWrites(size, 0, 31)[k].cell == c;
      FormatCovered(ver, k);
    }
  }

  /** In every version the patterns the encoder draws lie inside the grid and leave room for the
      codewords. */
  lemma EncoderPatternsFit(ver: nat)
    requires ValidVersion(ver)
    ensures PatternsFit(ver, Patterns(ver))
  {
    hide Cover, Patterns, FunctionMask, FullScan, Free, NumRawDataModules;
    var size, ps := SizeOf(ver), Patterns(ver);
    PatternsReach(ver);
    var f := FunctionMask(ver, ps);
    var scan := FullScan(size);
    ScanVisitsOnce(size);
    ScanInside(size, f);
    TakenOrFree(scan, f);
    forall c | c in Taken(scan, f)
      ensures c in Cover(ver)
    {
      MaskCovered(ver, c);
    }
    ListedSize(Taken(scan, f), Cover(ver));
    FullScanSize(size);
    CoverSize(ver);
    AllVersionsFit(ver);
  }

  /** The patterns of all versions, by version number. */
  function AllPatterns(): (all: seq<seq<Write>>)
    ensures |all| == MAX_VERSION + 1 && forall ver: nat :: ValidVersion(ver) ==> all[ver] == Patterns(ver)
  {
    seq(MAX_VERSION + 1, ver requires 0 <= ver <= MAX_VERSION => if ver == 0 then [] else Patterns(ver))
  }

  lemma AllPatternsFit()
    ensures forall ver: nat :: ValidVersion(ver) ==> PatternsFit(ver, AllPatterns()[ver])
  {
    hide PatternsFit, Patterns;
    forall ver: nat | ValidVersion(ver)
      ensures PatternsFit(ver, AllPatterns()[ver])
    {
      EncoderPatternsFit(ver);
    }
  }
}
