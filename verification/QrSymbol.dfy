/** The QR symbol: drawing the codewords, choosing and applying the mask, and the format
    information, as in-place updates of the module grid. */
module QrSymbol {
  import opened Drawing
  import opened Grid
  import opened Interleave
  import opened MaskPenalty
  import opened QrTables
  import opened Results
  import opened Zigzag
  import Gf256

  const LONG_MAX := 0x7FFF_FFFF_FFFF_FFFF

  lemma OddSize(h: nat)
    ensures (2 * h + 1) % 2 == 1
  {
  }

  function SizeOf(ver: nat): (size: nat)
    requires ver >= 1
    ensures Scannable(size, 0) && 21 <= size
  {
    OddSize(2 * ver + 8);
    ver * 4 + 17
  }

  lemma SizeBounds(ver: nat)
    requires ValidVersion(ver)
    ensures 21 <= SizeOf(ver) <= 177 && SizeOf(ver) % 2 == 1
  {
  }

  ghost function Blank(size: nat): (g: Modules)
    ensures Square(g, size)
    ensures forall c: Cell :: Inside(c, size) ==> !At(g, c)
  {
    seq(size, y => seq(size, x => false))
  }

  lemma FormatInside(size: nat, word: Word, n: nat)
    requires size >= 17 && n <= 31
    ensures WritesInside(FormatWrites(size, word, n), size)
    ensures WritesInside(Marks(FormatWrites(size, word, n)), size)
  {
    hide FormatWrites;
    FormatWritesInside(size, word, n);
    MarksInside(FormatWrites(size, word, n), size);
  }

  ghost function WithFormat(g: Modules, size: nat, word: Word, n: nat): (g': Modules)
    requires Square(g, size) && size >= 17 && n <= 31
    ensures Square(g', size)
  {
    FormatInside(size, word, n);
    Drawn(g, FormatWrites(size, word, n), size)
  }

  ghost function WithFormatMarks(g: Modules, size: nat, word: Word, n: nat): (g': Modules)
    requires Square(g, size) && size >= 17 && n <= 31
    ensures Square(g', size)
  {
    FormatInside(size, word, n);
    Drawn(g, Marks(FormatWrites(size, word, n)), size)
  }

  lemma FormatGrows(g: Modules, f: Modules, size: nat, word: Word, k: nat)
    requires Square(g, size) && Square(f, size) && size >= 17 && k < 31
    ensures var w := FormatWrite(size, word, k);
            Inside(w.cell, size)
            && WithFormat(g, size, word, k + 1) == Put(WithFormat(g, size, word, k), w.cell, w.dark)
            && WithFormatMarks(f, size, word, k + 1) == Put(WithFormatMarks(f, size, word, k), w.cell, true)
  {
    hide Drawn, WordBit;
    var ws, w := FormatWrites(size, word, k), FormatWrite(size, word, k);
    FormatInside(size, word, k);
    FormatInside(size, word, k + 1);
    assert FormatWrites(size, word, k + 1) == ws + [w];
    assert w in ws + [w];
    DrawnAppend(g, ws, w, size);
    assert Marks(ws + [w]) == Marks(ws) + [Write(w.cell, true)];
    DrawnAppend(f, Marks(ws), Write(w.cell, true), size);
  }

  /** Marks do not depend on the word. */
  lemma MarksIgnoreWord(size: nat, w: Word, v: Word, n: nat)
    requires size >= 17 && n <= 31
    ensures Marks(FormatWrites(size, w, n)) == Marks(FormatWrites(size, v, n))
    ensures SameCells(FormatWrites(size, w, n), FormatWrites(size, v, n))
  {
    hide WordBit;
    forall k | 0 <= k < n
      ensures FormatWrites(size, w, n)[k].cell == FormatWrites(size, v, n)[k].cell
    {
    }
  }

  // ---- What a finished symbol is ----

  function GetFormatBits(ecl: Ecc): (w: Word)
    ensures w < 4
  {
    match ecl
    case Low => 1
    case Medium => 0
    case Quartile => 3
    case High => 2
  }

  function LevelNamed(w: Word): Ecc {
    if w == 1 then Low else if w == 0 then Medium else if w == 3 then Quartile else High
  }

  /** A mask number as the three bits of the format information. */
  function MaskWord(m: nat): (w: Word)
    requires m < 8
    ensures w < 8
  {
    match m
    case 0 => 0
    case 1 => 1
    case 2 => 2
    case 3 => 3
    case 4 => 4
    case 5 => 5
    case 6 => 6
    case _ => 7
  }

  function MaskNumber(w: Word): (m: nat)
    ensures m < 8
  {
    if w == 0 then 0 else if w == 1 then 1 else if w == 2 then 2 else if w == 3 then 3
    else if w == 4 then 4 else if w == 5 then 5 else if w == 6 then 6 else 7
  }

  /** The unmasked drawing under one mask, with the format information of that mask. */
  ghost function Candidate(drawing: Modules, isFunction: Modules, size: nat, level: Ecc, m: nat): (g: Modules)
    requires Square(drawing, size) && Square(isFunction, size) && size >= 17 && m < 8
    ensures Square(g, size)
  {
    WithFormat(Masked(drawing, isFunction, size, m), size, FormatWord(GetFormatBits(level), MaskWord(m)), 31)
  }

  method FormatBits(level: Ecc, msk: Word) returns (bits: Word)
    ensures bits == FormatWord(GetFormatBits(level), msk)
  {
    hide FormatStep, FormatData, FormatPack, GetFormatBits;
    var data := FormatData(GetFormatBits(level), msk);
    var rem := data;
    for i := 0 to 10
      invariant rem == FormatRem(data, i)
    {
      rem := FormatStep(rem);
    }
    bits := FormatPack(data, rem);
  }

  /** The modules that carry codewords, in scan order. */
  ghost function DataCells(size: nat, f: Modules): (cells: seq<Cell>)
    requires Scannable(size, 0) && Square(f, size)
    ensures forall c: Cell :: c in cells ==> Inside(c, size)
  {
    ScanInside(size, f);
    Free(FullScan(size), f)
  }

  lemma ScanInside(size: nat, f: Modules)
    requires Scannable(size, 0) && Square(f, size)
    ensures forall c: Cell :: c in FullScan(size) ==> c.y < |f| && c.x < |f[c.y]|
    ensures forall c: Cell :: c in Free(FullScan(size), f) ==> Inside(c, size)
  {
    hide Free, FullScan, Distinct, At;
    ScanVisitsOnce(size);
    FreeKeeps(FullScan(size), f);
  }

  /** They are the modules outside the timing column that are not function modules. */
  lemma DataCellsAre(size: nat, f: Modules)
    requires Scannable(size, 0) && Square(f, size)
    ensures Distinct(DataCells(size, f))
    ensures forall c: Cell :: Inside(c, size) ==>
              (c in DataCells(size, f) <==> c.x != 6 && !At(f, c))
  {
    hide Free, FullScan, Distinct, At;
    ScanVisitsOnce(size);
    ScanInside(size, f);
    FreeKeeps(FullScan(size), f);
  }

  class QrCode {
    const version: nat
    const size: nat
    const errorCorrectionLevel: Ecc
    var mask: int
    var modules: Modules
    var isFunction: Modules

    ghost predicate Valid()
      reads this
    {
      && ValidVersion(version) && size == SizeOf(version)
      && Square(modules, size) && Square(isFunction, size)
    }

    constructor (ver: nat, ecl: Ecc)
      requires ValidVersion(ver)
      ensures Valid() && version == ver && errorCorrectionLevel == ecl
      ensures modules == Blank(size) && isFunction == Blank(size)
    {
      version := ver;
      size := SizeOf(ver);
      errorCorrectionLevel := ecl;
      mask := -1;
      modules := seq(SizeOf(ver), y => seq(SizeOf(ver), x => false));
      isFunction := seq(SizeOf(ver), y => seq(SizeOf(ver), x => false));
    }

    method SetFunctionModule(x: nat, y: nat, isDark: bool)
      requires Valid() && x < size && y < size
      modifies this`modules, this`isFunction
      ensures Valid()
      ensures modules == Put(old(modules), Cell(x, y), isDark)
      ensures isFunction == Put(old(isFunction), Cell(x, y), true)
    {
      modules := Put(modules, Cell(x, y), isDark);
      isFunction := Put(isFunction, Cell(x, y), true);
    }

    /** `SetFunctionModule` as the k-th write of the format information. */
    method SetFormatBit(x: nat, y: nat, isDark: bool,
                        ghost k: nat, ghost m: Modules, ghost f: Modules, ghost bits: Word)
      requires Valid() && k < 31 && FormatWrite(size, bits, k) == Write(Cell(x, y), isDark)
      requires Square(m, size) && modules == WithFormat(m, size, bits, k)
      requires Square(f, size) && isFunction == WithFormatMarks(f, size, bits, k)
      modifies this`modules, this`isFunction
      ensures Valid()
      ensures modules == WithFormat(m, size, bits, k + 1)
      ensures isFunction == WithFormatMarks(f, size, bits, k + 1)
    {
      hide WordBit, WithFormat, WithFormatMarks, FormatWrite;
      FormatGrows(m, f, size, bits, k);
      SetFunctionModule(x, y, isDark);
    }

    method DrawFormatBits(msk: Word)
      requires Valid() && msk < 8
      modifies this`modules, this`isFunction
      ensures Valid()
      ensures modules == WithFormat(old(modules), size, FormatWord(GetFormatBits(errorCorrectionLevel), msk), 31)
      ensures isFunction == WithFormatMarks(old(isFunction), size, FormatWord(GetFormatBits(errorCorrectionLevel), msk), 31)
    {
      hide WordBit, WithFormat, WithFormatMarks, Put, Square;
      var bits := FormatBits(errorCorrectionLevel, msk);
      ghost var m, f := modules, isFunction;
      FormatStart(m, size, bits);
      FormatStart(f, size, bits);
      for i := 0 to 6
        invariant Valid() && modules == WithFormat(m, size, bits, i) && isFunction == WithFormatMarks(f, size, bits, i)
      {
        SetFormatBit(8, i, WordBit(bits, i), i, m, f, bits);
      }
      SetFormatBit(8, 7, WordBit(bits, 6), 6, m, f, bits);
      SetFormatBit(8, 8, WordBit(bits, 7), 7, m, f, bits);
      SetFormatBit(7, 8, WordBit(bits, 8), 8, m, f, bits);
      for i := 9 to 15
        invariant Valid() && modules == WithFormat(m, size, bits, i) && isFunction == WithFormatMarks(f, size, bits, i)
      {
        SetFormatBit(14 - i, 8, WordBit(bits, i), i, m, f, bits);
      }
      for i := 0 to 8
        invariant Valid() && modules == WithFormat(m, size, bits, i + 15)
        invariant isFunction == WithFormatMarks(f, size, bits, i + 15)
      {
        SetFormatBit(size - 1 - i, 8, WordBit(bits, i), i + 15, m, f, bits);
      }
      for i := 8 to 15
        invariant Valid() && modules == WithFormat(m, size, bits, i + 15)
        invariant isFunction == WithFormatMarks(f, size, bits, i + 15)
      {
        SetFormatBit(8, size - 15 + i, WordBit(bits, i), i + 15, m, f, bits);
      }
      SetFormatBit(8, size - 8, true, 30, m, f, bits);
    }

    method DrawCodewords(data: seq<Gf256.Byte>) returns (r: Result<nat>)
      requires Valid()
      modifies this`modules
      ensures Valid()
      ensures r.Ok? <==> |data| == RawCodewords(version)
      ensures r.Fail? ==> r.failure == InvalidArgument && modules == old(modules)
      ensures r.Ok? ==>
                var free := DataCells(size, isFunction);
                r.value == Least(|free|, 8 * |data|) && modules == Placed(old(modules), free, data, r.value)
    {
      hide Free, DataBit, Cells, Placed, Progress, ScanPair, DataCells, RawCodewords, SizeOf;
      if |data| != RawCodewords(version) {
        return Fail(InvalidArgument);
      }
      ghost var g := modules;
      ghost var done: seq<Cell> := [];
      var i := 0;
      Started(g, data);
      var right: int := size - 1;
      ghost var p := 0;
      while right >= 1
        invariant 0 <= p <= (size - 1) / 2
        invariant right == if size - 1 - 2 * p >= 6 then size - 1 - 2 * p else size - 2 - 2 * p
        invariant done == Scan(size, p) && Progress(g, done, data, i)
        decreases right
      {
        if right == 6 {
          right := 5;
        }
        NextHeight(size, p, 0);
        assert Scan(size, p) + ScanPair(size, p, 0) == Scan(size, p);
        for vert := 0 to size
          invariant right == Right(size, p)
          invariant done == Scan(size, p) + ScanPair(size, p, vert) && Progress(g, done, data, i)
        {
          CellsAre(size, p, vert);
          assert Cells(size, p, vert)[..0] == [];
          NextHeight(size, p, vert);
          for j := 0 to 2
            invariant done == Scan(size, p) + ScanPair(size, p, vert) + Cells(size, p, vert)[..j]
            invariant Progress(g, done, data, i)
          {
            var x := right - j;
            var upward := (right + 1) / 2 % 2 == 0;
            var y := if upward then size - 1 - vert else vert;
            var c := Cell(x, y);
            assert c == Cells(size, p, vert)[j];
            assert Cells(size, p, vert)[..j + 1] == Cells(size, p, vert)[..j] + [c];
            i := PlaceBit(c, data, i, g, done);
            done := done + [c];
          }
        }
        NextPair(size, p);
        right := right - 2;
        p := p + 1;
      }
      Finished(g, done, data, i);
      r := Ok(i);
    }

    method ApplyMask(msk: int) returns (r: Result<()>)
      requires Valid()
      modifies this`modules
      ensures Valid()
      ensures r.Ok? <==> 0 <= msk <= 7
      ensures r.Ok? ==> modules == Masked(old(modules), isFunction, size, msk)
      ensures r.Fail? ==> r.failure == DomainError && modules == old(modules)
    {
      hide Inverts, Masked;
      if msk < 0 || msk > 7 {
        return Fail(DomainError);
      }
      ghost var g := modules;
      for y := 0 to size
        invariant Valid()
        invariant forall c: Cell :: Inside(c, size) && c.y < y ==> At(modules, c) == At(Masked(g, isFunction, size, msk), c)
        invariant forall c: Cell :: Inside(c, size) && c.y >= y ==> At(modules, c) == At(g, c)
      {
        for x := 0 to size
          invariant Valid()
          invariant forall c: Cell :: Inside(c, size) && (c.y < y || (c.y == y && c.x < x)) ==>
                      At(modules, c) == At(Masked(g, isFunction, size, msk), c)
          invariant forall c: Cell :: Inside(c, size) && (c.y > y || (c.y == y && c.x >= x)) ==> At(modules, c) == At(g, c)
        {
          var c := Cell(x, y);
          var invert := Inverts(msk, x, y);
          modules := Put(modules, c, At(modules, c) != (invert && !At(isFunction, c)));
        }
      }
      SameModules(modules, Masked(g, isFunction, size, msk), size);
      r := Ok(());
    }

    method GetPenaltyScore() returns (result: int)
      requires Valid()
      ensures result == Penalty(modules, size)
      ensures 0 <= result <= 2568888
    {
      hide LineScore, BalanceTerm, DarkCount, SameBlock, SizeOf, Scannable;
      SizeBounds(version);
      result := 0;
      for y := 0 to size
        invariant result == RowScores(modules, size, y)
      {
        var score := ScoreLine(modules[y]);
        result := result + score;
      }
      ghost var rows := result;
      for x := 0 to size
        invariant result == rows + ColumnScores(modules, size, x)
      {
        var column := seq(size, y requires 0 <= y < size reads this requires Valid() => modules[y][x]);
        assert column == Column(modules, size, x);
        var score := ScoreLine(column);
        result := result + score;
      }
      ghost var lines := result;
      for y := 0 to size - 1
        invariant result == lines + PENALTY_N2 * SquareBlocks(modules, size, y)
      {
        ghost var before := result;
        for x := 0 to size - 1
          invariant result == before + PENALTY_N2 * BlocksInRow(modules, size, y, x)
        {
          if SameBlock(modules, x, y) {
            result := result + PENALTY_N2;
          }
        }
      }
      var dark := CountDark();
      var total := size * size;
      var k := BalanceTerm(dark, total);
      result := result + k * PENALTY_N4;
      PenaltyBound(modules, size);
    }

    method CountDark() returns (dark: nat)
      requires Valid()
      ensures dark == DarkCount(modules)
    {
      dark := 0;
      for y := 0 to |modules|
        invariant dark == DarkCount(modules[..y])
      {
        var row := modules[y];
        ghost var before := dark;
        for x := 0 to |row|
          invariant dark == before + DarkInRow(row[..x])
        {
          assert row[..x + 1][..x] == row[..x];
          if row[x] {
            dark := dark + 1;
          }
        }
        assert row[..|row|] == row;
        assert modules[..y + 1][..y] == modules[..y];
      }
      assert modules[..|modules|] == modules;
    }

    /** The function patterns, as a list of writes, and dummy format information. */
    method DrawFunctionPatterns(patterns: seq<Write>)
      requires Valid() && WritesInside(patterns, size)
      modifies this`modules, this`isFunction
      ensures Valid()
      ensures modules == WithFormat(Drawn(old(modules), patterns, size), size, FormatWord(GetFormatBits(errorCorrectionLevel), 0), 31)
      ensures WritesInside(Marks(patterns), size)
      ensures isFunction ==
              WithFormatMarks(Drawn(old(isFunction), Marks(patterns), size), size, FormatWord(GetFormatBits(errorCorrectionLevel), 0), 31)
    {
      hide Drawn, Marks, WithFormat, WithFormatMarks;
      ghost var m, f := modules, isFunction;
      DrawnNothing(m, size);
      DrawnNothing(f, size);
      assert patterns[..0] == [];
      for i := 0 to |patterns|
        invariant Valid() && DrawnSoFar(m, f, patterns, i)
      {
        DrawnNext(m, f, patterns, size, i);
        assert patterns[i] in patterns;
        SetFunctionModule(patterns[i].cell.x, patterns[i].cell.y, patterns[i].dark);
      }
      assert patterns[..|patterns|] == patterns;
      DrawFormatBits(0);
    }

    ghost predicate DrawnSoFar(m: Modules, f: Modules, patterns: seq<Write>, i: nat)
      reads this
      requires Square(m, size) && Square(f, size)
    {
      && i <= |patterns|
      && WritesInside(patterns[..i], size) && WritesInside(Marks(patterns[..i]), size)
      && modules == Drawn(m, patterns[..i], size) && isFunction == Drawn(f, Marks(patterns[..i]), size)
    }

    /** `modules` is the drawing up to format information, which will be redrawn. */
    ghost predicate Shows(drawing: Modules)
      reads this
    {
      && Valid() && Square(drawing, size) && FormatCovered(isFunction, size)
      && WithFormat(modules, size, 0, 31) == WithFormat(drawing, size, 0, 31)
    }

    method TryMask(m: nat, ghost drawing: Modules)
      requires Shows(drawing) && m < 8
      modifies this`modules, this`isFunction
      ensures Valid() && isFunction == old(isFunction)
      ensures modules == Candidate(drawing, isFunction, size, errorCorrectionLevel, m)
    {
      hide Masked, WithFormat, WithFormatMarks, FormatWord, FormatCovered, MaskWord;
      CandidateReached(modules, drawing, isFunction, size, errorCorrectionLevel, m);
      var done := ApplyMask(m);
      CoveredStays(isFunction, size, FormatWord(GetFormatBits(errorCorrectionLevel), MaskWord(m)));
      DrawFormatBits(MaskWord(m));
    }

    /** Try all eight masks, and keep the first with the least penalty. */
    method ChooseMask(ghost drawing: Modules) returns (msk: int)
      requires Shows(drawing)
      modifies this`modules, this`isFunction
      ensures Shows(drawing) && isFunction == old(isFunction)
      ensures 0 <= msk < 8
      ensures forall m :: 0 <= m < 8 ==>
                Penalty(Candidate(drawing, isFunction, size, errorCorrectionLevel, msk), size)
                <= Penalty(Candidate(drawing, isFunction, size, errorCorrectionLevel, m), size)
    {
      hide Masked, WithFormat, WithFormatMarks, Candidate, Penalty, FormatCovered;
      hide FormatWord, GetFormatBits, MaskWord, SizeOf, ValidVersion, At;
      var minPenalty := LONG_MAX;
      msk := -1;
      ghost var f := isFunction;
      for i := 0 to 8
        invariant Shows(drawing) && isFunction == f
        invariant i == 0 ==> msk == -1 && minPenalty == LONG_MAX
        invariant i > 0 ==> 0 <= msk < i && minPenalty == Penalty(Candidate(drawing, f, size, errorCorrectionLevel, msk), size)
        invariant forall m :: 0 <= m < i ==> minPenalty <= Penalty(Candidate(drawing, f, size, errorCorrectionLevel, m), size)
      {
        CandidateReached(modules, drawing, f, size, errorCorrectionLevel, i);
        TryMask(i, drawing);
        var penalty := GetPenaltyScore();
        if penalty < minPenalty {
          msk := i;
          minPenalty := penalty;
        }
        var undone := ApplyMask(i);
      }
    }

    /** Draw the codewords of `data` and finish the symbol under the given mask, or under the
        best of the eight when `msk` is -1. `patterns` are the timing, finder, alignment and
        version modules. */
    static method Build(ver: int, level: Ecc, patterns: seq<Write>, data: seq<Gf256.Byte>, msk: int)
      returns (r: Result<QrCode>)
      requires ValidVersion(ver) ==> PatternsFit(ver, patterns)
      ensures r.Ok? <==> ValidVersion(ver) && -1 <= msk <= 7 && |data| == NumDataCodewords(ver, level)
      ensures r.Fail? ==>
              r.failure == if ValidVersion(ver) && -1 <= msk <= 7 then InvalidArgument else DomainError
      ensures r.Ok? ==>
              var q := r.value;
              && fresh(q) && q.Valid() && q.version == ver && q.errorCorrectionLevel == level
              && 0 <= q.mask <= 7 && (msk != -1 ==> q.mask == msk)
              && q.modules == SymbolOf(ver, level, patterns, Codewords(ver, level, data), q.mask)
              && (msk == -1 ==> forall m :: 0 <= m < 8 ==>
                    Penalty(q.modules, q.size)
                    <= Penalty(SymbolOf(ver, level, patterns, Codewords(ver, level, data), m), q.size))
    {
      hide SymbolOf, Penalty, Interleaved, Blank, PatternsFit;
      hide EccCodewordsPerBlock, NumErrorCorrectionBlocks, NumRawDataModules, RawCodewords;
      if ver < MIN_VERSION || ver > MAX_VERSION {
        return Fail(DomainError);
      }
      if msk < -1 || msk > 7 {
        return Fail(DomainError);
      }
      var q := new QrCode(ver, level);
      BlocksFit(ver, level);
      var all := AddEccAndInterleave(data, NumBlocks(ver, level), EccLength(ver, level), RawCodewords(ver));
      if all.Fail? {
        return Fail(all.failure);
      }
      q.Draw(patterns, all.value, msk);
      r := Ok(q);
    }

    method Draw(patterns: seq<Write>, codewords: seq<Gf256.Byte>, msk: int)
      requires Valid() && modules == Blank(size) && isFunction == Blank(size)
      requires PatternsFit(version, patterns) && |codewords| == RawCodewords(version)
      requires -1 <= msk <= 7
      modifies this
      ensures Valid() && 0 <= mask <= 7 && (msk != -1 ==> mask == msk)
      ensures modules == SymbolOf(version, errorCorrectionLevel, patterns, codewords, mask)
      ensures msk == -1 ==> forall m :: 0 <= m < 8 ==>
                Penalty(modules, size) <= Penalty(SymbolOf(version, errorCorrectionLevel, patterns, codewords, m), size)
    {
      hide Masked, WithFormat, WithFormatMarks, Candidate, Penalty, FormatCovered, Blank, Drawn, Marks;
      hide Placed, FunctionMask, DataCells;
      DrawFunctionPatterns(patterns);
      MaskIs(version, errorCorrectionLevel, patterns);
      var drawn := DrawCodewords(codewords);
      ghost var drawing := modules;
      var chosen := msk;
      if chosen == -1 {
        chosen := ChooseMask(drawing);
      }
      mask := chosen;
      TryMask(chosen, drawing);
    }

    /** One cell of the scan. */
    method PlaceBit(c: Cell, data: seq<Gf256.Byte>, i: nat, ghost g: Modules, ghost done: seq<Cell>)
      returns (next: nat)
      requires Inside(c, size) && Progress(g, done, data, i)
      modifies this`modules
      ensures Progress(g, done + [c], data, next)
    {
      hide Free, DataBit, Placed;
      PlacedStep(g, done, c, isFunction, data, i);
      if !At(isFunction, c) && i < |data| * 8 {
        modules := Put(modules, c, DataBit(data, i));
        next := i + 1;
      } else {
        next := i;
      }
    }

    lemma Started(g: Modules, data: seq<Gf256.Byte>)
      requires Valid() && g == modules
      ensures Progress(g, [], data, 0)
    {
      FreeNothing(isFunction, g, data);
    }

    lemma Finished(g: Modules, done: seq<Cell>, data: seq<Gf256.Byte>, i: nat)
      requires Progress(g, done, data, i) && done == FullScan(size)
      ensures var free := DataCells(size, isFunction);
              i == Least(|free|, 8 * |data|) && modules == Placed(g, free, data, i)
    {
      hide Scan, Free, Placed;
    }

    /** The scan so far put its bits in the free cells, and nothing else changed. */
    ghost predicate Progress(g: Modules, done: seq<Cell>, data: seq<Gf256.Byte>, i: nat)
      reads this
    {
      && Valid() && Square(g, size)
      && (forall c :: c in done ==> Inside(c, size))
      && (forall c :: c in Free(done, isFunction) ==> Inside(c, size))
      && i == Least(|Free(done, isFunction)|, 8 * |data|)
      && modules == Placed(g, Free(done, isFunction), data, i)
    }
  }

  function LayoutOf(ver: nat, level: Ecc): (l: Layout)
    requires ValidVersion(ver)
    ensures l.Valid() && l.RawLength() == RawCodewords(ver) && l.DataLength() == NumDataCodewords(ver, level)
    ensures l.shortData + 1 + l.ecc <= 255
  {
    BlocksFit(ver, level);
    Plan(NumBlocks(ver, level), EccLength(ver, level), RawCodewords(ver))
  }

  /** The codewords of the symbol: the data in blocks, with error correction, interleaved. */
  ghost function Codewords(ver: nat, level: Ecc, data: seq<Gf256.Byte>): (codewords: seq<Gf256.Byte>)
    requires ValidVersion(ver) && |data| == NumDataCodewords(ver, level)
    ensures |codewords| == RawCodewords(ver)
  {
    Interleaved(LayoutOf(ver, level), data)
  }

  /** The function modules: the patterns and the format information. */
  ghost function FunctionMask(ver: nat, patterns: seq<Write>): (f: Modules)
    requires ver >= 1 && WritesInside(patterns, SizeOf(ver))
    ensures Square(f, SizeOf(ver))
  {
    var size := SizeOf(ver);
    MarksInside(patterns, size);
    WithFormatMarks(Drawn(Blank(size), Marks(patterns), size), size, 0, 31)
  }

  ghost function CodewordCells(ver: nat, patterns: seq<Write>): (cells: seq<Cell>)
    requires ver >= 1 && WritesInside(patterns, SizeOf(ver))
    ensures forall c: Cell :: c in cells ==> Inside(c, SizeOf(ver))
  {
    DataCells(SizeOf(ver), FunctionMask(ver, patterns))
  }

  /** The patterns lie inside the grid and leave room for the codewords. */
  ghost predicate PatternsFit(ver: nat, patterns: seq<Write>)
    requires ValidVersion(ver)
  {
    && WritesInside(patterns, SizeOf(ver))
    && 8 * (RawCodewords(ver)) <= |CodewordCells(ver, patterns)|
  }

  /** The drawing before masking: patterns, dummy format information, and the codewords in
      the data cells. */
  ghost function UnmaskedDrawing(ver: nat, level: Ecc, patterns: seq<Write>, codewords: seq<Gf256.Byte>): (g: Modules)
    requires ValidVersion(ver) && PatternsFit(ver, patterns)
    requires |codewords| == RawCodewords(ver)
    ensures Square(g, SizeOf(ver))
  {
    var size := SizeOf(ver);
    Placed(WithFormat(Drawn(Blank(size), patterns, size), size, FormatWord(GetFormatBits(level), 0), 31),
           CodewordCells(ver, patterns), codewords, 8 * |codewords|)
  }

  ghost function SymbolOf(ver: nat, level: Ecc, patterns: seq<Write>, codewords: seq<Gf256.Byte>, m: nat): (g: Modules)
    requires ValidVersion(ver) && PatternsFit(ver, patterns) && m < 8
    requires |codewords| == RawCodewords(ver)
    ensures Square(g, SizeOf(ver))
  {
    Candidate(UnmaskedDrawing(ver, level, patterns, codewords), FunctionMask(ver, patterns), SizeOf(ver), level, m)
  }

  lemma MaskIs(ver: nat, level: Ecc, patterns: seq<Write>)
    requires ValidVersion(ver) && WritesInside(patterns, SizeOf(ver))
    ensures var size := SizeOf(ver);
            var f := FunctionMask(ver, patterns);
            WritesInside(Marks(patterns), size)
            && f == WithFormatMarks(Drawn(Blank(size), Marks(patterns), size), size, FormatWord(GetFormatBits(level), 0), 31)
            && FormatCovered(f, size)
  {
    hide Drawn, Marks, FormatWrites, FormatWord, At;
    var size := SizeOf(ver);
    var w := FormatWord(GetFormatBits(level), 0);
    MarksInside(patterns, size);
    var g := Drawn(Blank(size), Marks(patterns), size);
    MarksIgnoreWord(size, w, 0, 31);
    FormatInside(size, 0, 31);
    var ws := FormatWrites(size, 0, 31);
    forall i | 0 <= i < |ws|
      ensures At(FunctionMask(ver, patterns), ws[i].cell)
    {
      assert ws[i] in ws;
      MarkedAt(g, ws, size, ws[i].cell);
    }
  }

  /** The format information lies on function modules. */
  ghost predicate FormatCovered(f: Modules, size: nat) {
    Square(f, size) && size >= 17 && WritesCovered(FormatWrites(size, 0, 31), f, size)
  }

  lemma CoveredFor(f: Modules, size: nat, w: Word)
    requires FormatCovered(f, size)
    ensures WritesCovered(FormatWrites(size, w, 31), f, size)
  {
    hide FormatWrites, At, Marks;
    MarksIgnoreWord(size, w, 0, 31);
    FormatInside(size, w, 31);
  }

  lemma CoveredStays(f: Modules, size: nat, w: Word)
    requires FormatCovered(f, size)
    ensures WithFormatMarks(f, size, w, 31) == f
  {
    hide FormatWrites, At, Drawn, Marks;
    CoveredFor(f, size, w);
    MarkedAgain(f, FormatWrites(size, w, 31), size);
  }

  lemma FormatOver(g: Modules, size: nat, w: Word, v: Word)
    requires Square(g, size) && size >= 17
    ensures WithFormat(WithFormat(g, size, w, 31), size, v, 31) == WithFormat(g, size, v, 31)
  {
    hide FormatWrites, Drawn, Marks;
    FormatInside(size, w, 31);
    FormatInside(size, v, 31);
    MarksIgnoreWord(size, w, v, 31);
    DrawnOver(g, FormatWrites(size, w, 31), FormatWrites(size, v, 31), size);
  }

  lemma FormatMasked(g: Modules, f: Modules, size: nat, m: nat, w: Word)
    requires Square(g, size) && FormatCovered(f, size)
    ensures Masked(WithFormat(g, size, w, 31), f, size, m) == WithFormat(Masked(g, f, size, m), size, w, 31)
  {
    hide FormatWrites, Drawn, Marks, Masked;
    FormatInside(size, w, 31);
    CoveredFor(f, size, w);
    MaskDrawn(g, f, FormatWrites(size, w, 31), size, m);
  }

  /** Grids that agree but for format information agree once it is drawn. */
  lemma FormatAgrees(g: Modules, h: Modules, size: nat, w: Word)
    requires Square(g, size) && Square(h, size) && size >= 17
    requires WithFormat(g, size, 0, 31) == WithFormat(h, size, 0, 31)
    ensures WithFormat(g, size, w, 31) == WithFormat(h, size, w, 31)
  {
    hide WithFormat;
    FormatOver(g, size, 0, w);
    FormatOver(h, size, 0, w);
  }

  /** Mask and draw the format information: the candidate. Mask again: back, but for it. */
  lemma CandidateReached(g: Modules, drawing: Modules, f: Modules, size: nat, level: Ecc, m: nat)
    requires Square(g, size) && Square(drawing, size) && FormatCovered(f, size) && m < 8
    requires WithFormat(g, size, 0, 31) == WithFormat(drawing, size, 0, 31)
    ensures WithFormat(Masked(g, f, size, m), size, FormatWord(GetFormatBits(level), MaskWord(m)), 31)
            == Candidate(drawing, f, size, level, m)
    ensures WithFormat(Masked(Candidate(drawing, f, size, level, m), f, size, m), size, 0, 31)
            == WithFormat(drawing, size, 0, 31)
  {
    hide WithFormat, Masked, FormatWord, MaskWord, FormatWrites, WritesCovered;
    var w := FormatWord(GetFormatBits(level), MaskWord(m));
    FormatAgrees(g, drawing, size, w);
    FormatMasked(g, f, size, m, w);
    FormatMasked(drawing, f, size, m, w);
    FormatMasked(Masked(drawing, f, size, m), f, size, m, w);
    MaskTwice(drawing, f, size, m);
    FormatOver(drawing, size, w, 0);
  }

  lemma FormatStart(g: Modules, size: nat, word: Word)
    requires Square(g, size) && size >= 17
    ensures WithFormat(g, size, word, 0) == g && WithFormatMarks(g, size, word, 0) == g
  {
  }

  lemma FreeNothing(isFunction: Modules, g: Modules, data: seq<Gf256.Byte>)
    ensures Free([], isFunction) == [] && Placed(g, [], data, 0) == g
  {
  }

  lemma DrawnNothing(g: Modules, size: nat)
    requires Square(g, size)
    ensures WritesInside([], size) && Drawn(g, [], size) == g && Marks([]) == []
  {
  }

  lemma DrawnNext(m: Modules, f: Modules, patterns: seq<Write>, size: nat, i: nat)
    requires Square(m, size) && Square(f, size) && i < |patterns| && WritesInside(patterns, size)
    ensures WritesInside(patterns[..i], size) && WritesInside(Marks(patterns[..i]), size)
    ensures WritesInside(patterns[..i + 1], size) && WritesInside(Marks(patterns[..i + 1]), size)
    ensures var w := patterns[i];
            Inside(w.cell, size)
            && Drawn(m, patterns[..i + 1], size) == Put(Drawn(m, patterns[..i], size), w.cell, w.dark)
            && Drawn(f, Marks(patterns[..i + 1]), size) == Put(Drawn(f, Marks(patterns[..i]), size), w.cell, true)
  {
    hide Drawn;
    var ws, w := patterns[..i], patterns[i];
    assert patterns[..i + 1] == ws + [w];
    forall v | v in ws + [w]
      ensures Inside(v.cell, size)
    {
      assert v in patterns;
    }
    assert w in patterns;
    MarksInside(ws, size);
    MarksInside(ws + [w], size);
    DrawnAppend(m, ws, w, size);
    assert Marks(ws + [w]) == Marks(ws) + [Write(w.cell, true)];
    DrawnAppend(f, Marks(ws), Write(w.cell, true), size);
  }

  lemma NextHeight(size: nat, p: nat, vert: nat)
    requires Scannable(size, p + 1) && vert < size
    ensures ScanPair(size, p, vert + 1) == ScanPair(size, p, vert) + Cells(size, p, vert)[..2]
    ensures ScanPair(size, p, 0) == []
  {
    hide Cells;
    assert |Cells(size, p, vert)| == 2 by { CellsAre(size, p, vert); }
    assert Cells(size, p, vert)[..2] == Cells(size, p, vert);
  }

  lemma NextPair(size: nat, p: nat)
    requires Scannable(size, p + 1)
    ensures Scan(size, p + 1) == Scan(size, p) + ScanPair(size, p, size)
  {
    hide ScanPair;
  }

  lemma CellsAre(size: nat, p: nat, vert: nat)
    requires Scannable(size, p + 1) && vert < size
    ensures var r := Right(size, p);
            r >= 1 && Cells(size, p, vert) ==
              [Cell(r, ScanRow(size, r, vert)), Cell(r - 1, ScanRow(size, r, vert))]
  {
  }

  // ---- What a reader gets back ----

  /** A 15-bit word from the modules that show it. */
  function PackWord(b: seq<bool>): Word
    requires |b| == 15
  {
    PackHigh(b) | PackLow(b)
  }

  function PackHigh(b: seq<bool>): Word
    requires |b| == 15
  {
    (if b[14] then 0x4000 else 0) | (if b[13] then 0x2000 else 0) | (if b[12] then 0x1000 else 0)
    | (if b[11] then 0x800 else 0) | (if b[10] then 0x400 else 0) | (if b[9] then 0x200 else 0)
    | (if b[8] then 0x100 else 0)
  }

  function PackLow(b: seq<bool>): Word
    requires |b| == 15
  {
    (if b[7] then 0x80 else 0) | (if b[6] then 0x40 else 0) | (if b[5] then 0x20 else 0)
    | (if b[4] then 0x10 else 0) | (if b[3] then 8 else 0) | (if b[2] then 4 else 0)
    | (if b[1] then 2 else 0) | (if b[0] then 1 else 0)
  }

  function WordBits(w: Word): (b: seq<bool>)
    ensures |b| == 15
  {
    [WordBit(w, 0), WordBit(w, 1), WordBit(w, 2), WordBit(w, 3), WordBit(w, 4), WordBit(w, 5), WordBit(w, 6),
     WordBit(w, 7), WordBit(w, 8), WordBit(w, 9), WordBit(w, 10), WordBit(w, 11), WordBit(w, 12), WordBit(w, 13),
     WordBit(w, 14)]
  }

  lemma PackWordBits(w: Word)
    requires w >> 15 == 0
    ensures PackWord(WordBits(w)) == w
  {
    hide PackWord, WordBit, WordBits;
    WordBitsMask(w);
    PackMasked(w);
  }

  /** The bits as mask tests. */
  function MaskBits(w: Word): (b: seq<bool>)
    ensures |b| == 15
  {
    [w & 1 != 0, w & 2 != 0, w & 4 != 0, w & 8 != 0, w & 0x10 != 0, w & 0x20 != 0, w & 0x40 != 0, w & 0x80 != 0,
     w & 0x100 != 0, w & 0x200 != 0, w & 0x400 != 0, w & 0x800 != 0, w & 0x1000 != 0, w & 0x2000 != 0, w & 0x4000 != 0]
  }

  lemma WordBitsMask(w: Word)
    ensures WordBits(w) == MaskBits(w)
  {
  }

  lemma PackMasked(w: Word)
    requires w >> 15 == 0
    ensures PackWord(MaskBits(w)) == w
  {
    hide PackLow, PackHigh, MaskBits;
    LowHalf(w);
    HighHalf(w);
  }

  lemma LowHalf(w: Word)
    ensures PackLow(MaskBits(w)) == w & 0xFF
  {
  }

  lemma HighHalf(w: Word)
    ensures PackHigh(MaskBits(w)) == w & 0x7F00
  {
  }

  /** The format word as the first copy shows it. */
  ghost function ReadFormat(g: Modules, size: nat): Word
    requires Square(g, size) && size >= 17
  {
    PackWord([At(g, FirstCopy(0)), At(g, FirstCopy(1)), At(g, FirstCopy(2)), At(g, FirstCopy(3)),
              At(g, FirstCopy(4)), At(g, FirstCopy(5)), At(g, FirstCopy(6)), At(g, FirstCopy(7)),
              At(g, FirstCopy(8)), At(g, FirstCopy(9)), At(g, FirstCopy(10)), At(g, FirstCopy(11)),
              At(g, FirstCopy(12)), At(g, FirstCopy(13)), At(g, FirstCopy(14))])
  }

  lemma FormatReadBack(g: Modules, size: nat, word: Word)
    requires Square(g, size) && size >= 17 && word >> 15 == 0
    ensures ReadFormat(WithFormat(g, size, word, 31), size) == word
  {
    hide WordBit, PackWord, FirstCopy, At, FormatWrites, Drawn, Marks;
    var h := WithFormat(g, size, word, 31);
    FormatInside(size, word, 31);
    FormatShows(g, size, word, 0); FormatShows(g, size, word, 1); FormatShows(g, size, word, 2);
    FormatShows(g, size, word, 3); FormatShows(g, size, word, 4); FormatShows(g, size, word, 5);
    FormatShows(g, size, word, 6); FormatShows(g, size, word, 7); FormatShows(g, size, word, 8);
    FormatShows(g, size, word, 9); FormatShows(g, size, word, 10); FormatShows(g, size, word, 11);
    FormatShows(g, size, word, 12); FormatShows(g, size, word, 13); FormatShows(g, size, word, 14);
    PackWordBits(word);
  }

  /** The mask a reader finds, and the codewords it finds once that mask is undone. */
  ghost function ReadMask(g: Modules, size: nat): nat
    requires Square(g, size) && size >= 17
  {
    MaskNumber(FormatMask(ReadFormat(g, size)))
  }

  ghost function ReadSymbol(g: Modules, ver: nat, patterns: seq<Write>): seq<Gf256.Byte>
    requires ValidVersion(ver) && PatternsFit(ver, patterns) && Square(g, SizeOf(ver))
  {
    var size := SizeOf(ver);
    var unmasked := Masked(g, FunctionMask(ver, patterns), size, ReadMask(g, size));
    ReadCodewords(unmasked, CodewordCells(ver, patterns), RawCodewords(ver))
  }

  lemma MaskNumberBack(m: nat)
    requires m < 8
    ensures MaskNumber(MaskWord(m)) == m
  {
  }

  lemma LevelBack(ecl: Ecc)
    ensures LevelNamed(GetFormatBits(ecl)) == ecl
  {
  }

  /** The format information names the level and the mask the symbol was finished with. */
  lemma MaskReads(ver: nat, level: Ecc, patterns: seq<Write>, codewords: seq<Gf256.Byte>, m: nat)
    requires ValidVersion(ver) && PatternsFit(ver, patterns) && m < 8
    requires |codewords| == RawCodewords(ver)
    ensures var g := SymbolOf(ver, level, patterns, codewords, m);
            ReadMask(g, SizeOf(ver)) == m && LevelNamed(FormatLevel(ReadFormat(g, SizeOf(ver)))) == level
  {
    hide WithFormat, Masked, FormatWord, FormatMask, FormatLevel, MaskWord, MaskNumber, ReadFormat, GetFormatBits, LevelNamed;
    hide UnmaskedDrawing, FunctionMask, CodewordCells;
    var size := SizeOf(ver);
    var w := FormatWord(GetFormatBits(level), MaskWord(m));
    FormatReads(GetFormatBits(level), MaskWord(m));
    FormatReadBack(Masked(UnmaskedDrawing(ver, level, patterns, codewords), FunctionMask(ver, patterns), size, m), size, w);
    MaskNumberBack(m);
    LevelBack(level);
  }

  /** Reading a finished symbol gives back its codewords, under every mask. */
  lemma SymbolReads(ver: nat, level: Ecc, patterns: seq<Write>, codewords: seq<Gf256.Byte>, m: nat)
    requires ValidVersion(ver) && PatternsFit(ver, patterns) && m < 8
    requires |codewords| == RawCodewords(ver)
    ensures ReadSymbol(SymbolOf(ver, level, patterns, codewords, m), ver, patterns) == codewords
  {
    hide WithFormat, Masked, FormatWord, MaskWord, ReadMask, FunctionMask, CodewordCells, ReadCodewords;
    hide DataBit, Placed, Drawn, Blank, At, Marks, FormatCovered;
    var size := SizeOf(ver);
    var f, w := FunctionMask(ver, patterns), FormatWord(GetFormatBits(level), MaskWord(m));
    var u := UnmaskedDrawing(ver, level, patterns, codewords);
    var cells := CodewordCells(ver, patterns);
    MaskReads(ver, level, patterns, codewords, m);
    MaskIs(ver, level, patterns);
    Unmasks(u, f, size, w, m);
    CellsDistinct(ver, patterns);
    PlacedReads(WithFormat(Drawn(Blank(size), patterns, size), size, FormatWord(GetFormatBits(level), 0), 31),
                cells, codewords, 8 * |codewords|);
    forall i | 0 <= i < 8 * |codewords|
      ensures At(WithFormat(u, size, w, 31), cells[i]) == DataBit(codewords, i)
    {
      NotFunction(ver, patterns, cells[i]);
      FormatElsewhere(u, f, size, w, cells[i]);
    }
    ReadBack(WithFormat(u, size, w, 31), cells, codewords);
  }

  lemma Unmasks(u: Modules, f: Modules, size: nat, w: Word, m: nat)
    requires Square(u, size) && FormatCovered(f, size) && m < 8
    ensures Masked(WithFormat(Masked(u, f, size, m), size, w, 31), f, size, m) == WithFormat(u, size, w, 31)
  {
    hide WithFormat, Masked, WritesCovered, FormatWrites;
    FormatMasked(Masked(u, f, size, m), f, size, m, w);
    MaskTwice(u, f, size, m);
  }

  lemma CellsDistinct(ver: nat, patterns: seq<Write>)
    requires ver >= 1 && WritesInside(patterns, SizeOf(ver))
    ensures Distinct(CodewordCells(ver, patterns))
  {
    hide DataCells, FunctionMask, Distinct;
    DataCellsAre(SizeOf(ver), FunctionMask(ver, patterns));
  }

  lemma NotFunction(ver: nat, patterns: seq<Write>, c: Cell)
    requires ver >= 1 && WritesInside(patterns, SizeOf(ver)) && c in CodewordCells(ver, patterns)
    ensures Inside(c, SizeOf(ver)) && !At(FunctionMask(ver, patterns), c)
  {
    hide DataCells, FunctionMask;
    DataCellsAre(SizeOf(ver), FunctionMask(ver, patterns));
  }

  lemma FormatElsewhere(g: Modules, f: Modules, size: nat, w: Word, c: Cell)
    requires Square(g, size) && FormatCovered(f, size) && Inside(c, size) && !At(f, c)
    ensures At(WithFormat(g, size, w, 31), c) == At(g, c)
  {
    hide FormatWrites, Drawn, Marks, At;
    FormatInside(size, w, 31);
    CoveredFor(f, size, w);
    DrawnAt(g, FormatWrites(size, w, 31), size, c);
  }

  /** When the patterns cover the timing column, every module that is not a function module
      carries data. */
  lemma DataCellsAreAll(ver: nat, patterns: seq<Write>, c: Cell)
    requires ver >= 1 && WritesInside(patterns, SizeOf(ver)) && Inside(c, SizeOf(ver))
    requires forall y: nat :: y < SizeOf(ver) ==> Written(patterns, Cell(6, y))
    ensures c in CodewordCells(ver, patterns) <==> !At(FunctionMask(ver, patterns), c)
  {
    hide DataCells, FunctionMask, At, Written;
    DataCellsAre(SizeOf(ver), FunctionMask(ver, patterns));
    if c.x == 6 {
      assert Written(patterns, Cell(6, c.y)) && c == Cell(6, c.y);
      PatternsAreFunction(ver, patterns, c);
    }
  }

  lemma PatternsAreFunction(ver: nat, patterns: seq<Write>, c: Cell)
    requires ver >= 1 && WritesInside(patterns, SizeOf(ver)) && Inside(c, SizeOf(ver)) && Written(patterns, c)
    ensures At(FunctionMask(ver, patterns), c)
  {
    hide FormatWrites, Drawn, Marks, At, Written;
    var size := SizeOf(ver);
    MarksInside(patterns, size);
    MarkedAt(Blank(size), patterns, size, c);
    FormatInside(size, 0, 31);
    MarkedAt(Drawn(Blank(size), Marks(patterns), size), FormatWrites(size, 0, 31), size, c);
  }
}
