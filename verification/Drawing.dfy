/** Masking, and the modules that are drawn from a list of writes rather than from the
    codewords: the format information (sections 7.8.2 and 7.9 of ISO/IEC 18004). */
module Drawing {
  import opened Grid

  // ---- Masks ----

  /** Whether mask `m` inverts the module in column x, row y. */
  predicate Inverts(m: nat, x: nat, y: nat) {
    match m
    case 0 => (x + y) % 2 == 0
    case 1 => y % 2 == 0
    case 2 => x % 3 == 0
    case 3 => (x + y) % 3 == 0
    case 4 => (x / 3 + y / 2) % 2 == 0
    case 5 => x * y % 2 + x * y % 3 == 0
    case 6 => (x * y % 2 + x * y % 3) % 2 == 0
    case _ => ((x + y) % 2 + x * y % 3) % 2 == 0
  }

  predicate Flips(isFunction: Modules, m: nat, c: Cell)
    requires c.y < |isFunction| && c.x < |isFunction[c.y]|
  {
    Inverts(m, c.x, c.y) && !At(isFunction, c)
  }

  ghost function MaskedRow(g: Modules, isFunction: Modules, size: nat, m: nat, y: nat): (row: seq<bool>)
    requires Square(g, size) && Square(isFunction, size) && y < size
    ensures |row| == size
    ensures forall x :: 0 <= x < size ==> row[x] == (g[y][x] != Flips(isFunction, m, Cell(x, y)))
  {
    seq(size, x requires 0 <= x < size => g[y][x] != Flips(isFunction, m, Cell(x, y)))
  }

  ghost function Masked(g: Modules, isFunction: Modules, size: nat, m: nat): (g': Modules)
    requires Square(g, size) && Square(isFunction, size)
    ensures Square(g', size)
    ensures forall c: Cell :: Inside(c, size) ==> At(g', c) == (At(g, c) != Flips(isFunction, m, c))
  {
    seq(size, y requires 0 <= y < size => MaskedRow(g, isFunction, size, m, y))
  }

  /** Masking twice undoes the mask. */
  lemma MaskTwice(g: Modules, isFunction: Modules, size: nat, m: nat)
    requires Square(g, size) && Square(isFunction, size)
    ensures Masked(Masked(g, isFunction, size, m), isFunction, size, m) == g
  {
    hide Flips, Masked;
    SameModules(Masked(Masked(g, isFunction, size, m), isFunction, size, m), g, size);
  }

  // ---- Lists of writes ----

  datatype Write = Write(cell: Cell, dark: bool)

  ghost predicate WritesInside(ws: seq<Write>, size: nat) {
    forall w :: w in ws ==> Inside(w.cell, size)
  }

  ghost function Drawn(g: Modules, ws: seq<Write>, size: nat): (g': Modules)
    requires Square(g, size) && WritesInside(ws, size)
    ensures Square(g', size)
  {
    if ws == [] then g
    else
      var n := |ws| - 1;
      assert ws[n] in ws;
      Put(Drawn(g, ws[..n], size), ws[n].cell, ws[n].dark)
  }

  ghost predicate Written(ws: seq<Write>, c: Cell) {
    exists i :: 0 <= i < |ws| && ws[i].cell == c
  }

  /** The colour the last write gives a cell. */
  ghost function LastWrite(ws: seq<Write>, c: Cell): bool
    requires Written(ws, c)
  {
    var n := |ws| - 1;
    if ws[n].cell == c then ws[n].dark else LastWrite(ws[..n], c)
  }

  lemma {:induction false} DrawnAt(g: Modules, ws: seq<Write>, size: nat, c: Cell)
    requires Square(g, size) && WritesInside(ws, size) && Inside(c, size)
    ensures At(Drawn(g, ws, size), c) == if Written(ws, c) then LastWrite(ws, c) else At(g, c)
  {
    if ws != [] {
      var n := |ws| - 1;
      DrawnAt(g, ws[..n], size, c);
      assert ws[n].cell != c ==> (Written(ws, c) <==> Written(ws[..n], c));
    }
  }

  lemma {:induction false} WrittenOnce(ws: seq<Write>, i: nat)
    requires i < |ws| && forall j, k :: 0 <= j < k < |ws| ==> ws[j].cell != ws[k].cell
    ensures Written(ws, ws[i].cell) && LastWrite(ws, ws[i].cell) == ws[i].dark
  {
    var n := |ws| - 1;
    if i < n { WrittenOnce(ws[..n], i); }
  }

  lemma DrawnAppend(g: Modules, ws: seq<Write>, w: Write, size: nat)
    requires Square(g, size) && WritesInside(ws + [w], size)
    ensures WritesInside(ws, size)
    ensures Drawn(g, ws + [w], size) == Put(Drawn(g, ws, size), w.cell, w.dark)
  {
    assert (ws + [w])[..|ws|] == ws;
    assert (ws + [w])[|ws|] == w;
    forall v | v in ws
      ensures Inside(v.cell, size)
    {
      assert v in ws + [w];
    }
  }

  /** The same cells are written. */
  ghost predicate SameCells(ws: seq<Write>, vs: seq<Write>) {
    |ws| == |vs| && forall i :: 0 <= i < |ws| ==> ws[i].cell == vs[i].cell
  }

  /** All written cells are function modules. */
  ghost predicate WritesCovered(ws: seq<Write>, isFunction: Modules, size: nat)
    requires Square(isFunction, size)
  {
    WritesInside(ws, size) && forall i :: 0 <= i < |ws| ==> At(isFunction, ws[i].cell)
  }

  /** Drawing over a drawing of the same cells leaves only the second. */
  lemma DrawnOver(g: Modules, ws: seq<Write>, vs: seq<Write>, size: nat)
    requires Square(g, size) && WritesInside(ws, size) && WritesInside(vs, size) && SameCells(ws, vs)
    ensures Drawn(Drawn(g, ws, size), vs, size) == Drawn(g, vs, size)
  {
    hide Drawn, LastWrite, At;
    forall c: Cell | Inside(c, size)
      ensures At(Drawn(Drawn(g, ws, size), vs, size), c) == At(Drawn(g, vs, size), c)
    {
      DrawnAt(Drawn(g, ws, size), vs, size, c);
      DrawnAt(g, vs, size, c);
      DrawnAt(g, ws, size, c);
      assert Written(ws, c) <==> Written(vs, c);
    }
    SameModules(Drawn(Drawn(g, ws, size), vs, size), Drawn(g, vs, size), size);
  }

  /** Masking does not see what is drawn on function modules, nor the other way round. */
  lemma MaskDrawn(g: Modules, isFunction: Modules, ws: seq<Write>, size: nat, m: nat)
    requires Square(g, size) && Square(isFunction, size) && WritesCovered(ws, isFunction, size)
    ensures Masked(Drawn(g, ws, size), isFunction, size, m) == Drawn(Masked(g, isFunction, size, m), ws, size)
  {
    hide Drawn, LastWrite, Masked, Inverts, At;
    var left := Masked(Drawn(g, ws, size), isFunction, size, m);
    var right := Drawn(Masked(g, isFunction, size, m), ws, size);
    forall c: Cell | Inside(c, size)
      ensures At(left, c) == At(right, c)
    {
      DrawnAt(g, ws, size, c);
      DrawnAt(Masked(g, isFunction, size, m), ws, size, c);
    }
    SameModules(left, right, size);
  }

  /** The function-module marks that go with a list of writes. */
  ghost function Marks(ws: seq<Write>): (ms: seq<Write>)
    ensures |ms| == |ws|
    ensures forall i :: 0 <= i < |ws| ==> ms[i] == Write(ws[i].cell, true)
  {
    seq(|ws|, i requires 0 <= i < |ws| => Write(ws[i].cell, true))
  }

  lemma MarksInside(ws: seq<Write>, size: nat)
    requires WritesInside(ws, size)
    ensures WritesInside(Marks(ws), size)
  {
    forall m | m in Marks(ws)
      ensures Inside(m.cell, size)
    {
      var i :| 0 <= i < |ws| && m == Marks(ws)[i];
      assert ws[i] in ws;
    }
  }

  lemma {:induction false} MarksAreTrue(ws: seq<Write>, c: Cell)
    ensures Written(ws, c) <==> Written(Marks(ws), c)
    ensures Written(ws, c) ==> LastWrite(Marks(ws), c)
  {
    if ws != [] {
      var n := |ws| - 1;
      MarksAreTrue(ws[..n], c);
      assert Marks(ws)[..n] == Marks(ws[..n]);
      forall i | 0 <= i < |ws|
        ensures Marks(ws)[i].cell == ws[i].cell
      {
      }
    }
  }

  /** Marking makes exactly the written cells function modules, besides those that were. */
  lemma MarkedAt(isFunction: Modules, ws: seq<Write>, size: nat, c: Cell)
    requires Square(isFunction, size) && WritesInside(ws, size) && Inside(c, size)
    ensures WritesInside(Marks(ws), size)
    ensures At(Drawn(isFunction, Marks(ws), size), c) <==> Written(ws, c) || At(isFunction, c)
  {
    hide Drawn, LastWrite, At, Marks;
    MarksInside(ws, size);
    MarksAreTrue(ws, c);
    DrawnAt(isFunction, Marks(ws), size, c);
  }

  /** Marking function modules again changes nothing. */
  lemma MarkedAgain(isFunction: Modules, ws: seq<Write>, size: nat)
    requires Square(isFunction, size) && WritesCovered(ws, isFunction, size)
    ensures WritesInside(Marks(ws), size) && Drawn(isFunction, Marks(ws), size) == isFunction
  {
    hide Drawn, At, Marks;
    MarksInside(ws, size);
    forall c: Cell | Inside(c, size)
      ensures At(Drawn(isFunction, Marks(ws), size), c) == At(isFunction, c)
    {
      MarkedAt(isFunction, ws, size, c);
    }
    SameModules(Drawn(isFunction, Marks(ws), size), isFunction, size);
  }

  // ---- Format information ----

  type Word = bv16

  /** One step of the division by the BCH(15,5) generator 0x537. */
  function FormatStep(rem: Word): Word {
    (rem << 1) ^ ((rem >> 9) * 0x537)
  }

  function FormatRem(data: Word, n: nat): Word {
    if n == 0 then data else FormatStep(FormatRem(data, n - 1))
  }

  function FormatData(level: Word, mask: Word): Word {
    (level << 3) | mask
  }

  function FormatPack(data: Word, rem: Word): Word {
    ((data << 10) | rem) ^ 0x5412
  }

  /** The 15 bits drawn for a level's format bits and a mask. */
  function FormatWord(level: Word, mask: Word): Word {
    FormatPack(FormatData(level, mask), FormatRem(FormatData(level, mask), 10))
  }

  lemma FormatStepBound(rem: Word)
    requires rem < 1024
    ensures FormatStep(rem) < 1024
  {
  }

  lemma {:induction false} FormatRemBound(data: Word, n: nat)
    requires data < 1024
    ensures FormatRem(data, n) < 1024
  {
    hide FormatStep;
    if n > 0 {
      FormatRemBound(data, n - 1);
      FormatStepBound(FormatRem(data, n - 1));
    }
  }

  lemma PackUnpack(data: Word, rem: Word)
    requires data < 32 && rem < 1024
    ensures FormatPack(data, rem) >> 15 == 0
    ensures (FormatPack(data, rem) ^ 0x5412) >> 10 == data
  {
  }

  lemma DataFields(level: Word, mask: Word)
    requires level < 4 && mask < 8
    ensures FormatData(level, mask) < 32
    ensures FormatData(level, mask) & 7 == mask && FormatData(level, mask) >> 3 == level
  {
  }

  function FormatMask(word: Word): Word {
    ((word ^ 0x5412) >> 10) & 7
  }

  function FormatLevel(word: Word): Word {
    ((word ^ 0x5412) >> 10) >> 3
  }

  /** The word fits 15 bits and gives back the level and the mask. */
  lemma FormatReads(level: Word, mask: Word)
    requires level < 4 && mask < 8
    ensures FormatWord(level, mask) >> 15 == 0
    ensures FormatMask(FormatWord(level, mask)) == mask
    ensures FormatLevel(FormatWord(level, mask)) == level
  {
    hide FormatPack, FormatData, FormatRem;
    var data := FormatData(level, mask);
    DataFields(level, mask);
    FormatRemBound(data, 10);
    PackUnpack(data, FormatRem(data, 10));
  }

  function WordBit(word: Word, i: nat): bool
    requires i < 15
  {
    match i
    case 0 => word & 1 != 0
    case 1 => (word >> 1) & 1 != 0
    case 2 => (word >> 2) & 1 != 0
    case 3 => (word >> 3) & 1 != 0
    case 4 => (word >> 4) & 1 != 0
    case 5 => (word >> 5) & 1 != 0
    case 6 => (word >> 6) & 1 != 0
    case 7 => (word >> 7) & 1 != 0
    case 8 => (word >> 8) & 1 != 0
    case 9 => (word >> 9) & 1 != 0
    case 10 => (word >> 10) & 1 != 0
    case 11 => (word >> 11) & 1 != 0
    case 12 => (word >> 12) & 1 != 0
    case 13 => (word >> 13) & 1 != 0
    case _ => (word >> 14) & 1 != 0
  }

  /** Where bit `i` of the first copy goes. */
  function FirstCopy(i: nat): Cell
    requires i < 15
  {
    if i <= 5 then Cell(8, i)
    else if i == 6 then Cell(8, 7)
    else if i == 7 then Cell(8, 8)
    else if i == 8 then Cell(7, 8)
    else Cell(14 - i, 8)
  }

  /** Where bit `i` of the second copy goes. */
  function SecondCopy(size: nat, i: nat): Cell
    requires i < 15 && size >= 17
  {
    if i < 8 then Cell(size - 1 - i, 8) else Cell(8, size - 15 + i)
  }

  /** The writes of `drawFormatBits`, in order. */
  ghost function FormatWrites(size: nat, word: Word, n: nat): (ws: seq<Write>)
    requires size >= 17 && n <= 31
    ensures |ws| == n && forall k :: 0 <= k < n ==> ws[k] == FormatWrite(size, word, k)
  {
    seq(n, k requires 0 <= k < n => FormatWrite(size, word, k))
  }

  function FormatWrite(size: nat, word: Word, k: nat): Write
    requires size >= 17 && k < 31
  {
    if k < 15 then Write(FirstCopy(k), WordBit(word, k))
    else if k < 30 then Write(SecondCopy(size, k - 15), WordBit(word, k - 15))
    else Write(Cell(8, size - 8), true)
  }

  lemma FormatWritesInside(size: nat, word: Word, n: nat)
    requires size >= 17 && n <= 31
    ensures WritesInside(FormatWrites(size, word, n), size)
  {
    hide WordBit;
    var ws := FormatWrites(size, word, n);
    forall w | w in ws
      ensures Inside(w.cell, size)
    {
      var k :| 0 <= k < n && ws[k] == w;
    }
  }

  /** No format cell is written twice. */
  lemma FormatCellsDiffer(size: nat, word: Word, j: nat, k: nat)
    requires size >= 17 && j < k < 31
    ensures FormatWrite(size, word, j).cell != FormatWrite(size, word, k).cell
  {
    hide WordBit;
  }

  /** After drawing, both copies show the word and the last module is dark, whatever was there before. */
  lemma FormatShows(g: Modules, size: nat, word: Word, i: nat)
    requires Square(g, size) && size >= 17 && i < 15
    requires WritesInside(FormatWrites(size, word, 31), size)
    ensures Inside(FirstCopy(i), size) && Inside(SecondCopy(size, i), size)
    ensures At(Drawn(g, FormatWrites(size, word, 31), size), FirstCopy(i)) == WordBit(word, i)
    ensures At(Drawn(g, FormatWrites(size, word, 31), size), SecondCopy(size, i)) == WordBit(word, i)
    ensures At(Drawn(g, FormatWrites(size, word, 31), size), Cell(8, size - 8))
  {
    hide WordBit, Drawn, LastWrite, FormatWrites, At;
    var ws := FormatWrites(size, word, 31);
    forall j, k | 0 <= j < k < |ws|
      ensures ws[j].cell != ws[k].cell
    {
      FormatCellsDiffer(size, word, j, k);
    }
    WrittenOnce(ws, i);
    WrittenOnce(ws, i + 15);
    WrittenOnce(ws, 30);
    DrawnAt(g, ws, size, FirstCopy(i));
    DrawnAt(g, ws, size, SecondCopy(size, i));
    DrawnAt(g, ws, size, Cell(8, size - 8));
  }

  // ---- The format code ----

  function Count(bit: bool): bv4 {
    if bit then 1 else 0
  }

  function Weight(w: Word): bv4 {
    Count(w & 1 != 0) + Count(w & 2 != 0) + Count(w & 4 != 0) + Count(w & 8 != 0)
    + Count(w & 0x10 != 0) + Count(w & 0x20 != 0) + Count(w & 0x40 != 0) + Count(w & 0x80 != 0)
    + Count(w & 0x100 != 0) + Count(w & 0x200 != 0) + Count(w & 0x400 != 0) + Count(w & 0x800 != 0)
    + Count(w & 0x1000 != 0) + Count(w & 0x2000 != 0) + Count(w & 0x4000 != 0)
  }

  /** The ten division steps written out. */
  function FormatRemFlat(data: Word): Word {
    var r1 := FormatStep(data);
    var r2 := FormatStep(r1);
    var r3 := FormatStep(r2);
    var r4 := FormatStep(r3);
    var r5 := FormatStep(r4);
    var r6 := FormatStep(r5);
    var r7 := FormatStep(r6);
    var r8 := FormatStep(r7);
    var r9 := FormatStep(r8);
    FormatStep(r9)
  }

  lemma FormatRemIsFlat(data: Word)
    ensures FormatRem(data, 10) == FormatRemFlat(data)
  {
    hide FormatStep, FormatRem;
    FormatRemStep(data, 1); FormatRemStep(data, 2); FormatRemStep(data, 3); FormatRemStep(data, 4);
    FormatRemStep(data, 5); FormatRemStep(data, 6); FormatRemStep(data, 7); FormatRemStep(data, 8);
    FormatRemStep(data, 9); FormatRemStep(data, 10);
  }

  lemma FormatRemStep(data: Word, n: nat)
    requires n >= 1
    ensures FormatRem(data, n) == FormatStep(FormatRem(data, n - 1))
    ensures n == 1 ==> FormatRem(data, n) == FormatStep(data)
  {
    hide FormatStep;
  }

  function XorWord(a: Word, b: Word): Word {
    a ^ b
  }

  function Codeword(data: Word, rem: Word): Word {
    (data << 10) | rem
  }

  /** The step for a ten-bit remainder, with the multiplication spelled out as shifts. */
  function ShiftStep(rem: Word): Word {
    var t := rem >> 9;
    (rem << 1) ^ t ^ (t << 1) ^ (t << 2) ^ (t << 4) ^ (t << 5) ^ (t << 8) ^ (t << 10)
  }

  lemma FormatStepShifts(rem: Word)
    requires rem < 1024
    ensures FormatStep(rem) == ShiftStep(rem)
  {
  }

  lemma ShiftStepXor(a: Word, b: Word)
    ensures ShiftStep(XorWord(a, b)) == XorWord(ShiftStep(a), ShiftStep(b))
    ensures a < 1024 && b < 1024 ==> XorWord(a, b) < 1024
  {
  }

  lemma FormatStepXor(a: Word, b: Word)
    requires a < 1024 && b < 1024
    ensures FormatStep(XorWord(a, b)) == XorWord(FormatStep(a), FormatStep(b))
  {
    hide FormatStep, ShiftStep, XorWord;
    ShiftStepXor(a, b);
    FormatStepShifts(a);
    FormatStepShifts(b);
    FormatStepShifts(XorWord(a, b));
  }

  lemma {:induction false} FormatRemXor(a: Word, b: Word, n: nat)
    requires a < 32 && b < 32
    ensures FormatRem(XorWord(a, b), n) == XorWord(FormatRem(a, n), FormatRem(b, n))
  {
    hide FormatStep, XorWord;
    if n > 0 {
      FormatRemXor(a, b, n - 1);
      FormatRemBound(a, n - 1);
      FormatRemBound(b, n - 1);
      FormatStepXor(FormatRem(a, n - 1), FormatRem(b, n - 1));
    }
  }

  lemma PackXor(a: Word, r: Word, b: Word, s: Word)
    requires a < 32 && b < 32 && r < 1024 && s < 1024
    ensures XorWord(FormatPack(a, r), FormatPack(b, s)) == Codeword(XorWord(a, b), XorWord(r, s))
    ensures XorWord(a, b) < 32 && (XorWord(a, b) == 0 <==> a == b)
  {
  }

  lemma FlatWeight(d: Word)
    requires 0 < d < 32
    ensures Weight(Codeword(d, FormatRemFlat(d))) >= 7
  {
  }

  /** The words of two different (level, mask) pairs differ in at least seven bits, so
      format information with three damaged bits still has one reading. */
  lemma FormatDistance(level: Word, mask: Word, level': Word, mask': Word)
    requires level < 4 && mask < 8 && level' < 4 && mask' < 8
    requires level != level' || mask != mask'
    ensures Weight(XorWord(FormatWord(level, mask), FormatWord(level', mask'))) >= 7
  {
    hide FormatPack, FormatData, FormatRem, FormatRemFlat, Weight, XorWord, Codeword;
    var a, b := FormatData(level, mask), FormatData(level', mask');
    DataFields(level, mask);
    DataFields(level', mask');
    FormatRemBound(a, 10);
    FormatRemBound(b, 10);
    PackXor(a, FormatRem(a, 10), b, FormatRem(b, 10));
    FormatRemXor(a, b, 10);
    FormatRemIsFlat(XorWord(a, b));
    FlatWeight(XorWord(a, b));
  }
}
