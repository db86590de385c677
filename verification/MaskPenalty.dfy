/** The penalty score that decides between masks (section 7.8.3 of ISO/IEC 18004).

    Each line is scored in one pass with a history of its last seven run lengths. The
    specification scores the run-length encoding of the line, extended by a light
    border as long as the line at either end. */
module MaskPenalty {
  import opened Grid

  const PENALTY_N1 := 3
  const PENALTY_N2 := 3
  const PENALTY_N3 := 40
  const PENALTY_N4 := 10

  // ---- Run-length encoding ----

  /** Run lengths of alternating colours; the earliest run is light. */
  datatype RunList = Nil | Then(before: RunList, length: nat)

  predicate Dark(r: RunList) {
    match r
    case Nil => true
    case Then(b, _) => !Dark(b)
  }

  /** The encoding of the first `x` modules of a line; the first light run may be empty. */
  ghost function Runs(line: seq<bool>, x: nat): (r: RunList)
    requires x <= |line|
    ensures r.Then? && AllButFirstPositive(r)
  {
    if x == 0 then Then(Nil, 0)
    else
      var r := Runs(line, x - 1);
      if line[x - 1] == Dark(r) then Then(r.before, r.length + 1) else Then(r, 1)
  }

  ghost predicate AllButFirstPositive(r: RunList) {
    r.Then? && r.before.Then? ==> r.length > 0 && AllButFirstPositive(r.before)
  }

  ghost function Repeat(color: bool, n: nat): seq<bool> {
    seq(n, _ => color)
  }

  ghost function Expand(r: RunList): seq<bool> {
    match r
    case Nil => []
    case Then(b, n) => Expand(b) + Repeat(Dark(r), n)
  }

  /** The encoding describes the line. */
  lemma {:induction false} ExpandRuns(line: seq<bool>, x: nat)
    requires x <= |line|
    ensures Expand(Runs(line, x)) == line[..x]
  {
    if x == 0 {
      assert Expand(Nil) == [];
    } else {
      ExpandRuns(line, x - 1);
      var r, bit := Runs(line, x - 1), line[x - 1];
      assert line[..x] == line[..x - 1] + [bit];
      assert Repeat(bit, r.length + 1) == Repeat(bit, r.length) + [bit];
      assert Repeat(bit, 1) == [bit];
    }
  }

  /** `size` light modules in front. */
  ghost function Widen(r: RunList, size: nat): RunList {
    match r
    case Nil => Nil
    case Then(b, n) => Then(Widen(b, size), if b == Nil then n + size else n)
  }

  /** The encoding with `size` light modules on either side. */
  ghost function Bordered(r: RunList, size: nat): RunList
    requires r.Then?
  {
    if Dark(r) then Then(Widen(r, size), size) else Widen(Then(r.before, r.length + size), size)
  }

  lemma {:induction false} ExpandWiden(r: RunList, size: nat)
    requires r.Then?
    ensures Dark(Widen(r, size)) == Dark(r)
    ensures Expand(Widen(r, size)) == Repeat(false, size) + Expand(r)
  {
    if r.before == Nil {
      assert Repeat(false, r.length + size) == Repeat(false, size) + Repeat(false, r.length);
    } else {
      ExpandWiden(r.before, size);
    }
  }

  lemma RepeatSplit(color: bool, n: nat, m: nat)
    ensures Repeat(color, n + m) == Repeat(color, n) + Repeat(color, m)
  {
  }

  lemma ExpandLonger(b: RunList, n: nat, m: nat)
    requires !Dark(Then(b, n))
    ensures Expand(Then(b, n + m)) == Expand(Then(b, n)) + Repeat(false, m)
  {
    hide Repeat;
    RepeatSplit(false, n, m);
  }

  lemma BorderExpands(r: RunList, size: nat)
    requires r.Then?
    ensures Expand(Bordered(r, size)) == Repeat(false, size) + Expand(r) + Repeat(false, size)
  {
    hide Repeat, Expand, Widen;
    if Dark(r) {
      ExpandWiden(r, size);
      ExpandLonger(Widen(r, size), 0, size);
      ExpandNothing(Widen(r, size));
    } else {
      ExpandWiden(Then(r.before, r.length + size), size);
      ExpandLonger(r.before, r.length, size);
      assert r == Then(r.before, r.length);
    }
  }

  lemma ExpandNothing(r: RunList)
    ensures Expand(Then(r, 0)) == Expand(r)
  {
  }

  /** The bordered encoding describes the line with the border. */
  lemma ExpandBordered(line: seq<bool>, size: nat)
    ensures Expand(Bordered(Runs(line, |line|), size)) == Repeat(false, size) + line + Repeat(false, size)
  {
    hide Repeat, Expand, Bordered, Runs;
    ExpandRuns(line, |line|);
    assert line[..|line|] == line;
    BorderExpands(Runs(line, |line|), size);
  }

  // ---- The declarative score of a line ----

  /** A run of n >= 5 modules costs n - 2. */
  ghost function LongRuns(r: RunList): nat {
    match r
    case Nil => 0
    case Then(b, n) => LongRuns(b) + (if n >= 5 then n - 2 else 0)
  }

  /** The length of the k-th run from the end; 0 when there is none. */
  ghost function Latest(r: RunList, k: nat): nat {
    match r
    case Nil => 0
    case Then(b, n) => if k == 0 then n else Latest(b, k - 1)
  }

  ghost function RunCount(r: RunList): nat {
    match r
    case Nil => 0
    case Then(b, _) => RunCount(b) + 1
  }

  /** Dark and light in the ratio 1:1:3:1:1, with light of four units on one side and of
      one on the other; when both sides have four it counts both ways round. */
  ghost function FinderLike(l1: nat, d1: nat, l2: nat, d2: nat, l3: nat, d3: nat, l4: nat): nat {
    if d1 > 0 && l2 == d1 && d2 == 3 * d1 && l3 == d1 && d3 == d1 then
      (if l1 >= d1 && l4 >= 4 * d1 then 1 else 0) + (if l1 >= 4 * d1 && l4 >= d1 then 1 else 0)
    else 0
  }

  /** Over all windows of seven runs that begin and end light. */
  ghost function FinderMatches(r: RunList): nat {
    if r == Nil then 0
    else
      FinderMatches(r.before)
      + (if Dark(r) || RunCount(r) < 7 then 0
         else FinderLike(Latest(r, 6), Latest(r, 5), Latest(r, 4), Latest(r, 3), Latest(r, 2), Latest(r, 1), Latest(r, 0)))
  }

  ghost function LineScore(line: seq<bool>): nat {
    LongRuns(Runs(line, |line|)) + PENALTY_N3 * FinderMatches(Bordered(Runs(line, |line|), |line|))
  }

  // ---- The seven-entry history ----

  /** The history after the runs `r`: latest first, zero where there was no run. */
  ghost function History(r: RunList): (h: seq<int>)
    ensures |h| == 7
  {
    [Latest(r, 0), Latest(r, 1), Latest(r, 2), Latest(r, 3), Latest(r, 4), Latest(r, 5), Latest(r, 6)]
  }

  function CountPatterns(h: seq<int>): nat
    requires |h| == 7
  {
    var n := h[1];
    var core := n > 0 && h[2] == n && h[3] == n * 3 && h[4] == n && h[5] == n;
    (if core && h[0] >= n * 4 && h[6] >= n then 1 else 0)
    + (if core && h[6] >= n * 4 && h[0] >= n then 1 else 0)
  }

  lemma {:induction false} LatestBeyond(r: RunList, k: nat)
    requires k >= RunCount(r)
    ensures Latest(r, k) == 0
  {
    if r.Then? { LatestBeyond(r.before, k - 1); }
  }

  /** Counting on the history counts the window that ends with the latest run. */
  lemma CountIsWindow(r: RunList)
    requires r.Then?
    ensures FinderMatches(r) ==
            FinderMatches(r.before) + (if Dark(r) then 0 else CountPatterns(History(r)))
  {
    if RunCount(r) < 7 { LatestBeyond(r, 6); }
  }

  method AddHistory(runLength: nat, history: array<int>, size: nat, ghost r: RunList)
    requires history.Length == 7 && history[..] == History(r)
    requires r.Then? ==> r.length > 0
    modifies history
    ensures history[..] == History(Then(r, if r == Nil then runLength + size else runLength))
  {
    var length := if history[0] == 0 then runLength + size else runLength;
    assert history[..][0] == 0 <==> r == Nil;
    for i := 6 downto 0
      invariant forall j :: 0 <= j <= i ==> history[j] == old(history[j])
      invariant forall j :: i < j < 7 ==> history[j] == old(history[j - 1])
    {
      history[i + 1] := history[i];
    }
    history[0] := length;
    assert history[..] == [length] + old(history[..])[..6];
  }

  /** Closing the line: a last dark run is completed, and then a light run that takes in
      the border. */
  lemma LineEnds(r: RunList, size: nat)
    requires r.Then? && size > 0 && AllButFirstPositive(r)
    ensures Dark(r) && Widen(r, size).Then? ==> Widen(r, size).length > 0
    ensures Widen(r.before, size).Then? ==> Widen(r.before, size).length > 0
    ensures var c := if Dark(r) then Widen(r, size) else Widen(r.before, size);
            var light := (if Dark(r) then 0 else r.length) + size;
            var closed := Then(c, if c == Nil then light + size else light);
            closed == Bordered(r, size)
            && FinderMatches(closed) == FinderMatches(Widen(r.before, size)) + CountPatterns(History(closed))
  {
    hide History, CountPatterns, FinderMatches, Widen, AllButFirstPositive, Bordered;
    WidenDark(r, size);
    RunsPositive(r);
    if r.before.Then? {
      WidenedLength(r, size);
      WidenedLength(r.before, size);
    } else {
      WidenNothing(size);
    }
    if Dark(r) { EndsDark(r, size); } else { EndsLight(r, size); }
  }

  lemma RunsPositive(r: RunList)
    requires r.Then? && AllButFirstPositive(r)
    ensures Dark(r) ==> r.before.Then?
    ensures r.before.Then? ==> r.length > 0 && (r.before.before.Then? ==> r.before.length > 0)
  {
    assert Dark(Nil);
    if r.before.Then? { assert AllButFirstPositive(r.before); }
  }

  lemma WidenedLength(r: RunList, size: nat)
    requires r.Then? && size > 0 && (r.before.Then? ==> r.length > 0)
    ensures Widen(r, size).Then? && Widen(r, size).length > 0
  {
  }

  lemma WidenNothing(size: nat)
    ensures Widen(Nil, size) == Nil
  {
  }

  lemma EndsDark(r: RunList, size: nat)
    requires r.Then? && size > 0 && AllButFirstPositive(r) && Dark(r) && Dark(Widen(r, size))
    ensures var c := Widen(r, size);
            var closed := Then(c, if c == Nil then size + size else size);
            closed == Bordered(r, size)
            && FinderMatches(closed) == FinderMatches(Widen(r.before, size)) + CountPatterns(History(closed))
  {
    var c := Widen(r, size);
    hide History, CountPatterns, FinderMatches;
    CountIsWindow(Then(c, if c == Nil then size + size else size));
    CountIsWindow(c);
  }

  lemma EndsLight(r: RunList, size: nat)
    requires r.Then? && size > 0 && AllButFirstPositive(r) && !Dark(r)
    ensures var c := Widen(r.before, size);
            var light := r.length + size;
            var closed := Then(c, if c == Nil then light + size else light);
            closed == Bordered(r, size)
            && FinderMatches(closed) == FinderMatches(c) + CountPatterns(History(closed))
  {
    var c := Widen(r.before, size);
    var light := r.length + size;
    var closed := Then(c, if c == Nil then light + size else light);
    hide History, CountPatterns, FinderMatches;
    WidenDark(r.before, size);
    CountIsWindow(closed);
  }

  lemma {:induction false} WidenDark(r: RunList, size: nat)
    ensures Dark(Widen(r, size)) == Dark(r)
  {
    if r.Then? { WidenDark(r.before, size); }
  }

  lemma RunEnds(r: RunList, size: nat)
    requires r.Then? && size > 0 && AllButFirstPositive(r)
    ensures Widen(r.before, size).Then? ==> Widen(r.before, size).length > 0
    ensures var c := Widen(r, size);
            c == Then(Widen(r.before, size), if Widen(r.before, size) == Nil then r.length + size else r.length)
            && FinderMatches(c) ==
               FinderMatches(Widen(r.before, size)) + (if Dark(r) then 0 else CountPatterns(History(c)))
  {
    hide History, CountPatterns, FinderMatches;
    WidenDark(r, size);
    CountIsWindow(Widen(r, size));
  }

  /** One line of `getPenaltyScore`: a row or a column. */
  method ScoreLine(line: seq<bool>) returns (score: nat)
    ensures score == LineScore(line)
  {
    hide Bordered, History, FinderMatches, CountPatterns;
    var size := |line|;
    var history := new int[7](_ => 0);
    EmptyLine(history);
    if size == 0 {
      return 0;
    }
    var runColor := false;
    var run: nat := 0;
    score := 0;
    for x := 0 to size
      invariant runColor == Dark(Runs(line, x)) && run == Runs(line, x).length
      invariant history[..] == History(Widen(Runs(line, x).before, size))
      invariant score == LongRuns(Runs(line, x)) + PENALTY_N3 * FinderMatches(Widen(Runs(line, x).before, size))
    {
      ghost var r := Runs(line, x);
      if line[x] == runColor {
        run := run + 1;
        if run == 5 {
          score := score + PENALTY_N1;
        } else if run > 5 {
          score := score + 1;
        }
      } else {
        RunEnds(r, size);
        AddHistory(run, history, size, Widen(r.before, size));
        if !runColor {
          score := score + CountPatterns(history[..]) * PENALTY_N3;
        }
        runColor := line[x];
        run := 1;
      }
    }
    ghost var r := Runs(line, |line|);
    LineEnds(r, size);
    ghost var c := Widen(r.before, size);
    if runColor {
      AddHistory(run, history, size, c);
      c := Widen(r, size);
      run := 0;
    }
    run := run + size;
    AddHistory(run, history, size, c);
    score := score + CountPatterns(history[..]) * PENALTY_N3;
  }

  lemma EmptyLine(history: array<int>)
    requires history.Length == 7 && forall k :: 0 <= k < 7 ==> history[k] == 0
    ensures history[..] == History(Nil)
    ensures LongRuns(Then(Nil, 0)) == 0 && FinderMatches(Nil) == 0 && LineScore([]) == 0
  {
  }

  // ---- How much a line can cost ----

  /** The modules in all runs but the first. */
  ghost function InnerLength(r: RunList): nat {
    match r
    case Nil => 0
    case Then(b, n) => if b == Nil then 0 else InnerLength(b) + n
  }

  ghost function Earlier(r: RunList): RunList {
    if r == Nil then Nil else r.before
  }

  /** Each match has a dark run of three units or more to itself, and the light run after
      it, so there are at most half as many matches as modules. */
  lemma {:induction false} FewMatches(r: RunList)
    ensures 2 * FinderMatches(r) <= InnerLength(Earlier(Earlier(r)))
  {
    if r.Then? {
      if Dark(r) || RunCount(r) < 7 {
        FewMatches(r.before);
      } else {
        var b1 := r.before;
        assert RunCount(b1) >= 6;
        var b2 := b1.before;
        assert RunCount(b2) >= 5;
        var b3 := b2.before;
        assert RunCount(b3) >= 4;
        var b4 := b3.before;
        assert b4.Then?;
        FewMatches(b2);
        assert Dark(b1);
        assert Latest(r, 1) == b1.length;
        assert Latest(r, 2) == Latest(b1, 1) == b2.length;
        assert Latest(r, 3) == Latest(b2, 1) == b3.length;
        assert InnerLength(b2) == InnerLength(b4) + b3.length + b2.length;
        assert FinderMatches(r) <= FinderMatches(b2) + (if b3.length > 0 && b2.length > 0 && b3.length >= 3 then 2 else 0);
      }
    }
  }

  ghost function TotalLength(r: RunList): nat {
    match r
    case Nil => 0
    case Then(b, n) => TotalLength(b) + n
  }

  lemma {:induction false} RunsLength(line: seq<bool>, x: nat)
    requires x <= |line|
    ensures TotalLength(Runs(line, x)) == x
  {
    if x > 0 {
      RunsLength(line, x - 1);
    }
  }

  lemma {:induction false} LengthBounds(r: RunList, size: nat)
    ensures LongRuns(r) <= TotalLength(r) && InnerLength(r) <= TotalLength(r)
    ensures InnerLength(Widen(r, size)) == InnerLength(r)
  {
    if r.Then? { LengthBounds(r.before, size); }
  }

  /** A line of n modules costs at most n for its runs and 20 n for its patterns. */
  lemma LineBound(line: seq<bool>)
    ensures LineScore(line) <= 21 * |line|
  {
    hide Runs, FinderMatches;
    var r, size := Runs(line, |line|), |line|;
    RunsLength(line, size);
    LengthBounds(r, size);
    FewMatches(Bordered(r, size));
    LengthBounds(r.before, size);
    if !Dark(r) && r.before.Then? {
      LengthBounds(r.before.before, size);
    }
  }

  // ---- The score of a symbol ----

  ghost function Column(g: Modules, size: nat, x: nat): (column: seq<bool>)
    requires Square(g, size) && x < size
    ensures |column| == size
  {
    seq(size, y requires 0 <= y < size => g[y][x])
  }

  ghost function RowScores(g: Modules, size: nat, n: nat): nat
    requires Square(g, size) && n <= size
  {
    if n == 0 then 0 else RowScores(g, size, n - 1) + LineScore(g[n - 1])
  }

  ghost function ColumnScores(g: Modules, size: nat, n: nat): nat
    requires Square(g, size) && n <= size
  {
    if n == 0 then 0 else ColumnScores(g, size, n - 1) + LineScore(Column(g, size, n - 1))
  }

  /** The four modules at (x, y) to (x + 1, y + 1) share a colour. */
  predicate SameBlock(g: Modules, x: nat, y: nat)
    requires y + 1 < |g| && x + 1 < |g[y]| && x + 1 < |g[y + 1]|
  {
    g[y][x] == g[y][x + 1] == g[y + 1][x] && g[y][x] == g[y + 1][x + 1]
  }

  ghost function BlocksInRow(g: Modules, size: nat, y: nat, n: nat): nat
    requires Square(g, size) && y + 1 < size && n < size
  {
    if n == 0 then 0 else BlocksInRow(g, size, y, n - 1) + (if SameBlock(g, n - 1, y) then 1 else 0)
  }

  ghost function SquareBlocks(g: Modules, size: nat, n: nat): nat
    requires Square(g, size) && n < size
  {
    if n == 0 then 0 else SquareBlocks(g, size, n - 1) + BlocksInRow(g, size, n - 1, size - 1)
  }

  ghost function DarkInRow(row: seq<bool>): nat {
    if row == [] then 0 else DarkInRow(row[..|row| - 1]) + (if row[|row| - 1] then 1 else 0)
  }

  ghost function DarkCount(g: Modules): nat {
    if g == [] then 0 else DarkCount(g[..|g| - 1]) + DarkInRow(g[|g| - 1])
  }

  function Distance(a: int, b: int): nat {
    if a < b then b - a else a - b
  }

  /** The term k of the balance of dark and light modules. */
  function BalanceTerm(dark: nat, total: nat): int
    requires total > 0
  {
    (Distance(dark * 20, total * 10) + total - 1) / total - 1
  }

  /** (45 - 5k)% <= dark/total <= (55 + 5k)%. */
  ghost predicate Balanced(dark: nat, total: nat, k: int) {
    (45 - 5 * k) * total <= 100 * dark <= (55 + 5 * k) * total
  }

  /** k is the least non-negative integer for which the balance holds, and is at most 9,
      whenever the number of modules is odd. */
  lemma BalanceLeast(dark: nat, total: nat, j: int)
    requires total % 2 == 1 && dark <= total
    ensures 0 <= BalanceTerm(dark, total) <= 9
    ensures 0 <= j ==> (Balanced(dark, total, j) <==> BalanceTerm(dark, total) <= j)
  {
    var d, k := Distance(dark * 20, total * 10), BalanceTerm(dark, total);
    assert d >= 10;
    Ceiling(d, total, k + 1);
    Ceiling(d, total, 0);
    Ceiling(d, total, 10);
    Ceiling(d, total, j + 1);
    BalancedMeans(dark, total, j);
  }

  /** (d + t - 1) / t is the least multiplier of t that reaches d. */
  lemma Ceiling(d: nat, t: nat, m: int)
    requires t > 0
    ensures d <= m * t <==> (d + t - 1) / t <= m
  {
    var q := (d + t - 1) / t;
    assert q * t <= d + t - 1 < q * t + t;
    if q <= m {
      assert (m - q) * t >= 0;
    } else {
      assert (q - m - 1) * t >= 0;
    }
  }

  lemma BalancedMeans(dark: nat, total: nat, j: int)
    ensures Balanced(dark, total, j) <==> Distance(dark * 20, total * 10) <= (j + 1) * total
  {
    var jt := j * total;
    assert (45 - 5 * j) * total == 45 * total - 5 * jt;
    assert (55 + 5 * j) * total == 55 * total + 5 * jt;
    assert (j + 1) * total == jt + total;
  }

  ghost function Penalty(g: Modules, size: nat): int
    requires Square(g, size) && size > 0
  {
    RowScores(g, size, size) + ColumnScores(g, size, size)
    + PENALTY_N2 * SquareBlocks(g, size, size - 1)
    + PENALTY_N4 * BalanceTerm(DarkCount(g), size * size)
  }

  lemma {:induction false} ScoresBound(g: Modules, size: nat, n: nat)
    requires Square(g, size) && n <= size
    ensures RowScores(g, size, n) <= 21 * size * n && ColumnScores(g, size, n) <= 21 * size * n
  {
    hide LineScore;
    if n > 0 {
      ScoresBound(g, size, n - 1);
      LineBound(g[n - 1]);
      LineBound(Column(g, size, n - 1));
      assert 21 * size * n == 21 * size * (n - 1) + 21 * size;
    }
  }

  lemma {:induction false} BlocksInRowBound(g: Modules, size: nat, y: nat, n: nat)
    requires Square(g, size) && y + 1 < size && n < size
    ensures BlocksInRow(g, size, y, n) <= n
  {
    if n > 0 { BlocksInRowBound(g, size, y, n - 1); }
  }

  lemma {:induction false} BlocksBound(g: Modules, size: nat, n: nat)
    requires Square(g, size) && n < size
    ensures SquareBlocks(g, size, n) <= size * n
  {
    if n > 0 {
      BlocksBound(g, size, n - 1);
      BlocksInRowBound(g, size, n - 1, size - 1);
      assert size * n == size * (n - 1) + size;
    }
  }

  lemma {:induction false} DarkInRowBound(row: seq<bool>)
    ensures DarkInRow(row) <= |row|
  {
    if row != [] { DarkInRowBound(row[..|row| - 1]); }
  }

  lemma {:induction false} DarkBound(g: Modules, size: nat)
    requires forall y :: 0 <= y < |g| ==> |g[y]| == size
    ensures DarkCount(g) <= |g| * size
  {
    if g != [] {
      var n := |g| - 1;
      DarkBound(g[..n], size);
      DarkInRowBound(g[n]);
      assert (n + 1) * size == n * size + size;
    }
  }

  /** The bound the encoder asserts, for every odd size up to that of version 40. */
  lemma PenaltyBound(g: Modules, size: nat)
    requires Square(g, size) && size % 2 == 1 && size <= 177
    ensures 0 <= BalanceTerm(DarkCount(g), size * size) <= 9
    ensures 0 <= Penalty(g, size) <= 2568888
  {
    hide RowScores, ColumnScores, SquareBlocks, DarkCount, BalanceTerm;
    ScoresBound(g, size, size);
    BlocksBound(g, size, size - 1);
    DarkBound(g, size);
    OddSquare(size);
    BalanceLeast(DarkCount(g), size * size, 0);
    SquareBound(size);
  }

  lemma OddSquare(size: nat)
    requires size % 2 == 1
    ensures size * size % 2 == 1
  {
    var h := size / 2;
    assert size == 2 * h + 1;
    assert size * size == 2 * (2 * h * h + 2 * h) + 1;
  }

  lemma SquareBound(size: nat)
    requires 0 < size <= 177
    ensures size * (size - 1) <= size * size <= 31329
    ensures 21 * size * size == 21 * (size * size)
  {
    assert (177 - size) * size >= 0;
    assert size * (size - 1) == size * size - size;
  }
}
