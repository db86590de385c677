/** Proportional remap of a baseline layout to another grid size: what it computes, and what
    it guarantees for any baseline, and for one of at most a hundred and one placements. */
module GridRemap {
  import opened GridLayout
  import opened Results
  import opened Sizes

  /** Pages the spill tries before it gives up. */
  const MAX_SPILL := 100

  /** The most placements it always finds room for. */
  const MAX_PLACEMENTS := MAX_SPILL + 1

  /** The new grid and the one the baseline was saved for. */
  datatype Frame = Frame(cols: int, rows: int, savedCols: int, savedRows: int) {
    ghost predicate Valid() {
      cols >= 1 && rows >= 1 && savedCols >= 1 && savedRows >= 1
    }
  }

  function Max(a: int, b: int): int {
    if a < b then b else a
  }

  function Min(a: int, b: int): int {
    if a < b then a else b
  }

  function Abs(a: int): int {
    if a < 0 then -a else a
  }

  /** a * n / s rounded to the nearest integer, halves up. */
  function RoundRatio(a: int, n: int, s: int): int
    requires s > 0
  {
    (2 * (a * n) + s) / (2 * s)
  }

  // ---- One placement ----

  /** The minimum span does not fit the grid. */
  predicate Hidden(reg: Registry, p: Placement, f: Frame) {
    p.widgetId in reg && (reg[p.widgetId].minCols > f.cols || reg[p.widgetId].minRows > f.rows)
  }

  function ClampSpan(span: int, limit: int, known: bool, least: int): int {
    if span > limit then (if known then Max(limit, least) else limit) else span
  }

  /** Spans clamped to the grid, position scaled and clamped. */
  function Scaled(reg: Registry, base: Placement, target: int, f: Frame): Placement
    requires f.savedCols > 0 && f.savedRows > 0
  {
    var known := base.widgetId in reg;
    var w := ClampSpan(base.colSpan, f.cols, known, if known then reg[base.widgetId].minCols else 0);
    var h := ClampSpan(base.rowSpan, f.rows, known, if known then reg[base.widgetId].minRows else 0);
    base.(page := target, colSpan := w, rowSpan := h,
          col := Min(RoundRatio(base.col, f.cols, f.savedCols), Max(0, f.cols - w)),
          row := Min(RoundRatio(base.row, f.rows, f.savedRows), Max(0, f.rows - h)),
          visible := true)
  }

  lemma RoundNonNegative(a: int, n: int, s: int)
    requires a >= 0 && n >= 0 && s > 0
    ensures RoundRatio(a, n, s) >= 0
  {
    ProductSign(a, n);
  }

  lemma ScaledFits(reg: Registry, base: Placement, target: int, f: Frame)
    requires f.Valid() && WellFormed(base) && target >= 0 && !Hidden(reg, base, f)
    ensures var p := Scaled(reg, base, target, f);
            WellFormed(p) && InGrid(p, f.cols, f.rows) && p.page == target && p.visible
            && p.instanceId == base.instanceId && p.widgetId == base.widgetId
  {
    RoundNonNegative(base.col, f.cols, f.savedCols);
    RoundNonNegative(base.row, f.rows, f.savedRows);
  }

  // ---- The board: placements already put down ----

  /** `result[i]` is final for each i in `done`. */
  datatype Board = Board(result: seq<Placement>, done: set<nat>)

  ghost predicate ValidBoard(b: Board) {
    forall i :: i in b.done ==> i < |b.result|
  }

  /** No placement on the page overlaps the rectangle. */
  ghost predicate FreeAt(b: Board, page: int, col: int, row: int, w: int, h: int)
    requires ValidBoard(b)
  {
    forall i :: i in b.done && b.result[i].visible && b.result[i].page == page ==> !Overlap(col, row, w, h, b.result[i])
  }

  /** `p` could stand at (col, row) of its page. */
  ghost predicate AnchorOk(b: Board, p: Placement, f: Frame, col: int, row: int)
    requires ValidBoard(b)
  {
    && 0 <= col && 0 <= row && col + p.colSpan <= f.cols && row + p.rowSpan <= f.rows
    && FreeAt(b, p.page, col, row, p.colSpan, p.rowSpan)
  }

  // ---- Spiral search ----

  datatype Anchor = Anchor(col: int, row: int)

  predicate OnRing(dc: int, dr: int, radius: int) {
    Abs(dc) == radius || Abs(dr) == radius
  }

  /** The search from offset (dc, dr) of ring `radius` on. */
  ghost function Spiral(b: Board, p: Placement, f: Frame, radius: int, dc: int, dr: int): Option<Anchor>
    requires ValidBoard(b)
    decreases Max(f.cols, f.rows) + 1 - radius, radius + 1 - dc, radius + 1 - dr
  {
    if radius > Max(f.cols, f.rows) then None
    else if dc > radius then Spiral(b, p, f, radius + 1, -(radius + 1), -(radius + 1))
    else if dr > radius then Spiral(b, p, f, radius, dc + 1, -radius)
    else if OnRing(dc, dr, radius) && AnchorOk(b, p, f, p.col + dc, p.row + dr) then
      Some(Anchor(p.col + dc, p.row + dr))
    else Spiral(b, p, f, radius, dc, dr + 1)
  }

  ghost function SpiralFrom(b: Board, p: Placement, f: Frame): Option<Anchor>
    requires ValidBoard(b)
  {
    Spiral(b, p, f, 1, -1, -1)
  }

  lemma {:induction false} SpiralOk(b: Board, p: Placement, f: Frame, radius: int, dc: int, dr: int)
    requires ValidBoard(b)
    ensures Spiral(b, p, f, radius, dc, dr).Some? ==>
              AnchorOk(b, p, f, Spiral(b, p, f, radius, dc, dr).value.col, Spiral(b, p, f, radius, dc, dr).value.row)
    decreases Max(f.cols, f.rows) + 1 - radius, radius + 1 - dc, radius + 1 - dr
  {
    hide AnchorOk;
    if radius > Max(f.cols, f.rows) {
    } else if dc > radius {
      SpiralOk(b, p, f, radius + 1, -(radius + 1), -(radius + 1));
    } else if dr > radius {
      SpiralOk(b, p, f, radius, dc + 1, -radius);
    } else if !(OnRing(dc, dr, radius) && AnchorOk(b, p, f, p.col + dc, p.row + dr)) {
      SpiralOk(b, p, f, radius, dc, dr + 1);
    }
  }

  /** Offset (x, y) has not been visited when the search stands at (radius, dc, dr). */
  predicate Ahead(x: int, y: int, radius: int, dc: int, dr: int) {
    var ring := Max(Abs(x), Abs(y));
    ring > radius || (ring == radius && (x > dc || (x == dc && y >= dr)))
  }

  lemma {:induction false} SpiralMisses(b: Board, p: Placement, f: Frame, radius: int, dc: int, dr: int, x: int, y: int)
    requires ValidBoard(b) && radius >= 1 && dc >= -radius && dr >= -radius
    requires Spiral(b, p, f, radius, dc, dr) == None
    requires Ahead(x, y, radius, dc, dr) && Max(Abs(x), Abs(y)) <= Max(f.cols, f.rows)
    ensures !AnchorOk(b, p, f, p.col + x, p.row + y)
    decreases Max(f.cols, f.rows) + 1 - radius, radius + 1 - dc, radius + 1 - dr
  {
    hide AnchorOk;
    if dc > radius {
      SpiralMisses(b, p, f, radius + 1, -(radius + 1), -(radius + 1), x, y);
    } else if dr > radius {
      SpiralMisses(b, p, f, radius, dc + 1, -radius, x, y);
    } else if x != dc || y != dr {
      SpiralMisses(b, p, f, radius, dc, dr + 1, x, y);
    }
  }

  /** The search finds an anchor whenever there is one. */
  lemma SpiralComplete(b: Board, p: Placement, f: Frame, col: int, row: int)
    requires ValidBoard(b) && f.Valid()
    requires 0 <= p.col < f.cols && 0 <= p.row < f.rows && p.colSpan >= 1 && p.rowSpan >= 1
    requires !AnchorOk(b, p, f, p.col, p.row) && AnchorOk(b, p, f, col, row)
    ensures SpiralFrom(b, p, f).Some?
  {
    var x, y := col - p.col, row - p.row;
    if SpiralFrom(b, p, f) == None {
      assert Max(Abs(x), Abs(y)) >= 1;
      SpiralMisses(b, p, f, 1, -1, -1, x, y);
    }
  }

  // ---- Spill to later pages ----

  /** (0, 0) or a spiral from it, on `next` and the pages after, `left` pages in all. */
  ghost function Spill(b: Board, p: Placement, f: Frame, next: int, left: nat): Placement
    requires ValidBoard(b)
    decreases left
  {
    if left == 0 then p
    else
      var q := p.(page := next, col := 0, row := 0);
      if FreeAt(b, next, 0, 0, p.colSpan, p.rowSpan) then q
      else
        match SpiralFrom(b, q, f)
        case Some(a) => q.(col := a.col, row := a.row)
        case None => Spill(b, q, f, next + 1, left - 1)
  }

  ghost predicate EmptyPage(b: Board, page: int)
    requires ValidBoard(b)
  {
    forall i :: i in b.done && b.result[i].visible ==> b.result[i].page != page
  }

  /** `q` is `p` moved. */
  predicate Moved(p: Placement, q: Placement) {
    q == p.(page := q.page, col := q.col, row := q.row)
  }

  lemma {:induction false} SpillShape(b: Board, p: Placement, f: Frame, next: int, left: nat)
    requires ValidBoard(b) && p.page <= next
    ensures var q := Spill(b, p, f, next, left); Moved(p, q) && p.page <= q.page
    decreases left
  {
    hide AnchorOk, FreeAt, Spiral;
    if left > 0 {
      SpillShape(b, p.(page := next, col := 0, row := 0), f, next + 1, left - 1);
    }
  }

  lemma {:induction false} SpillInGrid(b: Board, p: Placement, f: Frame, next: int, left: nat)
    requires ValidBoard(b) && InGrid(p, f.cols, f.rows) && WellFormed(p) && next >= 0
    requires p.colSpan <= f.cols && p.rowSpan <= f.rows
    ensures WellFormed(Spill(b, p, f, next, left)) && InGrid(Spill(b, p, f, next, left), f.cols, f.rows)
    decreases left
  {
    hide FreeAt, Spiral;
    if left > 0 {
      var q := p.(page := next, col := 0, row := 0);
      SpiralOk(b, q, f, 1, -1, -1);
      SpillInGrid(b, q, f, next + 1, left - 1);
    }
  }

  lemma {:induction false} SpillFinds(b: Board, p: Placement, f: Frame, next: int, left: nat, empty: int)
    requires ValidBoard(b) && f.Valid() && next <= empty < next + left && EmptyPage(b, empty)
    requires 1 <= p.colSpan <= f.cols && 1 <= p.rowSpan <= f.rows
    ensures var q := Spill(b, p, f, next, left); AnchorOk(b, q, f, q.col, q.row)
    decreases left
  {
    hide Spiral;
    var q := p.(page := next, col := 0, row := 0);
    if FreeAt(b, next, 0, 0, p.colSpan, p.rowSpan) {
    } else if SpiralFrom(b, q, f).Some? {
      SpiralOk(b, q, f, 1, -1, -1);
      var a := SpiralFrom(b, q, f).value;
      assert AnchorOk(b, q.(col := a.col, row := a.row), f, a.col, a.row);
    } else {
      SpillFinds(b, q, f, next + 1, left - 1, empty);
    }
  }

  // ---- Placing one, and placing all ----

  /** Where it is if that is free, else the nearest free anchor in spiral order, else a later page. */
  ghost function Settle(b: Board, p: Placement, f: Frame): Placement
    requires ValidBoard(b)
  {
    if FreeAt(b, p.page, p.col, p.row, p.colSpan, p.rowSpan) then p
    else
      match SpiralFrom(b, p, f)
      case Some(a) => p.(col := a.col, row := a.row)
      case None => Spill(b, p, f, p.page + 1, MAX_SPILL)
  }

  ghost function PlaceOne(reg: Registry, b: Board, base: Placement, target: int, f: Frame): Placement
    requires ValidBoard(b) && f.savedCols > 0 && f.savedRows > 0
  {
    if Hidden(reg, base, f) then base.(page := target, visible := false) else Settle(b, Scaled(reg, base, target, f), f)
  }

  /** What is put down is inside the grid and pairwise disjoint. */
  ghost predicate SoundBoard(b: Board, f: Frame) {
    && ValidBoard(b)
    && (forall i :: i in b.done ==> InGrid(b.result[i], f.cols, f.rows) && WellFormed(b.result[i]))
    && (forall i, j :: i in b.done && j in b.done && i != j ==> Apart(b.result[i], b.result[j]))
  }

  ghost predicate Kept(base: Placement, p: Placement) {
    p.instanceId == base.instanceId && p.widgetId == base.widgetId
  }

  ghost function PagesOf(b: Board): set<int>
    requires ValidBoard(b)
  {
    set i | i in b.done :: b.result[i].page
  }

  lemma {:induction false} ImageSize(s: set<nat>, b: Board)
    requires ValidBoard(b) && s <= b.done
    ensures |set i | i in s :: b.result[i].page| <= |s|
    decreases |s|
  {
    if s != {} {
      var x :| x in s;
      var t := s - {x};
      ImageSize(t, b);
      assert (set i | i in s :: b.result[i].page) == (set i | i in t :: b.result[i].page) + {b.result[x].page};
    }
  }

  ghost function Interval(from: int, n: nat): (s: set<int>)
    ensures forall x :: x in s <==> from <= x < from + n
    ensures |s| == n
  {
    if n == 0 then {}
    else
      var s := Interval(from, n - 1);
      assert from + n - 1 !in s;
      s + {from + n - 1}
  }

  /** With fewer than `n` placements down, one of any `n` consecutive pages is empty. */
  lemma PageIsFree(b: Board, from: int, n: nat) returns (empty: int)
    requires ValidBoard(b) && |b.done| < n
    ensures from <= empty < from + n && EmptyPage(b, empty)
  {
    ImageSize(b.done, b);
    var pages, all := PagesOf(b), Interval(from, n);
    if all <= pages {
      SubsetSize(all, pages);
      assert false;
    }
    empty :| empty in all && empty !in pages;
  }

  /** Whatever happens, only page and corner change, to a page no earlier, and within the grid. */
  lemma SettleShape(b: Board, p: Placement, f: Frame)
    requires f.Valid() && ValidBoard(b) && WellFormed(p) && InGrid(p, f.cols, f.rows) && p.visible
    ensures var q := Settle(b, p, f);
            Moved(p, q) && q.page >= p.page && WellFormed(q) && InGrid(q, f.cols, f.rows)
  {
    hide Spiral, Spill, FreeAt;
    if !FreeAt(b, p.page, p.col, p.row, p.colSpan, p.rowSpan) {
      if SpiralFrom(b, p, f).Some? {
        SpiralOk(b, p, f, 1, -1, -1);
      } else {
        SpillShape(b, p, f, p.page + 1, MAX_SPILL);
        SpillInGrid(b, p, f, p.page + 1, MAX_SPILL);
      }
    }
  }

  lemma SettleSound(b: Board, p: Placement, f: Frame)
    requires f.Valid() && ValidBoard(b) && |b.done| <= MAX_SPILL && WellFormed(p) && InGrid(p, f.cols, f.rows) && p.visible
    ensures var q := Settle(b, p, f); AnchorOk(b, q, f, q.col, q.row)
  {
    hide Spiral, Spill, FreeAt;
    if FreeAt(b, p.page, p.col, p.row, p.colSpan, p.rowSpan) {
    } else if SpiralFrom(b, p, f).Some? {
      SpiralOk(b, p, f, 1, -1, -1);
    } else {
      var empty := PageIsFree(b, p.page, MAX_SPILL + 1);
      EmptyIsFree(b, empty, p.col, p.row, p.colSpan, p.rowSpan);
      SpillFinds(b, p, f, p.page + 1, MAX_SPILL, empty);
    }
  }

  lemma EmptyIsFree(b: Board, page: int, col: int, row: int, w: int, h: int)
    requires ValidBoard(b) && EmptyPage(b, page)
    ensures FreeAt(b, page, col, row, w, h)
  {
  }

  /** One placement: hidden exactly when it cannot fit; otherwise inside the grid, on its target
      page or later. */
  lemma PlaceOneShape(reg: Registry, b: Board, base: Placement, target: int, f: Frame)
    requires f.Valid() && ValidBoard(b) && WellFormed(base) && target >= 0
    ensures var q := PlaceOne(reg, b, base, target, f);
            && Kept(base, q) && WellFormed(q) && q.page >= target && InGrid(q, f.cols, f.rows)
            && (q.visible <==> !Hidden(reg, base, f))
  {
    hide Scaled, Hidden, Settle, FreeAt;
    if !Hidden(reg, base, f) {
      ScaledFits(reg, base, target, f);
      SettleShape(b, Scaled(reg, base, target, f), f);
    }
  }

  /** With at most a hundred placements down, one more stands apart from all of them. */
  lemma PlaceOneSound(reg: Registry, b: Board, base: Placement, target: int, f: Frame)
    requires f.Valid() && ValidBoard(b) && |b.done| <= MAX_SPILL && WellFormed(base) && target >= 0
    ensures var q := PlaceOne(reg, b, base, target, f); q.visible ==> AnchorOk(b, q, f, q.col, q.row)
  {
    hide Scaled, Hidden, Settle, FreeAt;
    if !Hidden(reg, base, f) {
      ScaledFits(reg, base, target, f);
      SettleSound(b, Scaled(reg, base, target, f), f);
    }
  }

  ghost function Put(reg: Registry, b: Board, i: nat, base: Placement, target: int, f: Frame): (b': Board)
    requires ValidBoard(b) && f.savedCols > 0 && f.savedRows > 0 && i < |b.result|
    ensures ValidBoard(b') && |b'.result| == |b.result|
  {
    Board(b.result[i := PlaceOne(reg, b, base, target, f)], b.done + {i})
  }

  lemma PutSound(reg: Registry, b: Board, i: nat, base: Placement, target: int, f: Frame)
    requires f.Valid() && SoundBoard(b, f) && |b.done| <= MAX_SPILL && WellFormed(base) && target >= 0
    requires i < |b.result| && i !in b.done
    ensures SoundBoard(Put(reg, b, i, base, target, f), f)
  {
    hide PlaceOne, Hidden;
    PlaceOneShape(reg, b, base, target, f);
    PlaceOneSound(reg, b, base, target, f);
    var q := PlaceOne(reg, b, base, target, f);
    forall j | j in b.done
      ensures Apart(q, b.result[j]) && Apart(b.result[j], q)
    {
      assert q.visible && b.result[j].visible && q.page == b.result[j].page ==>
          !Overlap(q.col, q.row, q.colSpan, q.rowSpan, b.result[j]);
    }
  }

  // ---- Normal pages first, reserved pages after them ----

  /** Pages that hold a singleton widget. */
  function ReservedPages(reg: Registry, ps: seq<Placement>): set<int> {
    set i | 0 <= i < |ps| && IsSingleton(reg, ps[i].widgetId) :: ps[i].page
  }

  /** How many of the pages below `page` are in `pages`. */
  function CountIn(pages: set<int>, page: nat): nat {
    if page == 0 then 0 else CountIn(pages, page - 1) + if page - 1 in pages then 1 else 0
  }

  /** The first `n` placements, those on reserved pages skipped. */
  ghost function Normal(reg: Registry, base: seq<Placement>, f: Frame, n: nat): (b: Board)
    requires f.Valid() && n <= |base|
    ensures ValidBoard(b) && |b.result| == |base|
  {
    if n == 0 then Board(base, {})
    else
      var b := Normal(reg, base, f, n - 1);
      if base[n - 1].page in ReservedPages(reg, base) then b else Put(reg, b, n - 1, base[n - 1], base[n - 1].page, f)
  }

  /** The highest page a normal placement reached, -1 when there is none. */
  ghost function HighestNormal(reg: Registry, base: seq<Placement>, f: Frame, n: nat): int
    requires f.Valid() && n <= |base|
  {
    if n == 0 then -1
    else
      var h := HighestNormal(reg, base, f, n - 1);
      if base[n - 1].page in ReservedPages(reg, base) then h
      else Max(h, Normal(reg, base, f, n).result[n - 1].page)
  }

  /** Where the first reserved page goes. */
  ghost function FirstTarget(reg: Registry, base: seq<Placement>, baseCount: int, f: Frame): int
    requires f.Valid()
  {
    Max(HighestNormal(reg, base, f, |base|) + 1, baseCount - |ReservedPages(reg, base)|)
  }

  /** Reserved pages keep their order. */
  ghost function Target(reg: Registry, base: seq<Placement>, baseCount: int, f: Frame, page: nat): int
    requires f.Valid()
  {
    FirstTarget(reg, base, baseCount, f) + CountIn(ReservedPages(reg, base), page)
  }

  /** All normal placements, and of the first `n` those on reserved pages. */
  ghost function Reserved(reg: Registry, base: seq<Placement>, baseCount: int, f: Frame, n: nat): (b: Board)
    requires f.Valid() && n <= |base| && AllWellFormed(base)
    ensures ValidBoard(b) && |b.result| == |base|
  {
    if n == 0 then Normal(reg, base, f, |base|)
    else
      var b := Reserved(reg, base, baseCount, f, n - 1);
      if base[n - 1].page !in ReservedPages(reg, base) then b
      else Put(reg, b, n - 1, base[n - 1], Target(reg, base, baseCount, f, base[n - 1].page), f)
  }

  /** The live layout for the new grid. */
  ghost function Remapped(reg: Registry, base: seq<Placement>, baseCount: int, f: Frame): (live: seq<Placement>)
    requires f.Valid() && AllWellFormed(base)
    ensures |live| == |base|
  {
    Reserved(reg, base, baseCount, f, |base|).result
  }

  // ---- What the two passes keep ----

  /** Everything put down is an image of its baseline placement, inside the grid, hidden exactly
      when it cannot fit. */
  ghost predicate Images(reg: Registry, base: seq<Placement>, f: Frame, b: Board) {
    && |b.result| == |base| && ValidBoard(b)
    && forall i :: i in b.done ==>
         && Kept(base[i], b.result[i]) && WellFormed(b.result[i]) && InGrid(b.result[i], f.cols, f.rows)
         && (b.result[i].visible <==> !Hidden(reg, base[i], f))
  }

  ghost function Indices(n: nat): (s: set<nat>)
    ensures forall i: nat :: i in s <==> i < n
    ensures |s| == n
  {
    if n == 0 then {}
    else
      var s := Indices(n - 1);
      assert n - 1 !in s;
      s + {n - 1}
  }

  lemma IndexSetSize(s: set<nat>, n: nat, missing: nat)
    requires (forall i :: i in s ==> i < n) && missing < n && missing !in s
    ensures |s| < n
  {
    var all := Indices(n);
    var rest := all - s;
    assert missing in rest;
    assert all == s + rest;
  }

  lemma PutImages(reg: Registry, base: seq<Placement>, f: Frame, b: Board, i: nat, target: int)
    requires f.Valid() && AllWellFormed(base) && Images(reg, base, f, b) && i < |base| && target >= 0
    ensures Images(reg, base, f, Put(reg, b, i, base[i], target, f))
    ensures PlaceOne(reg, b, base[i], target, f).page >= target
  {
    hide PlaceOne, Hidden, Put, WellFormed, InGrid;
    PlaceOneShape(reg, b, base[i], target, f);
    PutAt(reg, b, i, base[i], target, f);
  }

  /** Putting one down touches no other index. */
  lemma PutAt(reg: Registry, b: Board, i: nat, base: Placement, target: int, f: Frame)
    requires ValidBoard(b) && f.savedCols > 0 && f.savedRows > 0 && i < |b.result|
    ensures var b' := Put(reg, b, i, base, target, f);
            && b'.done == b.done + {i} && b'.result[i] == PlaceOne(reg, b, base, target, f)
            && forall j: nat :: j < |b.result| && j != i ==> b'.result[j] == b.result[j]
  {
    hide PlaceOne;
  }

  lemma EmptyBoardImages(reg: Registry, base: seq<Placement>, f: Frame)
    ensures Images(reg, base, f, Board(base, {})) && SoundBoard(Board(base, {}), f)
  {
  }

  lemma {:induction false} NormalImages(reg: Registry, base: seq<Placement>, f: Frame, n: nat)
    requires f.Valid() && AllWellFormed(base) && n <= |base|
    ensures var b := Normal(reg, base, f, n);
            && Images(reg, base, f, b)
            && (forall i: nat :: i in b.done <==> i < n && base[i].page !in ReservedPages(reg, base))
            && (forall i :: i in b.done ==> base[i].page <= b.result[i].page <= HighestNormal(reg, base, f, n))
    ensures HighestNormal(reg, base, f, n) >= -1
  {
    hide Put, PlaceOne, Images, ReservedPages;
    if n == 0 {
      EmptyBoardImages(reg, base, f);
    } else {
      NormalImages(reg, base, f, n - 1);
      var b := Normal(reg, base, f, n - 1);
      if base[n - 1].page !in ReservedPages(reg, base) {
        assert WellFormed(base[n - 1]);
        PutImages(reg, base, f, b, n - 1, base[n - 1].page);
        PutAt(reg, b, n - 1, base[n - 1], base[n - 1].page, f);
      }
    }
  }

  lemma {:induction false} ReservedImages(reg: Registry, base: seq<Placement>, baseCount: int, f: Frame, n: nat)
    requires f.Valid() && AllWellFormed(base) && n <= |base|
    ensures var b := Reserved(reg, base, baseCount, f, n);
            var was := Normal(reg, base, f, |base|);
            && Images(reg, base, f, b)
            && (forall i: nat :: i in b.done <==> i < |base| && (i < n || base[i].page !in ReservedPages(reg, base)))
            && (forall i :: i in b.done && base[i].page !in ReservedPages(reg, base) ==> b.result[i] == was.result[i])
            && (forall i :: i in b.done && base[i].page in ReservedPages(reg, base) ==>
                    b.result[i].page >= Target(reg, base, baseCount, f, base[i].page))
  {
    hide Put, PlaceOne, Images, ReservedPages, CountIn;
    if n == 0 {
      NormalImages(reg, base, f, |base|);
    } else {
      ReservedImages(reg, base, baseCount, f, n - 1);
      NormalImages(reg, base, f, |base|);
      var b := Reserved(reg, base, baseCount, f, n - 1);
      if base[n - 1].page in ReservedPages(reg, base) {
        assert WellFormed(base[n - 1]);
        var target := Target(reg, base, baseCount, f, base[n - 1].page);
        PutImages(reg, base, f, b, n - 1, target);
        PutAt(reg, b, n - 1, base[n - 1], target, f);
      }
    }
  }

  lemma {:induction false} NormalSound(reg: Registry, base: seq<Placement>, f: Frame, n: nat)
    requires f.Valid() && AllWellFormed(base) && |base| <= MAX_PLACEMENTS && n <= |base|
    ensures SoundBoard(Normal(reg, base, f, n), f)
  {
    hide Put, PlaceOne, Images, ReservedPages, SoundBoard;
    if n == 0 {
      EmptyBoardImages(reg, base, f);
    } else {
      NormalSound(reg, base, f, n - 1);
      NormalImages(reg, base, f, n - 1);
      if base[n - 1].page !in ReservedPages(reg, base) {
        assert WellFormed(base[n - 1]);
        var b := Normal(reg, base, f, n - 1);
        IndexSetSize(b.done, |base|, n - 1);
        PutSound(reg, b, n - 1, base[n - 1], base[n - 1].page, f);
      }
    }
  }

  lemma {:induction false} ReservedSound(reg: Registry, base: seq<Placement>, baseCount: int, f: Frame, n: nat)
    requires f.Valid() && AllWellFormed(base) && |base| <= MAX_PLACEMENTS && n <= |base|
    ensures SoundBoard(Reserved(reg, base, baseCount, f, n), f)
  {
    hide Put, PlaceOne, Images, ReservedPages, SoundBoard, CountIn;
    if n == 0 {
      NormalSound(reg, base, f, |base|);
    } else {
      ReservedSound(reg, base, baseCount, f, n - 1);
      ReservedImages(reg, base, baseCount, f, n - 1);
      if base[n - 1].page in ReservedPages(reg, base) {
        assert WellFormed(base[n - 1]);
        NormalImages(reg, base, f, |base|);
        var b := Reserved(reg, base, baseCount, f, n - 1);
        IndexSetSize(b.done, |base|, n - 1);
        PutSound(reg, b, n - 1, base[n - 1], Target(reg, base, baseCount, f, base[n - 1].page), f);
      }
    }
  }

  /** A remap keeps every placement in its place in the list, hides exactly those whose minimum
      span does not fit, and leaves the others inside the grid. */
  lemma RemapKeepsAll(reg: Registry, base: seq<Placement>, baseCount: int, f: Frame)
    requires f.Valid() && AllWellFormed(base)
    ensures var live := Remapped(reg, base, baseCount, f);
            && AllWellFormed(live)
            && (forall i :: 0 <= i < |base| ==> Kept(base[i], live[i]))
            && (forall i :: 0 <= i < |base| ==> (live[i].visible <==> !Hidden(reg, base[i], f)))
            && (forall i :: 0 <= i < |base| ==> InGrid(live[i], f.cols, f.rows))
  {
    hide Normal, Hidden, ReservedPages, InGrid, WellFormed, Put;
    ReservedImages(reg, base, baseCount, f, |base|);
    var b := Reserved(reg, base, baseCount, f, |base|);
    forall i | 0 <= i < |base|
      ensures Kept(base[i], b.result[i]) && (b.result[i].visible <==> !Hidden(reg, base[i], f))
              && InGrid(b.result[i], f.cols, f.rows) && WellFormed(b.result[i])
    {
      assert i as nat in b.done;
    }
  }

  /** A remap of any baseline of at most a hundred and one placements, even an overlapping one,
      leaves the visible ones disjoint as well. */
  lemma RemapSound(reg: Registry, base: seq<Placement>, baseCount: int, f: Frame)
    requires f.Valid() && AllWellFormed(base) && |base| <= MAX_PLACEMENTS
    ensures SoundLayout(Remapped(reg, base, baseCount, f), f.cols, f.rows)
  {
    hide Normal, Hidden, ReservedPages, InGrid, Apart, WellFormed, Put;
    ReservedImages(reg, base, baseCount, f, |base|);
    ReservedSound(reg, base, baseCount, f, |base|);
    var b := Reserved(reg, base, baseCount, f, |base|);
    assert forall i: nat :: i < |base| ==> i in b.done;
    forall i | 0 <= i < |base|
      ensures InGrid(b.result[i], f.cols, f.rows)
    {
      assert i as nat in b.done;
    }
  }

  // ---- Page order ----

  lemma {:induction false} CountInStep(pages: set<int>, a: nat, b: nat)
    requires a <= b
    ensures CountIn(pages, a) <= CountIn(pages, b) <= CountIn(pages, a) + (b - a)
    ensures a < b && a in pages ==> CountIn(pages, a) < CountIn(pages, b)
    decreases b
  {
    if a < b { CountInStep(pages, a, b - 1); }
  }

  lemma {:induction false} CountInAll(pages: set<int>, n: nat)
    requires pages <= Interval(0, n)
    ensures CountIn(pages, n) == |pages|
    decreases n
  {
    if n == 0 {
      SubsetSize(pages, Interval(0, 0));
    } else {
      var rest := pages - {n - 1};
      CountInAll(rest, n - 1);
      CountInSame(pages, rest, n - 1);
      if n - 1 in pages {
        assert pages == rest + {n - 1};
      } else {
        assert pages == rest;
      }
    }
  }

  lemma {:induction false} CountInSame(s: set<int>, t: set<int>, n: nat)
    requires forall p :: 0 <= p < n ==> (p in s <==> p in t)
    ensures CountIn(s, n) == CountIn(t, n)
  {
    if n > 0 { CountInSame(s, t, n - 1); }
  }

  /** No placement moves to an earlier page, so the baseline never needs more pages than the remap. */
  lemma RemapNeverEarlier(reg: Registry, base: seq<Placement>, baseCount: nat, f: Frame, i: nat)
    requires f.Valid() && AllWellFormed(base) && PagesBelow(base, baseCount) && i < |base|
    ensures Remapped(reg, base, baseCount, f)[i].page >= base[i].page
  {
    hide Normal, Put, ReservedPages, CountIn, Images;
    var pages := ReservedPages(reg, base);
    ReservedImages(reg, base, baseCount, f, |base|);
    NormalImages(reg, base, f, |base|);
    if base[i].page in pages {
      assert WellFormed(base[i]);
      ReservedPagesAre(reg, base, baseCount);
      CountInAll(pages, baseCount);
      CountInStep(pages, base[i].page, baseCount);
    }
  }

  lemma ReservedPagesAre(reg: Registry, base: seq<Placement>, count: nat)
    requires AllWellFormed(base) && PagesBelow(base, count)
    ensures ReservedPages(reg, base) <= Interval(0, count)
  {
    assert forall i :: 0 <= i < |base| ==> WellFormed(base[i]);
  }

  /** After a remap every placement of a reserved page stands strictly after every other. */
  lemma RemapReservedLast(reg: Registry, base: seq<Placement>, baseCount: int, f: Frame, i: nat, j: nat)
    requires f.Valid() && AllWellFormed(base) && i < |base| && j < |base|
    requires base[i].page !in ReservedPages(reg, base) && base[j].page in ReservedPages(reg, base)
    ensures Remapped(reg, base, baseCount, f)[i].page < Remapped(reg, base, baseCount, f)[j].page
  {
    hide Normal, Put, ReservedPages, CountIn, Images;
    ReservedImages(reg, base, baseCount, f, |base|);
    NormalImages(reg, base, f, |base|);
    assert WellFormed(base[j]);
  }

  /** Without a singleton a remap is one pass, and the page count plays no part. */
  lemma {:induction false} OnlyNormals(reg: Registry, base: seq<Placement>, baseCount: int, f: Frame, n: nat)
    requires f.Valid() && AllWellFormed(base) && n <= |base| && forall p :: p !in ReservedPages(reg, base)
    ensures Reserved(reg, base, baseCount, f, n) == Normal(reg, base, f, |base|)
  {
    hide Normal, ReservedPages, Put, CountIn;
    if n > 0 { OnlyNormals(reg, base, baseCount, f, n - 1); }
  }
}
