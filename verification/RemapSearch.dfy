/** The remap as the program runs it: one cell array per page, searched and filled in place. */
module RemapSearch {
  import opened GridCells
  import opened GridLayout
  import opened GridRemap
  import opened Results
  import opened Sizes

  type PageCells = map<int, seq<string>>

  ghost predicate Taken(b: Board, page: int, c: int, r: int)
    requires ValidBoard(b)
  {
    exists i :: i in b.done && b.result[i].visible && b.result[i].page == page && Covers(b.result[i], c, r)
  }

  /** A cell has an owner exactly when something put down on the page covers it. */
  ghost predicate Shows(cells: seq<string>, b: Board, page: int, f: Frame)
    requires ValidBoard(b)
  {
    && |cells| == f.cols * f.rows
    && forall c, r :: 0 <= c < f.cols && 0 <= r < f.rows ==> (CellAt(cells, f.cols, c, r) != "" <==> Taken(b, page, c, r))
  }

  ghost predicate Coupled(occ: PageCells, b: Board, f: Frame)
    requires ValidBoard(b)
  {
    && (forall page :: page in occ ==> Shows(occ[page], b, page, f))
    && (forall i :: i in b.done && b.result[i].visible ==> b.result[i].page in occ)
  }

  ghost predicate PositiveSpans(b: Board)
    requires ValidBoard(b)
  {
    forall i :: i in b.done ==> b.result[i].colSpan >= 1 && b.result[i].rowSpan >= 1
  }

  /** The cells of a rectangle are free exactly when nothing put down overlaps it. */
  lemma FreeCellsAreFreeAt(cells: seq<string>, b: Board, page: int, f: Frame, col: int, row: int, w: int, h: int)
    requires ValidBoard(b) && PositiveSpans(b) && Shows(cells, b, page, f)
    requires 0 <= col && 0 <= row && col + w <= f.cols && row + h <= f.rows && w >= 1 && h >= 1
    ensures AllFree(cells, f.cols, f.rows, col, row, w, h) <==> FreeAt(b, page, col, row, w, h)
  {
    hide CellAt, Overlap, Covers;
    if AllFree(cells, f.cols, f.rows, col, row, w, h) {
      forall i | i in b.done && b.result[i].visible && b.result[i].page == page
        ensures !Overlap(col, row, w, h, b.result[i])
      {
        OverlapIsSharedCell(col, row, w, h, b.result[i]);
        forall c, r | col <= c < col + w && row <= r < row + h
          ensures !Covers(b.result[i], c, r)
        {
          assert CellAt(cells, f.cols, c, r) == "";
          assert !Taken(b, page, c, r);
        }
      }
    }
    if FreeAt(b, page, col, row, w, h) {
      forall c, r | col <= c < col + w && row <= r < row + h
        ensures CellAt(cells, f.cols, c, r) == ""
      {
        if Taken(b, page, c, r) {
          var i :| i in b.done && b.result[i].visible && b.result[i].page == page && Covers(b.result[i], c, r);
          OverlapIsSharedCell(col, row, w, h, b.result[i]);
          assert false;
        }
      }
    }
  }

  /** A page nothing was put on yet gets a blank array. */
  method EnsurePage(occ: PageCells, page: int, f: Frame, ghost b: Board) returns (occ': PageCells)
    requires f.Valid() && ValidBoard(b) && Coupled(occ, b, f)
    ensures Coupled(occ', b, f) && page in occ' && Shows(occ'[page], b, page, f)
  {
    occ' := occ;
    if page !in occ {
      ProductSign(f.cols, f.rows);
      occ' := occ[page := Blank(f.cols * f.rows)];
    }
  }

  method SpiralNudge(p: Placement, cells: seq<string>, f: Frame, ghost b: Board) returns (found: bool, q: Placement)
    requires f.Valid() && ValidBoard(b) && PositiveSpans(b) && Shows(cells, b, p.page, f)
    requires p.colSpan >= 1 && p.rowSpan >= 1
    ensures found <==> SpiralFrom(b, p, f).Some?
    ensures q == if found then p.(col := SpiralFrom(b, p, f).value.col, row := SpiralFrom(b, p, f).value.row) else p
  {
    hide Shows, FreeAt, PositiveSpans;
    q := p;
    var maxRadius := Max(f.cols, f.rows);
    var radius := 1;
    while radius <= maxRadius
      invariant radius >= 1 && SpiralFrom(b, p, f) == Spiral(b, p, f, radius, -radius, -radius)
    {
      var dc := -radius;
      while dc <= radius
        invariant dc <= radius + 1 && SpiralFrom(b, p, f) == Spiral(b, p, f, radius, dc, -radius)
      {
        var dr := -radius;
        while dr <= radius
          invariant dr <= radius + 1 && SpiralFrom(b, p, f) == Spiral(b, p, f, radius, dc, dr)
        {
          if OnRing(dc, dr, radius) {
            var nc, nr := p.col + dc, p.row + dr;
            if nc >= 0 && nr >= 0 && nc + p.colSpan <= f.cols && nr + p.rowSpan <= f.rows {
              assert |cells| == f.cols * f.rows by { ShowsSize(cells, b, p.page, f); }
              var fits := CellsFree(cells, f.cols, f.rows, nc, nr, p.colSpan, p.rowSpan);
              FreeCellsAreFreeAt(cells, b, p.page, f, nc, nr, p.colSpan, p.rowSpan);
              if fits {
                q := p.(col := nc, row := nr);
                return true, q;
              }
            }
          }
          dr := dr + 1;
        }
        dc := dc + 1;
      }
      radius := radius + 1;
    }
    return false, p;
  }

  lemma ShowsSize(cells: seq<string>, b: Board, page: int, f: Frame)
    requires ValidBoard(b) && Shows(cells, b, page, f)
    ensures |cells| == f.cols * f.rows
  {
  }

  method SpillToNextPage(p: Placement, occ: PageCells, f: Frame, ghost b: Board) returns (q: Placement, occ': PageCells)
    requires f.Valid() && ValidBoard(b) && PositiveSpans(b) && Coupled(occ, b, f)
    requires 1 <= p.colSpan <= f.cols && 1 <= p.rowSpan <= f.rows
    ensures q == Spill(b, p, f, p.page + 1, MAX_SPILL)
    ensures Coupled(occ', b, f) && q.page in occ'
  {
    hide Shows, FreeAt, PositiveSpans, Coupled, Spiral;
    q, occ' := p, occ;
    var nextPage := p.page + 1;
    var attempt := 0;
    while attempt < MAX_SPILL
      invariant 0 <= attempt <= MAX_SPILL && q.colSpan == p.colSpan && q.rowSpan == p.rowSpan
      invariant Spill(b, p, f, p.page + 1, MAX_SPILL) == Spill(b, q, f, nextPage, MAX_SPILL - attempt)
      invariant Coupled(occ', b, f) && (attempt > 0 ==> q.page in occ')
    {
      occ' := EnsurePage(occ', nextPage, f, b);
      q := q.(page := nextPage, col := 0, row := 0);
      ShowsSize(occ'[nextPage], b, nextPage, f);
      var fits := CellsFree(occ'[nextPage], f.cols, f.rows, 0, 0, q.colSpan, q.rowSpan);
      FreeCellsAreFreeAt(occ'[nextPage], b, nextPage, f, 0, 0, q.colSpan, q.rowSpan);
      if fits { return; }
      var found, moved := SpiralNudge(q, occ'[nextPage], f, b);
      if found { return moved, occ'; }
      nextPage := nextPage + 1;
      attempt := attempt + 1;
    }
  }

  /** Marking the new placement's cells keeps the arrays in step with the board. */
  lemma MarkedCoupled(occ: PageCells, b: Board, b': Board, f: Frame, i: nat, marked: seq<string>)
    requires ValidBoard(b) && ValidBoard(b') && Coupled(occ, b, f) && i !in b.done && i < |b.result|
    requires |b'.result| == |b.result| && b'.done == b.done + {i}
    requires forall j: nat :: j < |b.result| && j != i ==> b'.result[j] == b.result[j]
    requires var q := b'.result[i];
             && q.visible && q.instanceId != "" && q.page in occ && |marked| == f.cols * f.rows
             && forall c, r :: 0 <= c < f.cols && 0 <= r < f.rows ==>
                  CellAt(marked, f.cols, c, r)
                  == if Covers(q, c, r) then q.instanceId else CellAt(occ[q.page], f.cols, c, r)
    ensures Coupled(occ[b'.result[i].page := marked], b', f)
  {
    hide CellAt, Covers;
    var q := b'.result[i];
    var occ' := occ[q.page := marked];
    forall page | page in occ'
      ensures Shows(occ'[page], b', page, f)
    {
      assert Shows(occ[page], b, page, f);
      forall c, r | 0 <= c < f.cols && 0 <= r < f.rows
        ensures CellAt(occ'[page], f.cols, c, r) != "" <==> Taken(b', page, c, r)
      {
        TakenAfter(b, b', i, page, c, r);
      }
    }
  }

  lemma TakenAfter(b: Board, b': Board, i: nat, page: int, c: int, r: int)
    requires ValidBoard(b) && ValidBoard(b') && i !in b.done && i < |b.result|
    requires |b'.result| == |b.result| && b'.done == b.done + {i}
    requires forall j: nat :: j < |b.result| && j != i ==> b'.result[j] == b.result[j]
    ensures Taken(b', page, c, r) <==>
            Taken(b, page, c, r) || (b'.result[i].visible && b'.result[i].page == page && Covers(b'.result[i], c, r))
  {
    hide Covers;
    if Taken(b, page, c, r) {
      var j :| j in b.done && b.result[j].visible && b.result[j].page == page && Covers(b.result[j], c, r);
      assert j in b'.done;
    }
  }

  lemma HiddenCoupled(occ: PageCells, b: Board, b': Board, f: Frame, i: nat)
    requires ValidBoard(b) && ValidBoard(b') && Coupled(occ, b, f) && i !in b.done && i < |b.result|
    requires |b'.result| == |b.result| && b'.done == b.done + {i}
    requires forall j: nat :: j < |b.result| && j != i ==> b'.result[j] == b.result[j]
    requires !b'.result[i].visible
    ensures Coupled(occ, b', f)
  {
    hide CellAt, Covers;
    forall page | page in occ
      ensures Shows(occ[page], b', page, f)
    {
      assert Shows(occ[page], b, page, f);
      forall c, r | 0 <= c < f.cols && 0 <= r < f.rows
        ensures CellAt(occ[page], f.cols, c, r) != "" <==> Taken(b', page, c, r)
      {
        TakenAfter(b, b', i, page, c, r);
      }
    }
  }

  /** Puts one baseline placement down and marks its cells. */
  method RemapOne(reg: Registry, base: Placement, targetPage: int, occ: PageCells, f: Frame, ghost b: Board, ghost i: nat)
    returns (p: Placement, occ': PageCells)
    requires f.Valid() && ValidBoard(b) && PositiveSpans(b) && Coupled(occ, b, f)
    requires i < |b.result| && i !in b.done && WellFormed(base) && targetPage >= 0
    ensures p == PlaceOne(reg, b, base, targetPage, f)
    ensures Coupled(occ', Put(reg, b, i, base, targetPage, f), f)
  {
    hide Shows, FreeAt, PositiveSpans, Coupled, Spiral, Spill, Covers, CellAt, Scaled;
    occ' := occ;
    ghost var b' := Put(reg, b, i, base, targetPage, f);
    PutAt(reg, b, i, base, targetPage, f);
    PlaceOneShape(reg, b, base, targetPage, f);
    if Hidden(reg, base, f) {
      p := base.(page := targetPage, visible := false);
      HiddenCoupled(occ, b, b', f, i);
      return;
    }
    p := Scaled(reg, base, targetPage, f);
    ScaledFits(reg, base, targetPage, f);
    occ' := EnsurePage(occ, p.page, f, b);
    ShowsSize(occ'[p.page], b, p.page, f);
    var fits := CellsFree(occ'[p.page], f.cols, f.rows, p.col, p.row, p.colSpan, p.rowSpan);
    FreeCellsAreFreeAt(occ'[p.page], b, p.page, f, p.col, p.row, p.colSpan, p.rowSpan);
    var overlaps := !fits;
    if overlaps {
      var found;
      found, p := SpiralNudge(p, occ'[p.page], f, b);
      overlaps := !found;
    }
    if overlaps {
      p, occ' := SpillToNextPage(p, occ', f, b);
    }
    assert p == PlaceOne(reg, b, base, targetPage, f);
    CoupledSize(occ', b, f, p.page);
    var marked := MarkCells(occ'[p.page], f.cols, f.rows, p);
    MarkedCoupled(occ', b, b', f, i, marked);
    occ' := occ'[p.page := marked];
  }

  lemma CoupledSize(occ: PageCells, b: Board, f: Frame, page: int)
    requires ValidBoard(b) && Coupled(occ, b, f) && page in occ
    ensures |occ[page]| == f.cols * f.rows
  {
    assert Shows(occ[page], b, page, f);
  }

  // ---- Reserved pages in ascending order ----

  ghost predicate Ascending(order: seq<int>) {
    forall i, j :: 0 <= i < j < |order| ==> order[i] < order[j]
  }

  method SortedPages(pages: set<int>) returns (order: seq<int>)
    ensures Ascending(order) && |order| == |pages|
    ensures forall page :: page in order <==> page in pages
  {
    order := [];
    var rest := pages;
    while |rest| > 0
      invariant Ascending(order) && |order| + |rest| == |pages|
      invariant forall page :: page in pages <==> page in order || page in rest
      invariant forall page, k :: page in rest && 0 <= k < |order| ==> order[k] < page
      decreases |rest|
    {
      var least := LeastOf(rest);
      order := order + [least];
      rest := rest - {least};
    }
  }

  method LeastOf(pages: set<int>) returns (least: int)
    requires |pages| > 0
    ensures least in pages && forall page :: page in pages ==> least <= page
  {
    ghost var some := SomeMember(pages);
    least :| least in pages;
    var rest := pages - {least};
    while |rest| > 0
      invariant rest <= pages && least in pages && least !in rest
      invariant forall page :: page in pages ==> least <= page || page in rest
      decreases |rest|
    {
      ghost var another := SomeMember(rest);
      var page :| page in rest;
      rest := rest - {page};
      if page < least { least := page; }
    }
  }

  /** A page's place in the sorted order counts the reserved pages before it. */
  lemma {:induction false} RankIsCount(pages: set<int>, order: seq<int>, k: nat, page: nat)
    requires Ascending(order) && k <= |order|
    requires forall p :: p in order <==> p in pages
    requires forall i :: 0 <= i < k ==> 0 <= order[i] < page
    requires forall i :: k <= i < |order| ==> order[i] >= page
    ensures CountIn(pages, page) == k
    decreases page
  {
    if page > 0 {
      if page - 1 in pages {
        var i :| 0 <= i < |order| && order[i] == page - 1;
        assert i < k;
        assert order[i] <= order[k - 1];
        RankIsCount(pages, order, k - 1, page - 1);
      } else {
        assert page - 1 !in order;
        RankIsCount(pages, order, k, page - 1);
      }
    }
  }

  /** Consecutive targets for the reserved pages, in page order. */
  method AssignTargets(pages: set<int>, first: int) returns (targets: map<int, int>)
    requires forall page :: page in pages ==> page >= 0
    ensures targets.Keys == pages
    ensures forall page :: page in pages ==> targets[page] == first + CountIn(pages, page)
  {
    var order := SortedPages(pages);
    targets := map[];
    var target := first;
    var k := 0;
    while k < |order|
      invariant 0 <= k <= |order| && target == first + k
      invariant forall page :: page in targets.Keys <==> page in order[..k]
      invariant forall page :: page in targets ==> page in pages && targets[page] == first + CountIn(pages, page)
    {
      assert order[k] in order;
      RankIsCount(pages, order, k, order[k]) by {
        forall i | 0 <= i < k ensures 0 <= order[i] { assert order[i] in order; }
      }
      targets := targets[order[k] := target];
      target := target + 1;
      k := k + 1;
    }
    assert order[..k] == order;
    assert forall page :: page in pages <==> page in targets.Keys;
  }

  // ---- The whole remap ----

  method FindReservedPages(reg: Registry, ps: seq<Placement>) returns (pages: set<int>)
    ensures pages == ReservedPages(reg, ps)
  {
    pages := {};
    var i := 0;
    while i < |ps|
      invariant 0 <= i <= |ps|
      invariant forall k :: 0 <= k < i && IsSingleton(reg, ps[k].widgetId) ==> ps[k].page in pages
      invariant pages <= ReservedPages(reg, ps)
    {
      if IsSingleton(reg, ps[i].widgetId) { pages := pages + {ps[i].page}; }
      i := i + 1;
    }
  }

  method NormalPass(reg: Registry, base: seq<Placement>, reserved: set<int>, f: Frame)
    returns (live: seq<Placement>, highest: int, occ: PageCells)
    requires f.Valid() && AllWellFormed(base) && reserved == ReservedPages(reg, base)
    ensures live == Normal(reg, base, f, |base|).result && highest == HighestNormal(reg, base, f, |base|)
    ensures Coupled(occ, Normal(reg, base, f, |base|), f)
  {
    hide Coupled, Put, PlaceOne, ReservedPages, Images, WellFormed;
    occ, live, highest := map[], base, -1;
    EmptyCoupled(base, f);
    var i := 0;
    while i < |base|
      invariant 0 <= i <= |base| && live == Normal(reg, base, f, i).result
      invariant highest == HighestNormal(reg, base, f, i) && Coupled(occ, Normal(reg, base, f, i), f)
    {
      if base[i].page !in reserved {
        ghost var b := Normal(reg, base, f, i);
        NormalReady(reg, base, f, i);
        var p;
        p, occ := RemapOne(reg, base[i], base[i].page, occ, f, b, i);
        PutIs(reg, b, i, base[i], base[i].page, f);
        live := live[i := p];
        highest := Max(highest, p.page);
      }
      i := i + 1;
    }
  }

  lemma NormalReady(reg: Registry, base: seq<Placement>, f: Frame, i: nat)
    requires f.Valid() && AllWellFormed(base) && i < |base|
    ensures var b := Normal(reg, base, f, i); PositiveSpans(b) && i !in b.done
    ensures WellFormed(base[i]) && base[i].page >= 0
  {
    hide Normal, ReservedPages;
    NormalImages(reg, base, f, i);
  }

  lemma ReservedReady(reg: Registry, base: seq<Placement>, baseCount: int, f: Frame, i: nat)
    requires f.Valid() && AllWellFormed(base) && i < |base|
    requires base[i].page in ReservedPages(reg, base)
    ensures var b := Reserved(reg, base, baseCount, f, i); PositiveSpans(b) && i !in b.done
    ensures WellFormed(base[i]) && base[i].page >= 0 && FirstTarget(reg, base, baseCount, f) >= 0
  {
    hide Reserved, Normal, ReservedPages;
    ReservedImages(reg, base, baseCount, f, i);
    NormalImages(reg, base, f, |base|);
  }

  method ReservedPass(reg: Registry, base: seq<Placement>, baseCount: int, reserved: set<int>, targets: map<int, int>,
                      f: Frame, normals: seq<Placement>, filled: PageCells)
    returns (live: seq<Placement>)
    requires f.Valid() && AllWellFormed(base) && reserved == ReservedPages(reg, base)
    requires targets.Keys == reserved
    requires forall page :: page in reserved ==> page >= 0 && targets[page] == Target(reg, base, baseCount, f, page)
    requires normals == Normal(reg, base, f, |base|).result && Coupled(filled, Normal(reg, base, f, |base|), f)
    ensures live == Remapped(reg, base, baseCount, f)
  {
    hide Coupled, Put, PlaceOne, ReservedPages, Images, WellFormed, CountIn, FirstTarget, Normal;
    var occ := filled;
    live := normals;
    var i := 0;
    while i < |base|
      invariant 0 <= i <= |base| && live == Reserved(reg, base, baseCount, f, i).result
      invariant Coupled(occ, Reserved(reg, base, baseCount, f, i), f)
    {
      if base[i].page in reserved {
        ghost var b := Reserved(reg, base, baseCount, f, i);
        ReservedReady(reg, base, baseCount, f, i);
        var p;
        p, occ := RemapOne(reg, base[i], targets[base[i].page], occ, f, b, i);
        PutIs(reg, b, i, base[i], targets[base[i].page], f);
        live := live[i := p];
      }
      i := i + 1;
    }
  }

  method RemapAll(reg: Registry, base: seq<Placement>, baseCount: int, f: Frame) returns (live: seq<Placement>)
    requires f.Valid() && AllWellFormed(base)
    ensures live == Remapped(reg, base, baseCount, f)
  {
    hide Coupled, Normal, HighestNormal, ReservedPages, CountIn, Remapped;
    var reserved := FindReservedPages(reg, base);
    NonNegativePages(reg, base);
    var normals, highest, occ := NormalPass(reg, base, reserved, f);
    var targets := AssignTargets(reserved, Max(highest + 1, baseCount - |reserved|));
    live := ReservedPass(reg, base, baseCount, reserved, targets, f, normals, occ);
  }

  lemma EmptyCoupled(base: seq<Placement>, f: Frame)
    ensures Coupled(map[], Board(base, {}), f)
  {
  }

  lemma PutIs(reg: Registry, b: Board, i: nat, base: Placement, target: int, f: Frame)
    requires ValidBoard(b) && f.savedCols > 0 && f.savedRows > 0 && i < |b.result|
    ensures Put(reg, b, i, base, target, f).result == b.result[i := PlaceOne(reg, b, base, target, f)]
  {
    hide PlaceOne;
  }

  lemma NonNegativePages(reg: Registry, base: seq<Placement>)
    requires AllWellFormed(base)
    ensures forall page :: page in ReservedPages(reg, base) ==> page >= 0
  {
    assert forall i :: 0 <= i < |base| ==> WellFormed(base[i]);
  }
}
