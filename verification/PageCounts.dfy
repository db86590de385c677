/** A new page count moves the reserved pages of both layouts to the end. When the live layout is
    still the one its baseline has, and when not. */
module PageCounts {
  import opened GridLayout
  import opened GridPages
  import opened GridRemap
  import opened GridState
  import opened RemapBound
  import opened Results

  // ---- Boards that differ in a gap between their pages ----

  function ShiftPage(page: int, low: int, d: int): int {
    if page >= low then page + d else page
  }

  function ShiftPlacement(p: Placement, low: int, d: int): Placement {
    p.(page := ShiftPage(p.page, low, d))
  }

  /** The same placements down, those from page `low` on moved `d` pages back. */
  ghost predicate Shifted(b: Board, b': Board, low: int, d: nat) {
    && ValidBoard(b) && ValidBoard(b') && |b.result| == |b'.result| && b.done == b'.done
    && forall i :: i in b.done ==> b'.result[i] == ShiftPlacement(b.result[i], low, d)
  }

  lemma FreeShift(b: Board, b': Board, low: int, d: nat, page: int, col: int, row: int, w: int, h: int)
    requires Shifted(b, b', low, d) && page >= low
    ensures FreeAt(b, page, col, row, w, h) <==> FreeAt(b', page + d, col, row, w, h)
  {
    hide Overlap;
    assert forall i :: i in b.done ==> (b.result[i].page == page <==> b'.result[i].page == page + d);
    if FreeAt(b', page + d, col, row, w, h) {
      forall i | i in b.done && b.result[i].visible && b.result[i].page == page
        ensures !Overlap(col, row, w, h, b.result[i])
      {
        assert !Overlap(col, row, w, h, b'.result[i]);
        SameRectangle(col, row, w, h, b.result[i], b'.result[i]);
      }
    }
    if FreeAt(b, page, col, row, w, h) {
      forall i | i in b'.done && b'.result[i].visible && b'.result[i].page == page + d
        ensures !Overlap(col, row, w, h, b'.result[i])
      {
        assert !Overlap(col, row, w, h, b.result[i]);
        SameRectangle(col, row, w, h, b.result[i], b'.result[i]);
      }
    }
  }

  lemma SameRectangle(col: int, row: int, w: int, h: int, p: Placement, q: Placement)
    requires q == p.(page := q.page)
    ensures Overlap(col, row, w, h, p) <==> Overlap(col, row, w, h, q)
  {
  }

  lemma {:induction false} SpiralShift(b: Board, b': Board, low: int, d: nat, p: Placement, f: Frame, radius: int, dc: int, dr: int)
    requires Shifted(b, b', low, d) && p.page >= low
    ensures Spiral(b', p.(page := p.page + d), f, radius, dc, dr) == Spiral(b, p, f, radius, dc, dr)
    decreases Max(f.cols, f.rows) + 1 - radius, radius + 1 - dc, radius + 1 - dr
  {
    hide FreeAt;
    if radius > Max(f.cols, f.rows) {
    } else if dc > radius {
      SpiralShift(b, b', low, d, p, f, radius + 1, -(radius + 1), -(radius + 1));
    } else if dr > radius {
      SpiralShift(b, b', low, d, p, f, radius, dc + 1, -radius);
    } else {
      FreeShift(b, b', low, d, p.page, p.col + dc, p.row + dr, p.colSpan, p.rowSpan);
      SpiralShift(b, b', low, d, p, f, radius, dc, dr + 1);
    }
  }

  lemma {:induction false} SpillShift(b: Board, b': Board, low: int, d: nat, p: Placement, f: Frame, next: int, left: nat)
    requires Shifted(b, b', low, d) && next >= low
    ensures var q := Spill(b, p, f, next, left);
            Spill(b', p.(page := p.page + d), f, next + d, left) == q.(page := q.page + d)
    decreases left
  {
    hide FreeAt, Spiral;
    if left > 0 {
      var q := p.(page := next, col := 0, row := 0);
      FreeShift(b, b', low, d, next, 0, 0, p.colSpan, p.rowSpan);
      SpiralShift(b, b', low, d, q, f, 1, -1, -1);
      SpillShift(b, b', low, d, q, f, next + 1, left - 1);
    }
  }

  lemma SettleShift(b: Board, b': Board, low: int, d: nat, p: Placement, f: Frame)
    requires Shifted(b, b', low, d) && p.page >= low
    ensures var q := Settle(b, p, f); Settle(b', p.(page := p.page + d), f) == q.(page := q.page + d)
  {
    hide FreeAt, Spiral, Spill;
    FreeShift(b, b', low, d, p.page, p.col, p.row, p.colSpan, p.rowSpan);
    SpiralShift(b, b', low, d, p, f, 1, -1, -1);
    SpillShift(b, b', low, d, p, f, p.page + 1, MAX_SPILL);
  }

  /** What is put down behind a gap lands where it would have, behind the gap. */
  lemma PlaceOneShift(reg: Registry, b: Board, b': Board, low: int, d: nat, base: Placement, base': Placement, target: int, f: Frame)
    requires Shifted(b, b', low, d) && target >= low && f.savedCols > 0 && f.savedRows > 0
    requires base' == base.(page := base'.page)
    ensures var q := PlaceOne(reg, b, base, target, f); PlaceOne(reg, b', base', target + d, f) == q.(page := q.page + d)
  {
    hide Settle, ClampSpan, RoundRatio;
    if !Hidden(reg, base, f) {
      var p := Scaled(reg, base, target, f);
      SettleShift(b, b', low, d, p, f);
      assert Scaled(reg, base', target + d, f) == p.(page := p.page + d);
    }
  }

  lemma PutShift(reg: Registry, b: Board, b': Board, low: int, d: nat, i: nat, base: Placement, base': Placement, target: int, f: Frame)
    requires Shifted(b, b', low, d) && target >= low && f.Valid() && i < |b.result| && WellFormed(base)  && target >= 0
    requires base' == base.(page := base'.page)
    ensures Shifted(Put(reg, b, i, base, target, f), Put(reg, b', i, base', target + d, f), low, d)
  {
    hide PlaceOne;
    PlaceOneShape(reg, b, base, target, f);
    PlaceOneShift(reg, b, b', low, d, base, base', target, f);
  }

  // ---- Where the two passes of the moved baseline put things ----

  /** The normal placements of the moved baseline settle where they stand now. */
  ghost predicate NormalsStay(reg: Registry, base: seq<Placement>, live: seq<Placement>, n: nat, f: Frame)
    requires f.Valid() && |live| == |base|
  {
    var board := Normal(reg, MovedToTail(reg, base, n), f, |base|);
    forall i :: 0 <= i < |base| && base[i].page !in ReservedPages(reg, base) ==> board.result[i] == live[i]
  }

  /** Whatever came with a singleton still shares a page with one. */
  ghost predicate StandWithSingletons(reg: Registry, base: seq<Placement>, live: seq<Placement>)
    requires |live| == |base|
  {
    forall i :: 0 <= i < |base| && base[i].page in ReservedPages(reg, base) ==> live[i].page in ReservedPages(reg, live)
  }

  /** When the live layout stays the baseline's after the move to `n` pages: there is no singleton;
      or the other widgets stay, no reserved page spilled over, and either the move leaves the
      live layout alone or every placement of a reserved page goes along with a singleton. */
  ghost predicate StaysDetermined(reg: Registry, base: seq<Placement>, baseCount: int, live: seq<Placement>, n: nat, f: Frame)
    requires f.Valid() && |live| == |base|
  {
    || ReservedPages(reg, base) == {}
    || (&& NormalsStay(reg, base, live, n, f)
        && RequiredPageCount(live) == FirstTarget(reg, base, baseCount, f) + |ReservedPages(reg, base)|
        && (if n == RequiredPageCount(live) then MovedToTail(reg, live, n) == live else StandWithSingletons(reg, base, live)))
  }

  /** What is known of a live layout before its page count changes. */
  ghost predicate Before(reg: Registry, base: seq<Placement>, baseCount: int, live: seq<Placement>, n: nat, f: Frame) {
    && f.Valid() && LayoutOk(base, baseCount) && baseCount >= 1
    && live == Remapped(reg, base, baseCount, f) && RequiredPageCount(live) <= n
  }

  lemma BeforeShape(reg: Registry, base: seq<Placement>, baseCount: int, live: seq<Placement>, n: nat, f: Frame)
    requires Before(reg, base, baseCount, live, n, f)
    ensures |live| == |base| && AllWellFormed(base) && AllWellFormed(live) && PagesBelow(base, n) && PagesBelow(live, n)
    ensures forall i :: 0 <= i < |base| ==> Kept(base[i], live[i])
  {
    hide Remapped, WellFormed, UniqueIds, SoundLayout;
    RemapKeepsAll(reg, base, baseCount, f);
    RemapKeeps(reg, base, baseCount, f);
    RequiredIsLeast(base, n);
  }

  /** Normal placements stand before the first target, the others on their target or after it. */
  lemma Side(reg: Registry, base: seq<Placement>, baseCount: int, f: Frame, i: nat)
    requires f.Valid() && AllWellFormed(base) && i < |base|
    ensures var first, live := FirstTarget(reg, base, baseCount, f), Remapped(reg, base, baseCount, f);
            && first >= 0
            && if base[i].page !in ReservedPages(reg, base) then
                 live[i].page < first && live[i] == Normal(reg, base, f, |base|).result[i]
               else
                 live[i].page >= first + CountIn(ReservedPages(reg, base), base[i].page)
  {
    hide Normal, Put, ReservedPages, CountIn, Images, WellFormed;
    ReservedImages(reg, base, baseCount, f, |base|);
    NormalImages(reg, base, f, |base|);
    assert i in Reserved(reg, base, baseCount, f, |base|).done;
    assert WellFormed(base[i]) ==> base[i].page >= 0 by { PagePositive(base[i]); }
    if base[i].page !in ReservedPages(reg, base) { assert i in Normal(reg, base, f, |base|).done; }
  }

  lemma PagePositive(p: Placement)
    ensures WellFormed(p) ==> p.page >= 0
  {
  }

  lemma SingletonsBehind(reg: Registry, base: seq<Placement>, baseCount: int, live: seq<Placement>, n: nat, f: Frame, q: int)
    requires Before(reg, base, baseCount, live, n, f) && q in ReservedPages(reg, live)
    ensures FirstTarget(reg, base, baseCount, f) <= q < n
  {
    hide FirstTarget, Remapped, LayoutOk, AllWellFormed;
    BeforeShape(reg, base, baseCount, live, n, f);
    var i := SingletonOn(reg, live, q);
    assert Kept(base[i], live[i]);
    SingletonReserves(reg, base, i);
    Side(reg, base, baseCount, f, i);
  }

  lemma SingletonReserves(reg: Registry, ps: seq<Placement>, i: nat)
    requires i < |ps| && IsSingleton(reg, ps[i].widgetId)
    ensures ps[i].page in ReservedPages(reg, ps)
  {
  }

  // ---- The moved baseline ----

  /** A placement is on a reserved page after the move when it was before, as many of them before it. */
  lemma MovedSide(reg: Registry, base: seq<Placement>, n: nat, i: nat)
    requires AllWellFormed(base) && PagesBelow(base, n) && i < |base|
    ensures var r, moved := ReservedPages(reg, base), MovedToTail(reg, base, n);
            && 0 <= base[i].page < n && 0 <= moved[i].page < n
            && (base[i].page in r <==> moved[i].page in ReservedPages(reg, moved))
            && (base[i].page in r ==> CountIn(ReservedPages(reg, moved), moved[i].page) == CountIn(r, base[i].page))
  {
    hide ReservedPages;
    var r, moved := ReservedPages(reg, base), MovedToTail(reg, base, n);
    assert WellFormed(base[i]);
    TailPageRange(r, n, base[i].page);
    ReservedAfterMove(reg, base, n);
    CountInStep(r, 0, n);
    CountInTail(ReservedPages(reg, moved), n - CountIn(r, n), n, moved[i].page);
  }

  lemma MovedCount(reg: Registry, base: seq<Placement>, n: nat)
    requires AllWellFormed(base) && PagesBelow(base, n)
    ensures |ReservedPages(reg, MovedToTail(reg, base, n))| == |ReservedPages(reg, base)| == CountIn(ReservedPages(reg, base), n)
    ensures |ReservedPages(reg, base)| <= n
  {
    hide ReservedPages, MovedToTail;
    var r, r' := ReservedPages(reg, base), ReservedPages(reg, MovedToTail(reg, base, n));
    ReservedPagesAre(reg, base, n);
    ReservedAfterMove(reg, base, n);
    CountInStep(r, 0, n);
    CountInTail(r', n - CountIn(r, n), n, n);
    CountInAll(r, n);
    CountInAll(r', n);
  }

  /** Some normal placement stands on the highest page. */
  lemma {:induction false} HighestReached(reg: Registry, base: seq<Placement>, f: Frame, n: nat)
    requires f.Valid() && n <= |base|
    ensures var high := HighestNormal(reg, base, f, n);
            high == -1 || exists i :: 0 <= i < n && base[i].page !in ReservedPages(reg, base)
                                      && Normal(reg, base, f, n).result[i].page == high
  {
    hide ReservedPages, PlaceOne;
    if n > 0 {
      HighestReached(reg, base, f, n - 1);
      var was := HighestNormal(reg, base, f, n - 1);
      if base[n - 1].page in ReservedPages(reg, base) || HighestNormal(reg, base, f, n) == was {
        if was != -1 {
          var i :| 0 <= i < n - 1 && base[i].page !in ReservedPages(reg, base)
                   && Normal(reg, base, f, n - 1).result[i].page == was;
          assert Normal(reg, base, f, n).result[i].page == was;
        }
      } else {
        assert Normal(reg, base, f, n).result[n - 1].page == HighestNormal(reg, base, f, n);
      }
    }
  }

  lemma HighestNotBelow(reg: Registry, base: seq<Placement>, f: Frame, base': seq<Placement>)
    requires f.Valid() && AllWellFormed(base) && AllWellFormed(base') && |base| == |base'|
    requires forall i :: 0 <= i < |base| && base[i].page !in ReservedPages(reg, base) ==>
               && base'[i].page !in ReservedPages(reg, base')
               && Normal(reg, base', f, |base|).result[i] == Normal(reg, base, f, |base|).result[i]
    ensures HighestNormal(reg, base, f, |base|) <= HighestNormal(reg, base', f, |base|)
  {
    hide ReservedPages, Normal, HighestNormal, Images;
    HighestReached(reg, base, f, |base|);
    NormalImages(reg, base', f, |base|);
    if HighestNormal(reg, base, f, |base|) != -1 {
      var i :| 0 <= i < |base| && base[i].page !in ReservedPages(reg, base)
               && Normal(reg, base, f, |base|).result[i].page == HighestNormal(reg, base, f, |base|);
      assert i as nat in Normal(reg, base', f, |base|).done;
    }
  }

  /** The last reserved page has a singleton, at its target or after it. */
  lemma TargetsBefore(reg: Registry, base: seq<Placement>, baseCount: int, live: seq<Placement>, n: nat, f: Frame)
    requires Before(reg, base, baseCount, live, n, f) && ReservedPages(reg, base) != {}
    ensures FirstTarget(reg, base, baseCount, f) + |ReservedPages(reg, base)| <= RequiredPageCount(live) <= n
    ensures FirstTarget(reg, base, baseCount, f) >= 0 && |ReservedPages(reg, base)| >= 1
  {
    hide ReservedPages, FirstTarget, CountIn, LayoutOk, WellFormed, Remapped;
    BeforeShape(reg, base, baseCount, live, n, f);
    var r := ReservedPages(reg, base);
    ReservedPagesAre(reg, base, n);
    CountInAll(r, n);
    var top := LastOf(r, n);
    TopCount(r, n, top);
    var i := SingletonOn(reg, base, top);
    Side(reg, base, baseCount, f, i);
  }

  lemma TopCount(pages: set<int>, n: nat, top: nat)
    requires top in pages && top < n && forall p :: p in pages ==> p <= top
    ensures CountIn(pages, top) == CountIn(pages, n) - 1
  {
    NoneAbove(pages, top + 1, n);
  }

  lemma FirstAfterMove(reg: Registry, base: seq<Placement>, baseCount: int, live: seq<Placement>, n: nat, f: Frame)
    requires Before(reg, base, baseCount, live, n, f) && ReservedPages(reg, base) != {} && |live| == |base|
    requires NormalsStay(reg, base, live, n, f)
    ensures FirstTarget(reg, MovedToTail(reg, base, n), n, f) == n - |ReservedPages(reg, base)|
  {
    hide ReservedPages, CountIn, LayoutOk, WellFormed, MovedToTail, Remapped, Normal, HighestNormal;
    BeforeShape(reg, base, baseCount, live, n, f);
    TargetsBefore(reg, base, baseCount, live, n, f);
    var moved := MovedToTail(reg, base, n);
    MovedCount(reg, base, n);
    MoveKeepsPages(reg, base, n);
    MovedLength(reg, base, n);
    forall i | 0 <= i < |base|
      ensures base[i].page in ReservedPages(reg, base) <==> moved[i].page in ReservedPages(reg, moved)
      ensures base[i].page !in ReservedPages(reg, base) ==>
                Normal(reg, base, f, |base|).result[i] == Normal(reg, moved, f, |base|).result[i]
    {
      MovedSide(reg, base, n, i);
      Side(reg, base, baseCount, f, i);
    }
    HighestNotBelow(reg, base, f, moved);
    HighestNotBelow(reg, moved, f, base);
  }

  lemma MovedLength(reg: Registry, ps: seq<Placement>, n: nat)
    ensures |MovedToTail(reg, ps, n)| == |ps|
    ensures forall i :: 0 <= i < |ps| ==>
              MovedToTail(reg, ps, n)[i] == ps[i].(page := TailPage(ReservedPages(reg, ps), n, ps[i].page))
  {
  }

  // ---- The second pass lands behind a gap ----

  lemma NormalsShift(reg: Registry, base: seq<Placement>, baseCount: int, live: seq<Placement>, n: nat, f: Frame, d: nat)
    requires Before(reg, base, baseCount, live, n, f) && |live| == |base| && NormalsStay(reg, base, live, n, f)
    ensures Shifted(Normal(reg, base, f, |base|), Normal(reg, MovedToTail(reg, base, n), f, |base|),
                    FirstTarget(reg, base, baseCount, f), d)
  {
    hide ReservedPages, CountIn, LayoutOk, WellFormed, MovedToTail, Remapped, Normal, HighestNormal, FirstTarget, Images;
    BeforeShape(reg, base, baseCount, live, n, f);
    var moved := MovedToTail(reg, base, n);
    MoveKeepsPages(reg, base, n);
    MovedLength(reg, base, n);
    NormalImages(reg, base, f, |base|);
    NormalImages(reg, moved, f, |base|);
    var b, b' := Normal(reg, base, f, |base|), Normal(reg, moved, f, |base|);
    forall i: nat | i < |base|
      ensures i in b.done <==> i in b'.done
      ensures i in b.done ==> b.result[i] == b'.result[i] && b.result[i].page < FirstTarget(reg, base, baseCount, f)
    {
      MovedSide(reg, base, n, i);
      Side(reg, base, baseCount, f, i);
    }
    assert b.done == b'.done;
  }

  lemma {:induction false} ReservedShift(reg: Registry, base: seq<Placement>, baseCount: int, live: seq<Placement>,
                                         n: nat, f: Frame, k: nat)
    requires Before(reg, base, baseCount, live, n, f) && |live| == |base| && NormalsStay(reg, base, live, n, f)
    requires ReservedPages(reg, base) != {} && k <= |base|
    requires AllWellFormed(base) && AllWellFormed(MovedToTail(reg, base, n))
    ensures var first := FirstTarget(reg, base, baseCount, f);
            && first <= n - |ReservedPages(reg, base)|
            && Shifted(Reserved(reg, base, baseCount, f, k), Reserved(reg, MovedToTail(reg, base, n), n, f, k),
                       first, n - |ReservedPages(reg, base)| - first)
    decreases k
  {
    hide ReservedPages, CountIn, LayoutOk, WellFormed, MovedToTail, Remapped, Normal, HighestNormal, FirstTarget, Put, Shifted,
         NormalsStay, PagesBelow;
    TargetsBefore(reg, base, baseCount, live, n, f);
    var first, d := FirstTarget(reg, base, baseCount, f), n - |ReservedPages(reg, base)| - FirstTarget(reg, base, baseCount, f);
    MovedLength(reg, base, n);
    if k == 0 {
      NormalsShift(reg, base, baseCount, live, n, f, d);
    } else {
      ReservedShift(reg, base, baseCount, live, n, f, k - 1);
      var moved := MovedToTail(reg, base, n);
      BeforeShape(reg, base, baseCount, live, n, f);
      MovedSide(reg, base, n, k - 1);
      FirstAfterMove(reg, base, baseCount, live, n, f);
      Side(reg, base, baseCount, f, k - 1);
      if base[k - 1].page in ReservedPages(reg, base) {
        PutShift(reg, Reserved(reg, base, baseCount, f, k - 1), Reserved(reg, moved, n, f, k - 1), first, d, k - 1,
                 base[k - 1], moved[k - 1], Target(reg, base, baseCount, f, base[k - 1].page), f);
      }
    }
  }

  /** The moved baseline lays every placement of a reserved page out as before, behind the gap, and
      every other one where it was. */
  lemma MovedRemap(reg: Registry, base: seq<Placement>, baseCount: int, live: seq<Placement>, n: nat, f: Frame, i: nat)
    requires Before(reg, base, baseCount, live, n, f) && |live| == |base| && NormalsStay(reg, base, live, n, f)
    requires ReservedPages(reg, base) != {} && i < |base| && AllWellFormed(MovedToTail(reg, base, n))
    ensures var first := FirstTarget(reg, base, baseCount, f);
            var now := Remapped(reg, MovedToTail(reg, base, n), n, f);
            && |now| == |live|
            && now[i] == if base[i].page in ReservedPages(reg, base)
                         then live[i].(page := live[i].page + n - |ReservedPages(reg, base)| - first) else live[i]
  {
    hide ReservedPages, CountIn, LayoutOk, WellFormed, MovedToTail, Normal, HighestNormal, FirstTarget, Reserved,
         NormalsStay, PagesBelow, Images;
    BeforeShape(reg, base, baseCount, live, n, f);
    ReservedShift(reg, base, baseCount, live, n, f, |base|);
    ReservedImages(reg, base, baseCount, f, |base|);
    MovedLength(reg, base, n);
    Side(reg, base, baseCount, f, i);
    assert i in Reserved(reg, base, baseCount, f, |base|).done;
  }

  /** What the move does to the live layout: normal placements stay. */
  lemma LiveNormals(reg: Registry, base: seq<Placement>, baseCount: int, live: seq<Placement>, n: nat, f: Frame, i: nat)
    requires Before(reg, base, baseCount, live, n, f) && |live| == |base| && i < |base| && base[i].page !in ReservedPages(reg, base)
    ensures TailPage(ReservedPages(reg, live), n, live[i].page) == live[i].page && live[i].page !in ReservedPages(reg, live)
  {
    hide ReservedPages, CountIn, LayoutOk, MovedToTail, Normal, HighestNormal, FirstTarget, Remapped, PagesBelow;
    BeforeShape(reg, base, baseCount, live, n, f);
    Side(reg, base, baseCount, f, i);
    var page := live[i].page;
    assert WellFormed(live[i]);
    forall q | q in ReservedPages(reg, live)
      ensures q > page
    {
      SingletonsBehind(reg, base, baseCount, live, n, f, q);
    }
    NoneBelow(ReservedPages(reg, live), page);
  }

  lemma {:induction false} NoneBelow(pages: set<int>, n: nat)
    requires forall p :: p in pages ==> p >= n
    ensures CountIn(pages, n) == 0
  {
    if n > 0 { NoneBelow(pages, n - 1); }
  }

  // ---- What the move must do to the live pages of reserved placements ----

  /** Every placement of a reserved page goes the gap back. */
  ghost predicate GoBehindGap(reg: Registry, base: seq<Placement>, baseCount: int, live: seq<Placement>, n: nat, f: Frame)
    requires f.Valid() && |live| == |base|
  {
    forall i :: 0 <= i < |base| && base[i].page in ReservedPages(reg, base) ==>
      TailPage(ReservedPages(reg, live), n, live[i].page)
      == live[i].page + n - |ReservedPages(reg, base)| - FirstTarget(reg, base, baseCount, f)
  }

  /** No placement stands after the last singleton's page. */
  lemma NothingSpilled(reg: Registry, base: seq<Placement>, baseCount: int, live: seq<Placement>, n: nat, f: Frame)
    requires Before(reg, base, baseCount, live, n, f) && |live| == |base| && ReservedPages(reg, base) != {}
    requires GoBehindGap(reg, base, baseCount, live, n, f)
    ensures RequiredPageCount(live) == FirstTarget(reg, base, baseCount, f) + |ReservedPages(reg, base)|
  {
    hide ReservedPages, CountIn, LayoutOk, MovedToTail, Normal, HighestNormal, FirstTarget, Remapped, TailPage;
    BeforeShape(reg, base, baseCount, live, n, f);
    TargetsBefore(reg, base, baseCount, live, n, f);
    MovedCount(reg, base, n);
    forall i | 0 <= i < |live|
      ensures live[i].page < FirstTarget(reg, base, baseCount, f) + |ReservedPages(reg, base)|
    {
      assert WellFormed(live[i]);
      Side(reg, base, baseCount, f, i);
      TailPageRange(ReservedPages(reg, live), n, live[i].page);
    }
    RequiredIsLeast(live, FirstTarget(reg, base, baseCount, f) + |ReservedPages(reg, base)|);
  }

  lemma GapToLive(reg: Registry, base: seq<Placement>, baseCount: int, live: seq<Placement>, n: nat, f: Frame)
    requires Before(reg, base, baseCount, live, n, f) && |live| == |base| && ReservedPages(reg, base) != {}
    requires GoBehindGap(reg, base, baseCount, live, n, f)
    ensures if n == RequiredPageCount(live) then MovedToTail(reg, live, n) == live else StandWithSingletons(reg, base, live)
  {
    hide ReservedPages, LayoutOk, MovedToTail, FirstTarget, Remapped, RequiredPageCount, AllWellFormed, PagesBelow;
    NothingSpilled(reg, base, baseCount, live, n, f);
    BeforeShape(reg, base, baseCount, live, n, f);
    MovedLength(reg, live, n);
    forall i | 0 <= i < |live|
      ensures n == RequiredPageCount(live) ==> MovedToTail(reg, live, n)[i] == live[i]
      ensures n != RequiredPageCount(live) && base[i].page in ReservedPages(reg, base) ==> live[i].page in ReservedPages(reg, live)
    {
      if base[i].page !in ReservedPages(reg, base) { LiveNormals(reg, base, baseCount, live, n, f, i); }
    }
    TargetsBefore(reg, base, baseCount, live, n, f);
  }

  /** Once put down, a placement stays where it is. */
  lemma {:induction false} ReservedStays(reg: Registry, base: seq<Placement>, baseCount: int, f: Frame, k: nat, m: nat)
    requires f.Valid() && AllWellFormed(base) && k <= m <= |base|
    ensures forall j :: j in Reserved(reg, base, baseCount, f, k).done ==>
              j in Reserved(reg, base, baseCount, f, m).done
              && Reserved(reg, base, baseCount, f, m).result[j] == Reserved(reg, base, baseCount, f, k).result[j]
    decreases m
  {
    hide Images, ReservedPages, CountIn, PlaceOne, Normal;
    if k < m {
      ReservedStays(reg, base, baseCount, f, k, m - 1);
      ReservedImages(reg, base, baseCount, f, k);
    }
  }

  /** It is on its target page, or something else is. */
  lemma TargetTaken(reg: Registry, b: Board, base: Placement, target: int, f: Frame)
    requires ValidBoard(b) && f.Valid()
    ensures PlaceOne(reg, b, base, target, f).page == target || exists j :: j in b.done && b.result[j].page == target
  {
    hide Spiral, Spill, Overlap;
  }

  /** A placement of a reserved page is on its target, or another placement of a reserved page is. */
  lemma TargetFilled(reg: Registry, base: seq<Placement>, baseCount: int, f: Frame, i: nat) returns (j: nat)
    requires f.Valid() && AllWellFormed(base) && i < |base| && base[i].page in ReservedPages(reg, base)
    requires base[i].page >= 0
    ensures j < |base| && base[j].page in ReservedPages(reg, base)
    ensures Remapped(reg, base, baseCount, f)[j].page == Target(reg, base, baseCount, f, base[i].page)
  {
    hide Images, ReservedPages, CountIn, PlaceOne, Normal, FirstTarget, AllWellFormed;
    var b := Reserved(reg, base, baseCount, f, i);
    var target := Target(reg, base, baseCount, f, base[i].page);
    TargetTaken(reg, b, base[i], target, f);
    PutAt(reg, b, i, base[i], target, f);
    ReservedStays(reg, base, baseCount, f, i, |base|);
    ReservedStays(reg, base, baseCount, f, i + 1, |base|);
    if PlaceOne(reg, b, base[i], target, f).page == target {
      j := i;
    } else {
      j :| j in b.done && b.result[j].page == target;
      Side(reg, base, baseCount, f, j);
    }
  }

  /** The page of rank `k`. */
  lemma {:induction false} PageOfRank(pages: set<int>, n: nat, k: nat) returns (page: nat)
    requires k < CountIn(pages, n)
    ensures page < n && page in pages && CountIn(pages, page) == k
  {
    if n - 1 in pages && CountIn(pages, n - 1) == k {
      page := n - 1;
    } else {
      page := PageOfRank(pages, n - 1, k);
    }
  }

  /** No target page is left without a singleton. */
  lemma TargetsHoldSingletons(reg: Registry, base: seq<Placement>, baseCount: int, live: seq<Placement>, n: nat, f: Frame, k: nat)
    requires Before(reg, base, baseCount, live, n, f) && |live| == |base| && StandWithSingletons(reg, base, live)
    requires k < |ReservedPages(reg, base)|
    ensures FirstTarget(reg, base, baseCount, f) + k in ReservedPages(reg, live)
  {
    hide ReservedPages, LayoutOk, FirstTarget, Remapped, RequiredPageCount, PagesBelow, CountIn;
    BeforeShape(reg, base, baseCount, live, n, f);
    MovedCount(reg, base, n);
    var page := PageOfRank(ReservedPages(reg, base), n, k);
    var i := SingletonOn(reg, base, page);
    var j := TargetFilled(reg, base, baseCount, f, i);
  }

  lemma LiveToGap(reg: Registry, base: seq<Placement>, baseCount: int, live: seq<Placement>, n: nat, f: Frame)
    requires Before(reg, base, baseCount, live, n, f) && |live| == |base| && ReservedPages(reg, base) != {}
    requires RequiredPageCount(live) == FirstTarget(reg, base, baseCount, f) + |ReservedPages(reg, base)|
    requires StandWithSingletons(reg, base, live)
    ensures GoBehindGap(reg, base, baseCount, live, n, f)
  {
    hide ReservedPages, LayoutOk, FirstTarget, Remapped, RequiredPageCount, AllWellFormed, StandWithSingletons, CountIn;
    BeforeShape(reg, base, baseCount, live, n, f);
    TargetsBefore(reg, base, baseCount, live, n, f);
    var first, r, rl := FirstTarget(reg, base, baseCount, f), ReservedPages(reg, base), ReservedPages(reg, live);
    var end := first + |r|;
    forall t
      ensures t in rl <==> first <= t < end
    {
      if t in rl {
        SingletonsBehind(reg, base, baseCount, live, n, f, t);
        var i := SingletonOn(reg, live, t);
      }
      if first <= t < end { TargetsHoldSingletons(reg, base, baseCount, live, n, f, t - first); }
    }
    CountInTail(rl, first, end, end);
    NoneAbove(rl, end, n);
    forall i | 0 <= i < |base| && base[i].page in r
      ensures TailPage(rl, n, live[i].page) == live[i].page + n - |r| - first
    {
      BehindGap(reg, base, live, i);
      CountInTail(rl, first, end, live[i].page);
    }
  }

  lemma BehindGap(reg: Registry, base: seq<Placement>, live: seq<Placement>, i: nat)
    requires |live| == |base| && StandWithSingletons(reg, base, live) && i < |base| && base[i].page in ReservedPages(reg, base)
    ensures live[i].page in ReservedPages(reg, live)
  {
  }

  // ---- The theorem ----

  /** Without a singleton nothing moves, and the layout does not depend on the page count. */
  lemma NoSingleton(reg: Registry, base: seq<Placement>, baseCount: int, live: seq<Placement>, n: nat, f: Frame)
    requires Before(reg, base, baseCount, live, n, f) && ReservedPages(reg, base) == {}
    ensures |live| == |base| && MovedToTail(reg, live, n) == live && MovedToTail(reg, base, n) == base
    ensures AllWellFormed(base) && live == Remapped(reg, base, n, f)
  {
    hide ReservedPages, LayoutOk, AllWellFormed, PagesBelow, Reserved;
    BeforeShape(reg, base, baseCount, live, n, f);
    assert SameWidgets(live, base);
    SameReserved(reg, live, base);
    NoReserved(reg, base, n);
    NoReserved(reg, live, n);
    OnlyNormals(reg, base, baseCount, f, |base|);
    OnlyNormals(reg, base, n, f, |base|);
  }

  /** After a change of the page count the live layout is the one its baseline has at this size, if
      and only if `StaysDetermined`. */
  lemma PageCountKeeps(reg: Registry, base: seq<Placement>, baseCount: int, live: seq<Placement>, n: nat, f: Frame)
    requires Before(reg, base, baseCount, live, n, f)
    ensures |live| == |base| && AllWellFormed(MovedToTail(reg, base, n))
    ensures MovedToTail(reg, live, n) == Remapped(reg, MovedToTail(reg, base, n), n, f) <==>
            StaysDetermined(reg, base, baseCount, live, n, f)
  {
    hide ReservedPages, LayoutOk, AllWellFormed, PagesBelow, MovedToTail, Remapped, NormalsStay, StandWithSingletons, FirstTarget,
         GoBehindGap, RequiredPageCount;
    BeforeShape(reg, base, baseCount, live, n, f);
    MoveKeepsPages(reg, base, n);
    if ReservedPages(reg, base) == {} {
      NoSingleton(reg, base, baseCount, live, n, f);
    } else if MovedToTail(reg, live, n) == Remapped(reg, MovedToTail(reg, base, n), n, f) {
      KeptNormals(reg, base, baseCount, live, n, f);
      KeptGap(reg, base, baseCount, live, n, f);
      NothingSpilled(reg, base, baseCount, live, n, f);
      GapToLive(reg, base, baseCount, live, n, f);
    } else if StaysDetermined(reg, base, baseCount, live, n, f) {
      StayingGap(reg, base, baseCount, live, n, f);
      GapKeeps(reg, base, baseCount, live, n, f);
    }
  }

  lemma KeptNormals(reg: Registry, base: seq<Placement>, baseCount: int, live: seq<Placement>, n: nat, f: Frame)
    requires Before(reg, base, baseCount, live, n, f) && |live| == |base| && AllWellFormed(MovedToTail(reg, base, n))
    requires MovedToTail(reg, live, n) == Remapped(reg, MovedToTail(reg, base, n), n, f)
    ensures NormalsStay(reg, base, live, n, f)
  {
    hide ReservedPages, LayoutOk, AllWellFormed, PagesBelow, MovedToTail, Remapped, FirstTarget, RequiredPageCount, Normal;
    BeforeShape(reg, base, baseCount, live, n, f);
    var moved := MovedToTail(reg, base, n);
    MovedLength(reg, base, n);
    MovedLength(reg, live, n);
    forall i | 0 <= i < |base| && base[i].page !in ReservedPages(reg, base)
      ensures Normal(reg, moved, f, |base|).result[i] == live[i]
    {
      LiveNormals(reg, base, baseCount, live, n, f, i);
      MovedSide(reg, base, n, i);
      Side(reg, moved, n, f, i);
    }
  }

  lemma KeptGap(reg: Registry, base: seq<Placement>, baseCount: int, live: seq<Placement>, n: nat, f: Frame)
    requires Before(reg, base, baseCount, live, n, f) && |live| == |base| && AllWellFormed(MovedToTail(reg, base, n))
    requires MovedToTail(reg, live, n) == Remapped(reg, MovedToTail(reg, base, n), n, f)
    requires NormalsStay(reg, base, live, n, f) && ReservedPages(reg, base) != {}
    ensures GoBehindGap(reg, base, baseCount, live, n, f)
  {
    assert f.Valid();
    hide ReservedPages, LayoutOk, AllWellFormed, PagesBelow, MovedToTail, Remapped, FirstTarget, RequiredPageCount, NormalsStay,
         TailPage, Before;
    MovedLength(reg, live, n);
    forall i | 0 <= i < |base| && base[i].page in ReservedPages(reg, base)
      ensures TailPage(ReservedPages(reg, live), n, live[i].page)
              == live[i].page + n - |ReservedPages(reg, base)| - FirstTarget(reg, base, baseCount, f)
    {
      MovedRemap(reg, base, baseCount, live, n, f, i);
    }
  }

  lemma StayingGap(reg: Registry, base: seq<Placement>, baseCount: int, live: seq<Placement>, n: nat, f: Frame)
    requires Before(reg, base, baseCount, live, n, f) && |live| == |base| && ReservedPages(reg, base) != {}
    requires StaysDetermined(reg, base, baseCount, live, n, f)
    ensures GoBehindGap(reg, base, baseCount, live, n, f)
  {
    hide ReservedPages, LayoutOk, AllWellFormed, PagesBelow, MovedToTail, Remapped, FirstTarget, RequiredPageCount, NormalsStay,
         StandWithSingletons, TailPage, Before;
    if n == RequiredPageCount(live) {
      MovedLength(reg, live, n);
    } else {
      LiveToGap(reg, base, baseCount, live, n, f);
    }
  }

  lemma GapKeeps(reg: Registry, base: seq<Placement>, baseCount: int, live: seq<Placement>, n: nat, f: Frame)
    requires Before(reg, base, baseCount, live, n, f) && |live| == |base| && AllWellFormed(MovedToTail(reg, base, n))
    requires NormalsStay(reg, base, live, n, f) && GoBehindGap(reg, base, baseCount, live, n, f) && ReservedPages(reg, base) != {}
    ensures MovedToTail(reg, live, n) == Remapped(reg, MovedToTail(reg, base, n), n, f)
  {
    assert f.Valid();
    hide ReservedPages, LayoutOk, AllWellFormed, PagesBelow, MovedToTail, Remapped, FirstTarget, RequiredPageCount, NormalsStay,
         TailPage, Before;
    MovedLength(reg, live, n);
    MovedLength(reg, base, n);
    BeforeShape(reg, base, baseCount, live, n, f);
    var now := Remapped(reg, MovedToTail(reg, base, n), n, f);
    forall i | 0 <= i < |live|
      ensures MovedToTail(reg, live, n)[i] == now[i]
    {
      MovedRemap(reg, base, baseCount, live, n, f, i);
      if base[i].page !in ReservedPages(reg, base) { LiveNormals(reg, base, baseCount, live, n, f, i); }
    }
  }

  // ---- Reserved pages that come last already ----

  /** Every reserved page comes after every other page in use. */
  ghost predicate NormalsFirst(reg: Registry, base: seq<Placement>) {
    forall i, j :: 0 <= i < |base| && 0 <= j < |base|
                   && base[i].page !in ReservedPages(reg, base) && base[j].page in ReservedPages(reg, base) ==>
      base[i].page < base[j].page
  }

  /** Every placement of a reserved page stands on the page its page became. */
  ghost predicate OnTargets(reg: Registry, base: seq<Placement>, baseCount: int, live: seq<Placement>, f: Frame)
    requires f.Valid() && |live| == |base|
  {
    forall i :: 0 <= i < |base| && base[i].page in ReservedPages(reg, base) && base[i].page >= 0 ==>
      live[i].page == Target(reg, base, baseCount, f, base[i].page)
  }

  lemma NormalStays(reg: Registry, base: seq<Placement>, n: nat, i: nat)
    requires AllWellFormed(base) && NormalsFirst(reg, base) && i < |base| && base[i].page !in ReservedPages(reg, base)
    ensures MovedToTail(reg, base, n)[i] == base[i]
  {
    hide ReservedPages, CountIn;
    assert WellFormed(base[i]);
    forall q | q in ReservedPages(reg, base)
      ensures q >= base[i].page
    {
      var j := SingletonOn(reg, base, q);
    }
    NoneBelow(ReservedPages(reg, base), base[i].page);
  }

  lemma {:induction false} NormalsFirstShift(reg: Registry, base: seq<Placement>, n: nat, f: Frame, k: nat)
    requires f.Valid() && AllWellFormed(base) && PagesBelow(base, n) && NormalsFirst(reg, base) && k <= |base|
    ensures |MovedToTail(reg, base, n)| == |base|
    ensures Shifted(Normal(reg, base, f, k), Normal(reg, MovedToTail(reg, base, n), f, k), 0, 0)
  {
    hide ReservedPages, CountIn, MovedToTail, NormalsFirst, Put, WellFormed;
    MovedLength(reg, base, n);
    if k > 0 {
      NormalsFirstShift(reg, base, n, f, k - 1);
      var moved := MovedToTail(reg, base, n);
      MovedSide(reg, base, n, k - 1);
      if base[k - 1].page !in ReservedPages(reg, base) {
        NormalStays(reg, base, n, k - 1);
        PutShift(reg, Normal(reg, base, f, k - 1), Normal(reg, moved, f, k - 1), 0, 0, k - 1,
                 base[k - 1], moved[k - 1], base[k - 1].page, f);
      }
    }
  }

  lemma NormalsFirstStay(reg: Registry, base: seq<Placement>, baseCount: int, live: seq<Placement>, n: nat, f: Frame)
    requires Before(reg, base, baseCount, live, n, f) && |live| == |base| && NormalsFirst(reg, base)
    ensures NormalsStay(reg, base, live, n, f)
  {
    hide ReservedPages, CountIn, MovedToTail, NormalsFirst, Normal, Remapped, LayoutOk, PagesBelow, Images, FirstTarget;
    BeforeShape(reg, base, baseCount, live, n, f);
    NormalsFirstShift(reg, base, n, f, |base|);
    NormalImages(reg, base, f, |base|);
    forall i | 0 <= i < |base| && base[i].page !in ReservedPages(reg, base)
      ensures Normal(reg, MovedToTail(reg, base, n), f, |base|).result[i] == live[i]
    {
      Side(reg, base, baseCount, f, i);
      assert i as nat in Normal(reg, base, f, |base|).done;
    }
  }

  /** When the reserved pages come last and none of their placements spilled over, any new page
      count keeps the live layout the baseline's. */
  lemma LastPagesKeep(reg: Registry, base: seq<Placement>, baseCount: int, live: seq<Placement>, n: nat, f: Frame)
    requires Before(reg, base, baseCount, live, n, f) && |live| == |base|
    requires NormalsFirst(reg, base) && OnTargets(reg, base, baseCount, live, f)
    ensures StaysDetermined(reg, base, baseCount, live, n, f)
  {
    hide ReservedPages, CountIn, MovedToTail, NormalsFirst, NormalsStay, Remapped, LayoutOk, FirstTarget, RequiredPageCount, Before,
         StandWithSingletons, GoBehindGap;
    NormalsFirstStay(reg, base, baseCount, live, n, f);
    if ReservedPages(reg, base) != {} {
      OnTargetsTogether(reg, base, baseCount, live, n, f);
      LiveToGap(reg, base, baseCount, live, n, f);
      GapToLive(reg, base, baseCount, live, n, f);
    }
  }

  lemma OnTargetsTogether(reg: Registry, base: seq<Placement>, baseCount: int, live: seq<Placement>, n: nat, f: Frame)
    requires Before(reg, base, baseCount, live, n, f) && |live| == |base| && ReservedPages(reg, base) != {}
    requires OnTargets(reg, base, baseCount, live, f)
    ensures StandWithSingletons(reg, base, live)
    ensures RequiredPageCount(live) == FirstTarget(reg, base, baseCount, f) + |ReservedPages(reg, base)|
  {
    hide ReservedPages, MovedToTail, Remapped, LayoutOk, FirstTarget, CountIn, AllWellFormed;
    BeforeShape(reg, base, baseCount, live, n, f);
    TargetsBefore(reg, base, baseCount, live, n, f);
    MovedCount(reg, base, n);
    var first, r := FirstTarget(reg, base, baseCount, f), ReservedPages(reg, base);
    forall i | 0 <= i < |base|
      ensures live[i].page < first + |r|
      ensures base[i].page in r ==> live[i].page in ReservedPages(reg, live)
    {
      Side(reg, base, baseCount, f, i);
      MovedSide(reg, base, n, i);
      if base[i].page in r {
        CountInStep(r, base[i].page, n);
        var j := SingletonOn(reg, base, base[i].page);
        assert Kept(base[j], live[j]);
        SingletonReserves(reg, live, j);
      }
    }
    RequiredIsLeast(live, first + |r|);
  }

  // ---- A new page count that loses the layout ----

  function OneCell(id: string, widgetId: string, col: int, page: int): Placement {
    Placement(id, widgetId, col, 0, 1, 1, page, true)
  }

  /** Three widgets and a singleton of one cell each, in list order. */
  function Quartet(a: int, c: int, b: int, single: int, col: int): seq<Placement> {
    [OneCell("a", "w", 0, a), OneCell("c", "w", 0, c), OneCell("b", "w", col, b), OneCell("s", "s", 0, single)]
  }

  function OneSingleton(): Registry {
    map["s" := Descriptor(true, 1, 1, 1, 1)]
  }

  /** In a grid of one cell a widget of one cell goes to the first page that is not full. */
  lemma FirstFreePage(b: Board, base: Placement, target: nat, f: Frame, stop: nat)
    requires ValidBoard(b) && f.Valid() && f.cols == 1 && f.rows == 1
    requires base == OneCell(base.instanceId, base.widgetId, base.col, base.page) && base.col >= 0
    requires target <= stop < target + MAX_SPILL && EmptyPage(b, stop) && forall page :: target <= page < stop ==> Full(b, page)
    ensures PlaceOne(OneSingleton(), b, base, target, f) == base.(page := stop, col := 0)
  {
    hide Spiral, Spill;
    var p := Scaled(OneSingleton(), base, target, f);
    RoundNonNegative(base.col, f.cols, f.savedCols);
    assert p == base.(page := target, col := 0);
    EmptyIsFree(b, stop, 0, 0, 1, 1);
    if target < stop {
      NoAnchor(b, p, f);
      SpillPasses(b, p, f, target + 1, MAX_SPILL, stop);
    }
  }

  lemma QuartetReserved(a: int, c: int, b: int, single: int, col: int)
    ensures ReservedPages(OneSingleton(), Quartet(a, c, b, single, col)) == {single}
  {
    var q := Quartet(a, c, b, single, col);
    assert IsSingleton(OneSingleton(), q[3].widgetId) && q[3].page == single;
  }

  /** Half the columns gone: the second widget of page 0 goes to the first page without a widget. */
  lemma QuartetNormals(c: int, single: nat)
    requires 1 <= c <= 2 && single != 0 && single != c
    ensures var base, f := Quartet(0, c, 0, single, 1), Frame(1, 1, 2, 1);
            && Normal(OneSingleton(), base, f, 4) == Board(Quartet(0, c, 3 - c, single, 0), {0, 1, 2})
            && HighestNormal(OneSingleton(), base, f, 4) == 2
  {
    hide PlaceOne, ReservedPages, Put;
    var reg, base, f := OneSingleton(), Quartet(0, c, 0, single, 1), Frame(1, 1, 2, 1);
    QuartetReserved(0, c, 0, single, 1);
    var b0 := Normal(reg, base, f, 0);
    FirstFreePage(b0, base[0], 0, f, 0);
    PutAt(reg, b0, 0, base[0], 0, f);
    var b1 := Normal(reg, base, f, 1);
    assert b1 == Put(reg, b0, 0, base[0], 0, f);
    FirstFreePage(b1, base[1], c, f, c);
    PutAt(reg, b1, 1, base[1], c, f);
    var b2 := Normal(reg, base, f, 2);
    assert b2 == Put(reg, b1, 1, base[1], c, f);
    QuartetFull(b2, c);
    FirstFreePage(b2, base[2], 0, f, 3 - c);
    PutAt(reg, b2, 2, base[2], 0, f);
    var b3 := Normal(reg, base, f, 3);
    assert b3 == Put(reg, b2, 2, base[2], 0, f);
    assert b3.result == Quartet(0, c, 3 - c, single, 0);
    assert Normal(reg, base, f, 4) == b3;
    assert HighestNormal(reg, base, f, 1) == 0;
    assert HighestNormal(reg, base, f, 2) == c;
    assert HighestNormal(reg, base, f, 3) == 2;
  }

  lemma QuartetFull(b: Board, c: int)
    requires ValidBoard(b) && b.done == {0, 1} && |b.result| == 4 && 1 <= c <= 2
    requires b.result[0] == OneCell("a", "w", 0, 0) && b.result[1] == OneCell("c", "w", 0, c)
    ensures Full(b, 0) && Full(b, c) && EmptyPage(b, 3 - c)
  {
    assert 0 in b.done && 1 in b.done;
  }

  lemma QuartetRemap(c: int, single: nat, n: nat)
    requires 1 <= c <= 2 && single != 0 && single != c && 1 <= n <= 4
    ensures AllWellFormed(Quartet(0, c, 0, single, 1))
    ensures Remapped(OneSingleton(), Quartet(0, c, 0, single, 1), n, Frame(1, 1, 2, 1)) == Quartet(0, c, 3 - c, 3, 0)
    ensures FirstTarget(OneSingleton(), Quartet(0, c, 0, single, 1), n, Frame(1, 1, 2, 1)) == 3
  {
    hide PlaceOne, ReservedPages, Put, Normal, HighestNormal;
    var reg, base, f := OneSingleton(), Quartet(0, c, 0, single, 1), Frame(1, 1, 2, 1);
    QuartetReserved(0, c, 0, single, 1);
    QuartetNormals(c, single);
    var b := Reserved(reg, base, n, f, 0);
    assert Reserved(reg, base, n, f, 1) == b;
    assert Reserved(reg, base, n, f, 2) == b;
    assert Reserved(reg, base, n, f, 3) == b;
    NoneBelow({single}, single);
    FirstFreePage(b, base[3], 3, f, 3);
    PutAt(reg, b, 3, base[3], 3, f);
    assert Reserved(reg, base, n, f, 4).result == Quartet(0, c, 3 - c, 3, 0);
  }

  lemma QuartetMoves(a: nat, c: nat, b: nat, single: nat, col: int)
    requires a < 4 && b < 4 && c < 4 && single < 4 && a < single && b != single && c != single
    ensures MovedToTail(OneSingleton(), Quartet(a, c, b, single, col), 4)
            == Quartet(a, if c < single then c else c - 1, if b < single then b else b - 1, 3, col)
  {
    hide ReservedPages, TailPage, MovedToTail;
    var q := Quartet(a, c, b, single, col);
    QuartetReserved(a, c, b, single, col);
    TailPages(single);
    MovedLength(OneSingleton(), q, 4);
    assert q[0].page == a && q[1].page == c && q[2].page == b && q[3].page == single;
  }

  lemma QuartetSound()
    ensures LayoutOk(Quartet(0, 2, 0, 1, 1), 3) && SoundLayout(Quartet(0, 2, 0, 1, 1), 2, 1)
    ensures RequiredPageCount(Quartet(0, 2, 1, 3, 0)) == 4
  {
    hide RequiredPageCount;
    var live := Quartet(0, 2, 1, 3, 0);
    RequiredIsLeast(live, 4);
    assert live[3].page < RequiredPageCount(live);
  }

  /** A new page count that changes nothing shown, and still the next resize shows another layout. */
  lemma PageCountLoses()
    ensures var reg, base, f := OneSingleton(), Quartet(0, 2, 0, 1, 1), Frame(1, 1, 2, 1);
            var live := Quartet(0, 2, 1, 3, 0);
            && Before(reg, base, 3, live, 4, f) && SoundLayout(base, 2, 1) && Max(1, RequiredPageCount(live)) == 4
            && MovedToTail(reg, live, 4) == live && MovedToTail(reg, base, 4) == Quartet(0, 1, 0, 3, 1)
            && Remapped(reg, Quartet(0, 1, 0, 3, 1), 4, f) == Quartet(0, 1, 2, 3, 0)
            && !StaysDetermined(reg, base, 3, live, 4, f)
  {
    hide Remapped, ReservedPages, MovedToTail, FirstTarget, Normal, RequiredPageCount, StaysDetermined, LayoutOk, SoundLayout;
    var reg, base, f := OneSingleton(), Quartet(0, 2, 0, 1, 1), Frame(1, 1, 2, 1);
    QuartetRemap(2, 1, 3);
    QuartetRemap(1, 3, 4);
    QuartetMoves(0, 2, 0, 1, 1);
    QuartetMoves(0, 2, 1, 3, 0);
    QuartetSound();
    PageCountKeeps(reg, base, 3, Quartet(0, 2, 1, 3, 0), 4, f);
    assert Quartet(0, 2, 1, 3, 0)[1] != Quartet(0, 1, 2, 3, 0)[1];
  }

  lemma TailPages(single: nat)
    requires single < 4
    ensures forall p :: 0 <= p < 4 ==> TailPage({single}, 4, p) == if p == single then 3 else if p < single then p else p - 1
  {
    forall p: nat | p <= 4
      ensures CountIn({single}, p) == if p <= single then 0 else 1
    {
      CountOne(single, p);
    }
  }

  lemma {:induction false} CountOne(single: nat, n: nat)
    ensures CountIn({single}, n) == if n <= single then 0 else 1
  {
    if n > 0 { CountOne(single, n - 1); }
  }
}
