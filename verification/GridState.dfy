/** Layouts as a grid model holds them: what an edit keeps, who owns each cell, and the layout
    a baseline has at a given grid size. */
module GridState {
  import opened GridCells
  import opened GridLayout
  import opened GridPages
  import opened GridRemap
  import opened InstanceIds

  /** Well-formed placements with distinct ids on the pages below `count`. */
  ghost predicate LayoutOk(ps: seq<Placement>, count: int) {
    AllWellFormed(ps) && UniqueIds(ps) && PagesBelow(ps, count)
  }

  /** The same widgets in the same order. */
  ghost predicate SameWidgets(base: seq<Placement>, live: seq<Placement>) {
    |base| == |live| && forall i :: 0 <= i < |base| ==> Kept(base[i], live[i])
  }

  /** No placement has an id that is still to be given out. */
  ghost predicate FreshFrom(ps: seq<Placement>, next: nat) {
    forall i, w: string, n: nat :: 0 <= i < |ps| && n >= next ==> ps[i].instanceId != InstanceId(w, n)
  }

  lemma SameWidgetsFresh(base: seq<Placement>, live: seq<Placement>, next: nat)
    requires SameWidgets(base, live) && FreshFrom(base, next)
    ensures FreshFrom(live, next)
  {
    forall i, w: string, n: nat | 0 <= i < |live| && n >= next
      ensures live[i].instanceId != InstanceId(w, n)
    {
      assert Kept(base[i], live[i]);
    }
  }

  lemma SameWidgetsUnique(base: seq<Placement>, live: seq<Placement>)
    requires SameWidgets(base, live)
    ensures UniqueIds(base) <==> UniqueIds(live)
  {
    assert forall i :: 0 <= i < |base| ==> Kept(base[i], live[i]);
  }

  /** A layout laid out for a grid, with ids that leave room for new ones. */
  ghost predicate LayoutSound(ps: seq<Placement>, cols: int, rows: int, next: nat) {
    SoundLayout(ps, cols, rows) && FreshFrom(ps, next) && (ps != [] ==> cols >= 1)
  }

  // ---- Cell ownership ----

  /** The last of the first `n` visible placements of the page that covers the cell. */
  function Owner(ps: seq<Placement>, page: int, c: int, r: int, n: nat): string
    requires n <= |ps|
  {
    if n == 0 then ""
    else if ps[n - 1].visible && ps[n - 1].page == page && Covers(ps[n - 1], c, r) then ps[n - 1].instanceId
    else Owner(ps, page, c, r, n - 1)
  }

  /** The cell array of a page holds each cell's owner. */
  ghost predicate Exact(cells: seq<string>, cols: int, rows: int, ps: seq<Placement>, page: int) {
    && |cells| == cols * rows
    && forall c, r :: 0 <= c < cols && 0 <= r < rows ==> CellAt(cells, cols, c, r) == Owner(ps, page, c, r, |ps|)
  }

  /** A cell array with nothing in it. */
  predicate NoOwners(cells: seq<string>) {
    forall k :: 0 <= k < |cells| ==> cells[k] == ""
  }

  lemma {:induction false} OwnerNone(ps: seq<Placement>, page: int, c: int, r: int, n: nat)
    requires n <= |ps| && AllWellFormed(ps)
    ensures Owner(ps, page, c, r, n) == "" <==>
            forall i :: 0 <= i < n && ps[i].visible && ps[i].page == page ==> !Covers(ps[i], c, r)
  {
    if n > 0 {
      assert WellFormed(ps[n - 1]);
      OwnerNone(ps, page, c, r, n - 1);
    }
  }

  lemma {:induction false} OwnerCovers(ps: seq<Placement>, page: int, c: int, r: int, n: nat, i: nat)
    requires i < n <= |ps| && AllWellFormed(ps) && ps[i].visible && ps[i].page == page && Covers(ps[i], c, r)
    requires forall j :: 0 <= j < |ps| && j != i ==> Apart(ps[i], ps[j])
    ensures Owner(ps, page, c, r, n) == ps[i].instanceId
  {
    if i < n - 1 {
      assert Apart(ps[i], ps[n - 1]);
      assert WellFormed(ps[i]) && WellFormed(ps[n - 1]);
      OwnerCovers(ps, page, c, r, n - 1, i);
    }
  }

  /** In a sound layout a cell array names exactly the placement that covers each cell. */
  lemma OccupancyNamesTheCover(cells: seq<string>, cols: int, rows: int, ps: seq<Placement>, page: int, c: int, r: int)
    requires Exact(cells, cols, rows, ps, page) && SoundLayout(ps, cols, rows) && AllWellFormed(ps)
    requires 0 <= c < cols && 0 <= r < rows
    ensures forall i :: 0 <= i < |ps| && ps[i].visible && ps[i].page == page && Covers(ps[i], c, r) ==>
              CellAt(cells, cols, c, r) == ps[i].instanceId
    ensures CellAt(cells, cols, c, r) != "" ==>
              exists i :: 0 <= i < |ps| && ps[i].visible && ps[i].page == page && Covers(ps[i], c, r)
                          && ps[i].instanceId == CellAt(cells, cols, c, r)
  {
    forall i | 0 <= i < |ps| && ps[i].visible && ps[i].page == page && Covers(ps[i], c, r)
      ensures CellAt(cells, cols, c, r) == ps[i].instanceId
    {
      OwnerCovers(ps, page, c, r, |ps|, i);
    }
    OwnerNone(ps, page, c, r, |ps|);
  }

  lemma {:induction false} OwnerPrefix(ps: seq<Placement>, p: Placement, page: int, c: int, r: int, n: nat)
    requires n <= |ps|
    ensures Owner(ps + [p], page, c, r, n) == Owner(ps, page, c, r, n)
  {
    if n > 0 { OwnerPrefix(ps, p, page, c, r, n - 1); }
  }

  // ---- Edits ----

  /** The rectangle is inside the grid and meets no other visible placement of the page. */
  ghost predicate CanStand(ps: seq<Placement>, cols: int, rows: int, col: int, row: int, w: int, h: int, page: int, except: string) {
    && col >= 0 && row >= 0 && col + w <= cols && row + h <= rows
    && forall i :: 0 <= i < |ps| && ps[i].page == page && ps[i].visible && ps[i].instanceId != except ==>
         !Overlap(col, row, w, h, ps[i])
  }

  lemma AppendKeeps(ps: seq<Placement>, p: Placement, count: int, cols: int, rows: int)
    requires LayoutOk(ps, count) && WellFormed(p) && p.page < count
    requires forall i :: 0 <= i < |ps| ==> ps[i].instanceId != p.instanceId
    requires CanStand(ps, cols, rows, p.col, p.row, p.colSpan, p.rowSpan, p.page, "")
    ensures LayoutOk(ps + [p], count)
    ensures SoundLayout(ps, cols, rows) ==> SoundLayout(ps + [p], cols, rows)
  {
    var qs := ps + [p];
    if SoundLayout(ps, cols, rows) {
      forall i, j | 0 <= i < |qs| && 0 <= j < |qs| && i != j
        ensures Apart(qs[i], qs[j])
      {
        if i < |ps| && j < |ps| {
          assert Apart(ps[i], ps[j]);
        } else if i < |ps| {
          assert WellFormed(ps[i]);
        } else {
          assert WellFormed(ps[j]);
        }
      }
    }
  }

  /** An id just given out is new, and later ones stay new. */
  lemma AppendFresh(ps: seq<Placement>, p: Placement, widgetId: string, next: nat)
    requires FreshFrom(ps, next) && p.instanceId == InstanceId(widgetId, next)
    ensures p.instanceId != "" && FreshFrom(ps + [p], next + 1)
    ensures forall i :: 0 <= i < |ps| ==> ps[i].instanceId != p.instanceId
  {
    hide InstanceId;
    IdNotEmpty(widgetId, next);
    forall i, w: string, n: nat | 0 <= i <= |ps| && n >= next + 1
      ensures (ps + [p])[i].instanceId != InstanceId(w, n)
    {
      if p.instanceId == InstanceId(w, n) { InstanceIdInjective(widgetId, next, w, n); }
    }
  }

  lemma IdNotEmpty(widgetId: string, n: nat)
    ensures InstanceId(widgetId, n) != ""
  {
    assert |InstanceId(widgetId, n)| >= 1;
  }

  /** Placing a new widget where it can stand. */
  lemma PlacingKeeps(ps: seq<Placement>, p: Placement, count: int, cols: int, rows: int, next: nat)
    requires LayoutOk(ps, count) && FreshFrom(ps, next) && p.instanceId == InstanceId(p.widgetId, next)
    requires p.colSpan >= 1 && p.rowSpan >= 1 && 0 <= p.page < count
    requires CanStand(ps, cols, rows, p.col, p.row, p.colSpan, p.rowSpan, p.page, "")
    ensures LayoutOk(ps + [p], count) && WellFormed(p) && cols >= 1
    ensures LayoutSound(ps, cols, rows, next) ==> LayoutSound(ps + [p], cols, rows, next + 1)
  {
    hide SoundLayout, LayoutOk, FreshFrom, InstanceId;
    AppendFresh(ps, p, p.widgetId, next);
    AppendKeeps(ps, p, count, cols, rows);
  }

  lemma ReplaceKeeps(ps: seq<Placement>, i: nat, q: Placement, count: int, cols: int, rows: int)
    requires LayoutOk(ps, count) && i < |ps| && WellFormed(q) && Kept(ps[i], q) && q.page == ps[i].page && q.visible == ps[i].visible
    requires CanStand(ps, cols, rows, q.col, q.row, q.colSpan, q.rowSpan, q.page, q.instanceId)
    ensures LayoutOk(ps[i := q], count)
    ensures SoundLayout(ps, cols, rows) ==> SoundLayout(ps[i := q], cols, rows)
  {
    var qs := ps[i := q];
    if SoundLayout(ps, cols, rows) {
      forall a, b | 0 <= a < |qs| && 0 <= b < |qs| && a != b
        ensures Apart(qs[a], qs[b])
      {
        assert Apart(ps[a], ps[b]);
        assert ps[a].instanceId != ps[b].instanceId;
      }
    }
  }

  /** A placement takes another rectangle of its page. */
  lemma ReshapingKeeps(ps: seq<Placement>, i: nat, q: Placement, count: int, cols: int, rows: int, next: nat)
    requires LayoutOk(ps, count) && i < |ps| && q == ps[i].(col := q.col, row := q.row, colSpan := q.colSpan, rowSpan := q.rowSpan)
    requires q.colSpan >= 1 && q.rowSpan >= 1
    requires CanStand(ps, cols, rows, q.col, q.row, q.colSpan, q.rowSpan, q.page, q.instanceId)
    ensures LayoutOk(ps[i := q], count)
    ensures LayoutSound(ps, cols, rows, next) ==> LayoutSound(ps[i := q], cols, rows, next)
  {
    hide SoundLayout, UniqueIds, FreshFrom;
    assert WellFormed(ps[i]);
    ReplaceKeeps(ps, i, q, count, cols, rows);
    assert SameWidgets(ps, ps[i := q]);
    if FreshFrom(ps, next) { SameWidgetsFresh(ps, ps[i := q], next); }
  }

  lemma RemoveKeeps(ps: seq<Placement>, i: nat, count: int, cols: int, rows: int)
    requires LayoutOk(ps, count) && i < |ps|
    ensures LayoutOk(ps[..i] + ps[i + 1..], count)
    ensures SoundLayout(ps, cols, rows) ==> SoundLayout(ps[..i] + ps[i + 1..], cols, rows)
  {
    var qs := ps[..i] + ps[i + 1..];
    assert forall k :: 0 <= k < |qs| ==> qs[k] == if k < i then ps[k] else ps[k + 1];
    if SoundLayout(ps, cols, rows) {
      forall a, b | 0 <= a < |qs| && 0 <= b < |qs| && a != b
        ensures Apart(qs[a], qs[b])
      {
        var x, y := if a < i then a else a + 1, if b < i then b else b + 1;
        assert Apart(ps[x], ps[y]);
      }
    }
  }

  lemma RemovingKeeps(ps: seq<Placement>, i: nat, count: int, cols: int, rows: int, next: nat)
    requires LayoutOk(ps, count) && i < |ps|
    ensures LayoutOk(ps[..i] + ps[i + 1..], count)
    ensures LayoutSound(ps, cols, rows, next) ==> LayoutSound(ps[..i] + ps[i + 1..], cols, rows, next)
  {
    hide SoundLayout, LayoutOk;
    RemoveKeeps(ps, i, count, cols, rows);
    var qs := ps[..i] + ps[i + 1..];
    assert forall k :: 0 <= k < |qs| ==> qs[k] == if k < i then ps[k] else ps[k + 1];
  }

  /** The placements that are not on the page, in order. */
  function WithoutPage(ps: seq<Placement>, page: int): seq<Placement> {
    if ps == [] then []
    else if ps[0].page == page then WithoutPage(ps[1..], page)
    else [ps[0]] + WithoutPage(ps[1..], page)
  }

  lemma {:induction false} WithoutPageMembers(ps: seq<Placement>, page: int)
    ensures forall q :: q in WithoutPage(ps, page) <==> q in ps && q.page != page
  {
    if ps != [] {
      WithoutPageMembers(ps[1..], page);
      assert forall q :: q in ps <==> q == ps[0] || q in ps[1..];
    }
  }

  lemma WithoutPageStep(ps: seq<Placement>, i: nat, page: int)
    requires i < |ps|
    ensures WithoutPage(ps[i..], page)
            == if ps[i].page == page then WithoutPage(ps[i + 1..], page) else [ps[i]] + WithoutPage(ps[i + 1..], page)
  {
    assert ps[i..][1..] == ps[i + 1..];
  }

  /** Removal from the back, one placement at a time. */
  method RemoveFromPage(ps: seq<Placement>, page: int, ghost count: int, ghost cols: int, ghost rows: int, ghost next: nat)
    returns (left: seq<Placement>)
    requires LayoutOk(ps, count)
    ensures left == WithoutPage(ps, page) && LayoutOk(left, count)
    ensures LayoutSound(ps, cols, rows, next) ==> LayoutSound(left, cols, rows, next)
  {
    hide LayoutOk, LayoutSound, WithoutPage;
    left := ps;
    var i := |ps| - 1;
    NothingLeft(ps, page);
    while i >= 0
      invariant -1 <= i < |ps| && left == ps[..i + 1] + WithoutPage(ps[i + 1..], page)
      invariant LayoutOk(left, count) && (LayoutSound(ps, cols, rows, next) ==> LayoutSound(left, cols, rows, next))
    {
      WithoutPageStep(ps, i, page);
      ghost var rest := WithoutPage(ps[i + 1..], page);
      assert left[i] == ps[i];
      if left[i].page == page {
        RemovingKeeps(left, i, count, cols, rows, next);
        assert left[..i] == ps[..i] && left[i + 1..] == rest;
        left := left[..i] + left[i + 1..];
      } else {
        assert left == ps[..i] + ([ps[i]] + rest);
      }
      i := i - 1;
    }
  }

  lemma NothingLeft(ps: seq<Placement>, page: int)
    ensures ps == ps[..|ps|] + WithoutPage(ps[|ps|..], page)
  {
  }

  /** Pages from `at` on move one page back. */
  function Raised(ps: seq<Placement>, at: int): (qs: seq<Placement>)
    ensures |qs| == |ps|
    ensures forall i :: 0 <= i < |ps| ==> qs[i] == ps[i].(page := if ps[i].page >= at then ps[i].page + 1 else ps[i].page)
  {
    seq(|ps|, i requires 0 <= i < |ps| => ps[i].(page := if ps[i].page >= at then ps[i].page + 1 else ps[i].page))
  }

  /** Pages after `page` move one page forward. */
  function Lowered(ps: seq<Placement>, page: int): (qs: seq<Placement>)
    ensures |qs| == |ps|
    ensures forall i :: 0 <= i < |ps| ==> qs[i] == ps[i].(page := if ps[i].page > page then ps[i].page - 1 else ps[i].page)
  {
    seq(|ps|, i requires 0 <= i < |ps| => ps[i].(page := if ps[i].page > page then ps[i].page - 1 else ps[i].page))
  }

  method RaisePages(ps: seq<Placement>, at: int) returns (qs: seq<Placement>)
    ensures qs == Raised(ps, at)
  {
    qs := ps;
    var i := 0;
    while i < |ps|
      invariant 0 <= i <= |ps| == |qs|
      invariant forall k :: 0 <= k < i ==> qs[k] == Raised(ps, at)[k]
      invariant forall k :: i <= k < |ps| ==> qs[k] == ps[k]
    {
      if qs[i].page >= at { qs := qs[i := qs[i].(page := qs[i].page + 1)]; }
      i := i + 1;
    }
  }

  method LowerPages(ps: seq<Placement>, page: int) returns (qs: seq<Placement>)
    ensures qs == Lowered(ps, page)
  {
    qs := ps;
    var i := 0;
    while i < |ps|
      invariant 0 <= i <= |ps| == |qs|
      invariant forall k :: 0 <= k < i ==> qs[k] == Lowered(ps, page)[k]
      invariant forall k :: i <= k < |ps| ==> qs[k] == ps[k]
    {
      if qs[i].page > page { qs := qs[i := qs[i].(page := qs[i].page - 1)]; }
      i := i + 1;
    }
  }

  lemma RaisingKeeps(ps: seq<Placement>, at: nat, count: int, cols: int, rows: int, next: nat)
    requires LayoutOk(ps, count) && at <= count
    ensures LayoutOk(Raised(ps, at), count + 1)
    ensures LayoutSound(ps, cols, rows, next) ==> LayoutSound(Raised(ps, at), cols, rows, next)
  {
    hide SoundLayout, UniqueIds, FreshFrom;
    assert forall i :: 0 <= i < |ps| ==> WellFormed(ps[i]);
    RenamingKeeps(ps, Raised(ps, at), count, count + 1, cols, rows, next);
  }

  lemma LoweringKeeps(ps: seq<Placement>, page: nat, count: int, cols: int, rows: int, next: nat)
    requires LayoutOk(ps, count) && page < count && forall q :: q in ps ==> q.page != page
    ensures LayoutOk(Lowered(ps, page), count - 1)
    ensures LayoutSound(ps, cols, rows, next) ==> LayoutSound(Lowered(ps, page), cols, rows, next)
  {
    hide SoundLayout, UniqueIds, FreshFrom;
    assert forall i :: 0 <= i < |ps| ==> WellFormed(ps[i]) && ps[i] in ps;
    RenamingKeeps(ps, Lowered(ps, page), count, count - 1, cols, rows, next);
  }

  lemma RenamingKeeps(ps: seq<Placement>, qs: seq<Placement>, count: int, count': int, cols: int, rows: int, next: nat)
    requires LayoutOk(ps, count) && Renamed(ps, qs)
    requires forall i :: 0 <= i < |qs| ==> 0 <= qs[i].page < count'
    ensures LayoutOk(qs, count')
    ensures LayoutSound(ps, cols, rows, next) ==> LayoutSound(qs, cols, rows, next)
  {
    hide SoundLayout, LayoutOk;
    RenameKeeps(ps, qs, count, count', cols, rows);
    assert forall i :: 0 <= i < |ps| ==> qs[i].instanceId == ps[i].instanceId;
  }

  /** Renaming pages without merging any keeps a layout. */
  lemma RenameKeeps(ps: seq<Placement>, qs: seq<Placement>, count: int, count': int, cols: int, rows: int)
    requires LayoutOk(ps, count) && Renamed(ps, qs)
    requires forall i :: 0 <= i < |qs| ==> 0 <= qs[i].page < count'
    ensures LayoutOk(qs, count')
    ensures SoundLayout(ps, cols, rows) ==> SoundLayout(qs, cols, rows)
  {
    RenamedSound(ps, qs, cols, rows);
    assert forall i :: 0 <= i < |ps| ==> WellFormed(ps[i]);
  }

  // ---- The layout of a baseline ----

  /** Grid sizes: not set yet, or at least one cell. */
  predicate SizeOk(cols: int, rows: int) {
    (cols == 0 && rows == 0) || (cols >= 1 && rows >= 1)
  }

  /** What a grid of the given size shows of a baseline saved at another size. */
  ghost function LayoutFor(reg: Registry, base: seq<Placement>, baseCount: int, f: Frame): seq<Placement>
    requires AllWellFormed(base) && f.cols >= 1 && f.rows >= 1 && (f.savedCols != 0 ==> f.Valid())
  {
    if f.savedCols == 0 || (f.cols == f.savedCols && f.rows == f.savedRows) then base
    else Remapped(reg, base, baseCount, f)
  }

  ghost function PagesFor(reg: Registry, base: seq<Placement>, baseCount: int, f: Frame): int
    requires AllWellFormed(base) && f.cols >= 1 && f.rows >= 1 && (f.savedCols != 0 ==> f.Valid())
  {
    if f.savedCols == 0 || (f.cols == f.savedCols && f.rows == f.savedRows) then baseCount
    else Max(baseCount, RequiredPageCount(Remapped(reg, base, baseCount, f)))
  }

  lemma RequiredMonotone(base: seq<Placement>, live: seq<Placement>)
    requires |base| == |live| && forall i :: 0 <= i < |base| ==> live[i].page >= base[i].page
    ensures RequiredPageCount(base) <= RequiredPageCount(live)
  {
    forall i | 0 <= i < |base|
      ensures base[i].page < RequiredPageCount(live)
    {
      assert live[i].page < RequiredPageCount(live);
    }
    RequiredIsLeast(base, RequiredPageCount(live));
  }

  lemma RemapKeeps(reg: Registry, base: seq<Placement>, baseCount: int, f: Frame)
    requires f.Valid() && LayoutOk(base, baseCount) && baseCount >= 1
    ensures var live := Remapped(reg, base, baseCount, f);
            && LayoutOk(live, Max(baseCount, RequiredPageCount(live))) && SameWidgets(base, live)
            && RequiredPageCount(base) <= RequiredPageCount(live)
            && (|base| <= MAX_PLACEMENTS ==> SoundLayout(live, f.cols, f.rows))
  {
    hide Remapped, SoundLayout, WellFormed, Hidden, InGrid;
    var live := Remapped(reg, base, baseCount, f);
    RemapKeepsAll(reg, base, baseCount, f);
    if |base| <= MAX_PLACEMENTS { RemapSound(reg, base, baseCount, f); }
    forall i | 0 <= i < |base|
      ensures live[i].page >= base[i].page
    {
      RemapNeverEarlier(reg, base, baseCount, f, i);
    }
    RequiredMonotone(base, live);
    SameWidgetsUnique(base, live);
  }

  lemma LayoutForKeeps(reg: Registry, base: seq<Placement>, baseCount: int, f: Frame)
    requires f.cols >= 1 && f.rows >= 1 && (f.savedCols != 0 ==> f.Valid())
    requires LayoutOk(base, baseCount) && baseCount >= 1
    ensures var live, count := LayoutFor(reg, base, baseCount, f), PagesFor(reg, base, baseCount, f);
            && count >= baseCount && LayoutOk(live, count) && SameWidgets(base, live)
            && RequiredPageCount(base) <= RequiredPageCount(live)
            && (f.savedCols != 0 && SoundLayout(base, f.savedCols, f.savedRows) && |base| <= MAX_PLACEMENTS ==>
                  SoundLayout(live, f.cols, f.rows))
  {
    hide Remapped, SoundLayout, AllWellFormed, UniqueIds;
    if !(f.savedCols == 0 || (f.cols == f.savedCols && f.rows == f.savedRows)) {
      RemapKeeps(reg, base, baseCount, f);
    }
  }

  // ---- Reserved pages move to the tail of both layouts ----

  lemma SameReserved(reg: Registry, base: seq<Placement>, live: seq<Placement>)
    requires SameWidgets(base, live)
    ensures ReservedPages(reg, base) != {} ==> ReservedPages(reg, live) != {}
  {
    if p :| p in ReservedPages(reg, base) {
      var i := SingletonOn(reg, base, p);
      assert Kept(base[i], live[i]);
      assert live[i].page in ReservedPages(reg, live);
    }
  }

  lemma NoReserved(reg: Registry, ps: seq<Placement>, count: nat)
    requires ReservedPages(reg, ps) == {}
    ensures MovedToTail(reg, ps, count) == ps
  {
    hide ReservedPages;
    NothingMoves(reg, ps, count);
  }

  lemma MoveLayout(reg: Registry, ps: seq<Placement>, was: int, count: nat)
    requires LayoutOk(ps, was) && RequiredPageCount(ps) <= count
    ensures LayoutOk(MovedToTail(reg, ps, count), count) && SameWidgets(ps, MovedToTail(reg, ps, count))
    ensures RequiredPageCount(MovedToTail(reg, ps, count)) <= count && PagesBelow(ps, count)
  {
    hide TailPage, ReservedPages, Renamed;
    MoveKeepsPages(reg, ps, count);
    MoveRenames(reg, ps, count);
    RenamedSound(ps, MovedToTail(reg, ps, count), 0, 0);
    RequiredIsLeast(MovedToTail(reg, ps, count), count);
  }

  lemma MovingKeeps(reg: Registry, base: seq<Placement>, live: seq<Placement>, baseCount: int, liveCount: int, count: nat)
    requires LayoutOk(base, baseCount) && LayoutOk(live, liveCount) && SameWidgets(base, live)
    requires RequiredPageCount(base) <= RequiredPageCount(live) <= count
    ensures var base', live' := MovedToTail(reg, base, count), MovedToTail(reg, live, count);
            && LayoutOk(base', count) && LayoutOk(live', count) && SameWidgets(base', live') && SameWidgets(live, live')
            && RequiredPageCount(base') <= RequiredPageCount(live') && |base'| == |base|
  {
    hide MovedToTail, LayoutOk, ReservedPages, RequiredPageCount;
    MoveLayout(reg, base, baseCount, count);
    MoveLayout(reg, live, liveCount, count);
    var base', live' := MovedToTail(reg, base, count), MovedToTail(reg, live, count);
    forall i | 0 <= i < |base|
      ensures Kept(base'[i], live'[i])
    {
      assert Kept(base[i], base'[i]) && Kept(base[i], live[i]) && Kept(live[i], live'[i]);
    }
    if ReservedPages(reg, live) == {} {
      SameReserved(reg, base, live);
      NoReserved(reg, base, count);
      NoReserved(reg, live, count);
    } else {
      WellFormedOf(live, liveCount);
      MoveRequires(reg, live, count);
    }
  }

  lemma WellFormedOf(ps: seq<Placement>, count: int)
    requires LayoutOk(ps, count)
    ensures AllWellFormed(ps)
  {
  }

  lemma MovingSound(reg: Registry, ps: seq<Placement>, count: nat, cols: int, rows: int)
    ensures SoundLayout(ps, cols, rows) <==> SoundLayout(MovedToTail(reg, ps, count), cols, rows)
  {
    MoveRenames(reg, ps, count);
    RenamedSound(ps, MovedToTail(reg, ps, count), cols, rows);
  }

  lemma MovingFresh(reg: Registry, ps: seq<Placement>, count: nat, next: nat)
    ensures FreshFrom(ps, next) ==> FreshFrom(MovedToTail(reg, ps, count), next)
  {
    assert SameWidgets(ps, MovedToTail(reg, ps, count));
    if FreshFrom(ps, next) { SameWidgetsFresh(ps, MovedToTail(reg, ps, count), next); }
  }

  // ---- Pages of persisted placements ----

  function Clamped(ps: seq<Placement>): seq<Placement> {
    seq(|ps|, i requires 0 <= i < |ps| => ps[i].(page := Max(0, ps[i].page)))
  }

  method ClampPages(ps: seq<Placement>) returns (qs: seq<Placement>)
    ensures qs == Clamped(ps)
  {
    qs := ps;
    var i := 0;
    while i < |ps|
      invariant 0 <= i <= |ps| == |qs|
      invariant forall k :: 0 <= k < i ==> qs[k] == Clamped(ps)[k]
      invariant forall k :: i <= k < |ps| ==> qs[k] == ps[k]
    {
      qs := qs[i := qs[i].(page := Max(0, qs[i].page))];
      i := i + 1;
    }
  }

  lemma ClampedOk(ps: seq<Placement>, count: int)
    requires UniqueIds(ps) && (forall i :: 0 <= i < |ps| ==> WellFormed(ps[i].(page := 0)))
    requires RequiredPageCount(Clamped(ps)) <= count
    ensures LayoutOk(Clamped(ps), count) && SameWidgets(Clamped(ps), Clamped(ps))
  {
    var qs := Clamped(ps);
    forall i | 0 <= i < |ps|
      ensures WellFormed(qs[i])
    {
      assert WellFormed(ps[i].(page := 0));
    }
  }
}
