/** One dashboard's grid: a live layout, the baseline it was made from, and a cell cache of
    the active page. */
module WidgetGrid {
  import opened GridCells
  import opened GridLayout
  import opened GridPages
  import opened GridRemap
  import opened GridState
  import opened InstanceIds
  import opened PageCounts
  import opened RemapSearch
  import opened Results
  import opened Sizes

  /** Both layouts with their page counts, the grid sizes, and whether a remap is deferred. */
  datatype View = View(registry: Registry, base: seq<Placement>, baseCount: int, live: seq<Placement>, count: int,
                       grid: Frame, pending: bool)
  {
    /** A layout is shown that was made from the baseline of another size. */
    predicate ShowsRemap() {
      grid.cols >= 1 && grid.savedCols != 0 && !pending && !(grid.savedCols == grid.cols && grid.savedRows == grid.rows)
    }
  }

  /** With the wanted page count, what is shown stays the baseline's layout. */
  ghost predicate StaysAt(v: View, wanted: int) {
    wanted >= 1 && v.ShowsRemap() ==>
      && v.grid.Valid() && |v.live| == |v.base|
      && StaysDetermined(v.registry, v.base, v.baseCount, v.live, Max(wanted, RequiredPageCount(v.live)), v.grid)
  }

  /** The span respects the widget's limits, when the widget is known. */
  predicate WithinLimits(reg: Registry, widgetId: string, colSpan: int, rowSpan: int) {
    widgetId in reg ==>
      reg[widgetId].minCols <= colSpan <= reg[widgetId].maxCols && reg[widgetId].minRows <= rowSpan <= reg[widgetId].maxRows
  }

  class WidgetGridModel {
    var registry: Registry
    var live: seq<Placement>
    var base: seq<Placement>
    var occupancy: seq<string>
    var cols: int
    var rows: int
    var savedCols: int
    var savedRows: int
    var nextInstanceId: nat
    var activePage: int
    var pageCount: int
    var basePageCount: int
    var widgetSelected: bool
    var remapPending: bool
    var pendingCols: int
    var pendingRows: int

    /** Neither placements nor a saved size have been set. */
    predicate Unloaded()
      reads `base, `savedCols
    {
      base == [] && savedCols == 0
    }

    /** Both layouts are well-formed and name the same widgets, pages are in range, a remap is
        deferred only while a widget is selected, and otherwise the cell cache of a loaded model
        is exact; without placements the cache has nothing in it. */
    ghost predicate Valid()
      reads this
    {
      && ValidRegistry(registry) && SizeOk(cols, rows)
      && (savedCols != 0 ==> savedCols >= 1 && savedRows >= 1)
      && LayoutOk(live, pageCount) && LayoutOk(base, basePageCount) && SameWidgets(base, live)
      && RequiredPageCount(base) <= RequiredPageCount(live)
      && 0 <= activePage < pageCount && basePageCount >= 1
      && (remapPending ==> widgetSelected && cols >= 1)
      && (base == [] ==> NoOwners(occupancy)) && (!remapPending && !Unloaded() ==> Cached())
    }

    /** The cell cache says who owns each cell of the active page. */
    ghost predicate Cached()
      reads `occupancy, `cols, `rows, `live, `activePage
    {
      Exact(occupancy, cols, rows, live, activePage)
    }

    /** A remap keeps the widgets apart. */
    predicate Remappable()
      reads `base
    {
      |base| <= MAX_PLACEMENTS
    }

    /** The same, of a remap that was deferred. */
    predicate Roomy()
      reads `remapPending, `base
    {
      remapPending ==> Remappable()
    }

    /** The baseline is laid out for the saved size, the live layout for the current one, ids to
        come are new, a widget is selected only on a loaded grid, and before that the cell cache
        has the size of the grid. */
    ghost predicate Sound()
      reads this
    {
      && (base != [] ==> savedCols != 0 && cols >= 1)
      && SoundLayout(base, savedCols, savedRows)
      && (!remapPending ==> SoundLayout(live, cols, rows))
      && FreshFrom(live, nextInstanceId)
      && (widgetSelected ==> cols >= 1 && !Unloaded())
      && (Unloaded() ==> |occupancy| == cols * rows)
    }

    ghost function Grid(): Frame
      reads this
    {
      Frame(cols, rows, savedCols, savedRows)
    }

    ghost function Shown(): View
      reads this
    {
      View(registry, base, basePageCount, live, pageCount, Grid(), remapPending)
    }

    /** The live layout is the one the baseline has at this size. */
    ghost predicate Determined()
      requires Valid()
      reads this
    {
      cols >= 1 && savedCols != 0 && !remapPending ==>
        live == LayoutFor(registry, base, basePageCount, Grid()) && pageCount == PagesFor(registry, base, basePageCount, Grid())
    }

    /** Live layout and baseline are one, at one size. */
    ghost predicate Committed()
      reads this
    {
      base == live && basePageCount == pageCount && savedCols == cols && savedRows == rows && !remapPending
    }

    // ---- What a deferred remap will give ----

    ghost function SettledLive(): seq<Placement>
      requires Valid()
      reads this
    {
      if remapPending && !Unloaded() then LayoutFor(registry, base, basePageCount, Grid()) else live
    }

    ghost function SettledCount(): int
      requires Valid()
      reads this
    {
      if remapPending && !Unloaded() then PagesFor(registry, base, basePageCount, Grid()) else pageCount
    }

    ghost function SettledPage(): int
      requires Valid()
      reads this
    {
      Min(activePage, SettledCount() - 1)
    }

    // ---- Construction ----

    constructor (reg: Registry)
      requires ValidRegistry(reg)
      ensures Valid() && Sound() && Determined()
      ensures registry == reg && live == [] && base == [] && pageCount == 2 && basePageCount == 2 && activePage == 0
      ensures cols == 0 && rows == 0 && savedCols == 0 && savedRows == 0 && nextInstanceId == 0
      ensures !widgetSelected && !remapPending && occupancy == []
    {
      registry := reg;
      live, base, occupancy := [], [], [];
      cols, rows, savedCols, savedRows := 0, 0, 0, 0;
      nextInstanceId, activePage, pageCount, basePageCount := 0, 0, 2, 2;
      widgetSelected, remapPending, pendingCols, pendingRows := false, false, 0, 0;
    }

    // ---- The cell cache ----

    method ClearOccupancy()
      requires cols >= 0 && rows >= 0
      modifies this`occupancy
      ensures |occupancy| == cols * rows && NoOwners(occupancy)
      ensures forall c, r :: 0 <= c < cols && 0 <= r < rows ==> CellAt(occupancy, cols, c, r) == ""
    {
      ProductSign(cols, rows);
      occupancy := Blank(cols * rows);
    }

    method MarkOccupied(p: Placement)
      requires cols >= 0 && rows >= 0 && |occupancy| == cols * rows && p.col >= 0 && p.row >= 0
      modifies this`occupancy
      ensures |occupancy| == cols * rows
      ensures forall c, r :: 0 <= c < cols && 0 <= r < rows ==>
                CellAt(occupancy, cols, c, r) == if Covers(p, c, r) then p.instanceId else old(CellAt(occupancy, cols, c, r))
    {
      occupancy := MarkCells(occupancy, cols, rows, p);
    }

    method RebuildOccupancy()
      requires cols >= 0 && rows >= 0 && AllWellFormed(live)
      modifies this`occupancy
      ensures Exact(occupancy, cols, rows, live, activePage) && (live == [] ==> NoOwners(occupancy)) && |occupancy| == cols * rows
    {
      hide CellAt, Covers, NoOwners;
      ClearOccupancy();
      var i := 0;
      while i < |live|
        invariant 0 <= i <= |live| && |occupancy| == cols * rows
        invariant forall c, r :: 0 <= c < cols && 0 <= r < rows ==>
                    CellAt(occupancy, cols, c, r) == Owner(live, activePage, c, r, i)
        invariant live == [] ==> NoOwners(occupancy)
        modifies this`occupancy
      {
        if live[i].visible && live[i].page == activePage {
          assert WellFormed(live[i]);
          MarkOccupied(live[i]);
        }
        i := i + 1;
      }
    }

    method CellOwner(col: int, row: int) returns (owner: string)
      requires Valid() && Cached()
      ensures owner == if 0 <= col < cols && 0 <= row < rows then Owner(live, activePage, col, row, |live|) else ""
    {
      hide LayoutOk, SameWidgets, RequiredPageCount, Owner;
      if col < 0 || col >= cols || row < 0 || row >= rows { return ""; }
      IndexInside(cols, rows, col, row);
      assert CellAt(occupancy, cols, col, row) == Owner(live, activePage, col, row, |live|);
      return occupancy[Index(cols, col, row)];
    }

    // ---- Lookup and collision ----

    method FindPlacement(instanceId: string) returns (idx: int)
      ensures -1 <= idx < |live|
      ensures idx >= 0 ==> live[idx].instanceId == instanceId
      ensures idx < 0 ==> forall i :: 0 <= i < |live| ==> live[i].instanceId != instanceId
    {
      var i := 0;
      while i < |live|
        invariant 0 <= i <= |live| && forall k :: 0 <= k < i ==> live[k].instanceId != instanceId
      {
        if live[i].instanceId == instanceId { return i; }
        i := i + 1;
      }
      return -1;
    }

    method CanPlaceOnPage(col: int, row: int, colSpan: int, rowSpan: int, page: int, except: string) returns (can: bool)
      requires AllWellFormed(live)
      ensures can <==> CanStand(live, cols, rows, col, row, colSpan, rowSpan, page, except)
    {
      hide Overlap;
      if col < 0 || row < 0 { return false; }
      if col + colSpan > cols || row + rowSpan > rows { return false; }
      var i := 0;
      while i < |live|
        invariant 0 <= i <= |live|
        invariant forall k :: 0 <= k < i && live[k].page == page && live[k].visible && live[k].instanceId != except ==>
                    !Overlap(col, row, colSpan, rowSpan, live[k])
      {
        var p := live[i];
        assert WellFormed(p);
        if p.page == page && p.visible && (except == "" || p.instanceId != except) {
          if Overlap(col, row, colSpan, rowSpan, p) { return false; }
        }
        i := i + 1;
      }
      return true;
    }

    /** The first free anchor of the active page, row by row. */
    method FindFirstAvailableCell(colSpan: int, rowSpan: int) returns (cell: Option<Anchor>)
      requires AllWellFormed(live)
      ensures cell.Some? ==>
                var a := cell.value;
                && CanStand(live, cols, rows, a.col, a.row, colSpan, rowSpan, activePage, "")
                && forall c, r :: (r < a.row || (r == a.row && c < a.col)) ==>
                     !CanStand(live, cols, rows, c, r, colSpan, rowSpan, activePage, "")
      ensures cell.None? ==> forall c, r :: !CanStand(live, cols, rows, c, r, colSpan, rowSpan, activePage, "")
    {
      hide Overlap;
      var r := 0;
      while r <= rows - rowSpan
        invariant r >= 0
        invariant forall x, y :: y < r ==> !CanStand(live, cols, rows, x, y, colSpan, rowSpan, activePage, "")
      {
        var c := 0;
        while c <= cols - colSpan
          invariant c >= 0
          invariant forall x, y :: y < r || (y == r && x < c) ==>
                      !CanStand(live, cols, rows, x, y, colSpan, rowSpan, activePage, "")
        {
          var can := CanPlaceOnPage(c, r, colSpan, rowSpan, activePage, "");
          if can { return Some(Anchor(c, r)); }
          c := c + 1;
        }
        r := r + 1;
      }
      return None;
    }

    // ---- Page count, remap, promotion ----

    method SetCurrentPageCount(wanted: int)
      requires SizeOk(cols, rows) && AllWellFormed(live)
      modifies this`pageCount, this`activePage, this`occupancy
      ensures pageCount == Max(1, wanted) && activePage == Max(0, Min(old(activePage), pageCount - 1))
      ensures if activePage == old(activePage) then unchanged(`occupancy)
              else Exact(occupancy, cols, rows, live, activePage) && (live == [] ==> NoOwners(occupancy)) && |occupancy| == cols * rows
    {
      hide Exact, NoOwners;
      var count := Max(1, wanted);
      pageCount := count;
      var clamped := Max(0, Min(activePage, pageCount - 1));
      var changed := activePage != clamped;
      activePage := clamped;
      if changed { RebuildOccupancy(); }
    }

    method RemapPlacements(newCols: int, newRows: int)
      requires SizeOk(cols, rows) && Frame(newCols, newRows, savedCols, savedRows).Valid()
      requires AllWellFormed(live) && LayoutOk(base, basePageCount) && basePageCount >= 1
      modifies this`live, this`pageCount, this`activePage, this`occupancy
      ensures live == Remapped(registry, base, basePageCount, Frame(newCols, newRows, savedCols, savedRows))
      ensures pageCount == Max(basePageCount, RequiredPageCount(live))
      ensures activePage == Max(0, Min(old(activePage), pageCount - 1))
    {
      hide Exact, Remapped, WellFormed, SoundLayout, UniqueIds, PagesBelow;
      var f := Frame(newCols, newRows, savedCols, savedRows);
      RemapKeeps(registry, base, basePageCount, f);
      live := RemapAll(registry, base, basePageCount, f);
      var required := ComputeRequiredPageCount(live);
      SetCurrentPageCount(Max(basePageCount, required));
    }

    /** Makes the live layout the one of the baseline, at a size that is not the one it shows. */
    method AdoptLayout()
      requires SizeOk(cols, rows) && cols >= 1 && (savedCols != 0 ==> savedCols >= 1 && savedRows >= 1)
      requires AllWellFormed(live) && LayoutOk(base, basePageCount) && basePageCount >= 1
      requires base != [] || savedCols != 0
      modifies this`live, this`pageCount, this`activePage, this`occupancy, this`savedCols, this`savedRows
      ensures live == old(LayoutFor(registry, base, basePageCount, Grid()))
      ensures pageCount == old(PagesFor(registry, base, basePageCount, Grid()))
      ensures activePage == Max(0, Min(old(activePage), pageCount - 1))
      ensures savedCols == if old(savedCols) == 0 then cols else old(savedCols)
      ensures savedRows == if old(savedCols) == 0 then rows else old(savedRows)
      ensures Exact(occupancy, cols, rows, live, activePage) && (live == [] ==> NoOwners(occupancy))
    {
      hide NoOwners, Exact, Remapped, WellFormed, SoundLayout, UniqueIds, PagesBelow, RequiredPageCount;
      LayoutForKeeps(registry, base, basePageCount, Grid());
      if savedCols == 0 {
        savedCols, savedRows := cols, rows;
        live := base;
        SetCurrentPageCount(basePageCount);
      } else if cols == savedCols && rows == savedRows {
        live := base;
        SetCurrentPageCount(basePageCount);
      } else {
        RemapPlacements(cols, rows);
      }
      RebuildOccupancy();
    }

    /** A deferred remap takes place; without one nothing happens. Afterwards the cell cache is
        exact, except on a model never loaded whose cache was made for another size. */
    method ApplyPendingRemap()
      requires Valid()
      modifies this
      ensures Valid() && !remapPending
      ensures live == old(SettledLive()) && pageCount == old(SettledCount()) && activePage == old(SettledPage())
      ensures unchanged(`registry, `base, `basePageCount, `cols, `rows, `nextInstanceId, `widgetSelected)
      ensures old(savedCols) != 0 ==> unchanged(`savedCols, `savedRows)
      ensures old(Sound() && Roomy()) ==> Sound()
      ensures old(Determined()) || old(remapPending) ==> Determined()
      ensures !old(remapPending) ==> unchanged(this)
      ensures old(Unloaded()) ==> unchanged(`occupancy, `savedCols, `savedRows)
      ensures Cached() <==> !Unloaded() || |old(occupancy)| == cols * rows
    {
      hide Exact, Remapped, WellFormed, SoundLayout, UniqueIds, PagesBelow, RequiredPageCount, SameWidgets, FreshFrom, NoOwners;
      if !remapPending {
        CacheIsExact();
        return;
      }
      remapPending := false;
      if base == [] && savedCols == 0 {
        CacheIsExact();
        return;
      }
      LayoutForKeeps(registry, base, basePageCount, Grid());
      AdoptLayout();
      if base == [] { SameEmpty(base, live); }
      PendingFresh(base, old(live), live, nextInstanceId);
    }

    /** Without a deferred remap, the cache can only be of the wrong size, before anything is loaded. */
    lemma CacheIsExact()
      requires Valid() && !remapPending
      ensures Cached() <==> !Unloaded() || |occupancy| == cols * rows
    {
      hide LayoutOk, RequiredPageCount, CellAt;
      if Unloaded() {
        SameEmpty(base, live);
        if |occupancy| == cols * rows { NoOwnersExact(occupancy, cols, rows, activePage); }
      }
    }

    /** What an edit keeps before it commits. */
    ghost predicate LiveShape()
      reads `registry, `cols, `rows, `live, `pageCount, `activePage, `remapPending
    {
      && ValidRegistry(registry) && SizeOk(cols, rows) && LayoutOk(live, pageCount) && 0 <= activePage < pageCount
      && !remapPending
    }

    ghost predicate LiveValid()
      reads `registry, `cols, `rows, `live, `pageCount, `activePage, `remapPending, `occupancy
    {
      LiveShape() && Cached()
    }

    ghost predicate LiveSound()
      reads this
    {
      LayoutSound(live, cols, rows, nextInstanceId) && (widgetSelected ==> cols >= 1)
    }

    lemma SettledIsLive()
      requires Valid() && !remapPending
      ensures LiveShape() && (Sound() ==> LiveSound()) && AllWellFormed(live) && SizeOk(cols, rows)
      ensures live != [] || Sound() || Cached() ==> LiveValid()
      ensures LayoutOk(live, pageCount) && UniqueIds(live) && 0 <= activePage < pageCount && pageCount >= 1
    {
      hide Exact, RequiredPageCount, SoundLayout, FreshFrom, WellFormed, UniqueIds, PagesBelow, NoOwners;
      CacheIsExact();
    }

    /** The live layout becomes the baseline, at the current size. */
    method AdoptLiveAsBaseline()
      requires LiveValid()
      modifies this`base, this`basePageCount, this`savedCols, this`savedRows
      ensures Committed() && Valid() && Determined()
      ensures old(LiveSound()) ==> Sound()
    {
      hide NoOwners, Exact, LayoutOk, RequiredPageCount, SoundLayout, FreshFrom, SameWidgets, ValidRegistry;
      if live == [] { CellsEmpty(occupancy, cols, rows, activePage); }
      SameAsSelf(live);
      ExactSize(occupancy, cols, rows, live, activePage);
      PagesPositive(live, pageCount);
      base := live;
      basePageCount := pageCount;
      savedCols := cols;
      savedRows := rows;
    }

    // ---- Edits ----

    lemma SettledFresh()
      requires Valid() && FreshFrom(live, nextInstanceId)
      ensures FreshFrom(SettledLive(), nextInstanceId)
    {
      hide Exact, Remapped, SoundLayout, RequiredPageCount, FreshFrom, SameWidgets, LayoutFor, PagesFor, WellFormed;
      if remapPending && !Unloaded() {
        LayoutForKeeps(registry, base, basePageCount, Grid());
        PendingFresh(base, live, SettledLive(), nextInstanceId);
      }
    }

    /** One more placement on the active page, marked in the cache. */
    method AppendPlacement(p: Placement)
      requires LiveValid() && LayoutOk(live + [p], pageCount) && p.page == activePage && p.visible && WellFormed(p)
      modifies this`live, this`occupancy
      ensures live == old(live) + [p] && LiveValid()
    {
      hide Exact, LayoutOk, FreshFrom, SoundLayout;
      ExactSize(occupancy, cols, rows, live, activePage);
      live := live + [p];
      MarkOccupied(p);
      MarkedExact(old(occupancy), occupancy, cols, rows, old(live), p, activePage);
    }

    method PlaceWidget(widgetId: string, col: int, row: int, colSpan: int, rowSpan: int) returns (ok: bool)
      requires Valid() && FreshFrom(live, nextInstanceId) && (Unloaded() ==> |occupancy| == cols * rows)
      requires colSpan >= 1 && rowSpan >= 1
      modifies this
      ensures Valid() && !remapPending && (old(Sound() && Roomy()) ==> Sound())
      ensures unchanged(`registry, `cols, `rows, `widgetSelected)
      ensures ok <==> widgetId != "" && CanStand(old(SettledLive()), cols, rows, col, row, colSpan, rowSpan, old(SettledPage()), "")
      ensures activePage == old(SettledPage()) && pageCount == old(SettledCount())
      ensures ok ==> Committed() && nextInstanceId == old(nextInstanceId) + 1
      ensures ok ==> live == old(SettledLive()) + [Placement(InstanceId(widgetId, old(nextInstanceId)), widgetId,
                                                              col, row, colSpan, rowSpan, activePage, true)]
      ensures !ok ==> live == old(SettledLive()) && unchanged(`base, `basePageCount, `nextInstanceId)
      ensures ok || old(Determined()) ==> Determined()
      ensures !ok && (old(savedCols) != 0 || old(Unloaded())) ==> unchanged(`savedCols, `savedRows)
    {
      hide Valid, LiveValid, Sound, Determined, Committed, SettledLive, SettledPage, SettledCount;
      hide Exact, SoundLayout, RequiredPageCount, CanStand, InstanceId, LayoutOk, LayoutSound, FreshFrom, AllWellFormed;
      SettledFresh();
      ApplyPendingRemap();
      if widgetId == "" { return false; }
      SettledIsLive();
      var can := CanPlaceOnPage(col, row, colSpan, rowSpan, activePage, "");
      if !can { return false; }
      var p := Placement(InstanceId(widgetId, nextInstanceId), widgetId, col, row, colSpan, rowSpan, activePage, true);
      PlacingKeeps(live, p, pageCount, cols, rows, nextInstanceId);
      nextInstanceId := nextInstanceId + 1;
      AppendPlacement(p);
      var required := ComputeRequiredPageCount(live);
      PagesPositive(live, pageCount);
      if required > pageCount {
        assert false;
      }
      AdoptLiveAsBaseline();
      return true;
    }

    /** One placement takes another rectangle of its page, and the edit commits. */
    method Reshape(idx: nat, col: int, row: int, colSpan: int, rowSpan: int)
      requires LiveValid() && idx < |live| && colSpan >= 1 && rowSpan >= 1
      requires CanStand(live, cols, rows, col, row, colSpan, rowSpan, live[idx].page, live[idx].instanceId)
      modifies this`live, this`occupancy, this`base, this`basePageCount, this`savedCols, this`savedRows
      ensures live == old(live)[idx := old(live)[idx].(col := col, row := row, colSpan := colSpan, rowSpan := rowSpan)]
      ensures Committed() && Valid() && Determined() && (old(LiveSound()) ==> Sound())
    {
      hide Exact, Determined, Committed, Valid, Sound, CanStand, LayoutOk, LayoutSound;
      ghost var q := live[idx].(col := col, row := row, colSpan := colSpan, rowSpan := rowSpan);
      ReshapingKeeps(live, idx, q, pageCount, cols, rows, nextInstanceId);
      live := live[idx := live[idx].(col := col, row := row)];
      live := live[idx := live[idx].(colSpan := colSpan, rowSpan := rowSpan)];
      assert live == old(live)[idx := q];
      WellFormedOf(live, pageCount);
      RebuildOccupancy();
      AdoptLiveAsBaseline();
    }

    method MoveWidget(instanceId: string, newCol: int, newRow: int) returns (ok: bool)
      requires Valid()
      modifies this
      ensures Valid() && !remapPending && (old(Sound() && Roomy()) ==> Sound())
      ensures unchanged(`registry, `cols, `rows, `widgetSelected, `nextInstanceId)
      ensures activePage == old(SettledPage()) && pageCount == old(SettledCount())
      ensures var was := old(SettledLive());
              ok <==> exists i :: 0 <= i < |was| && was[i].instanceId == instanceId
                        && CanStand(was, cols, rows, newCol, newRow, was[i].colSpan, was[i].rowSpan, was[i].page, instanceId)
      ensures var was := old(SettledLive());
              ok ==> exists i :: 0 <= i < |was| && was[i].instanceId == instanceId
                       && live == was[i := was[i].(col := newCol, row := newRow)]
      ensures ok ==> Committed()
      ensures !ok ==> live == old(SettledLive()) && unchanged(`base, `basePageCount)
      ensures ok || old(Determined()) ==> Determined()
      ensures !ok && (old(savedCols) != 0 || old(Unloaded())) ==> unchanged(`savedCols, `savedRows)
    {
      hide Valid, LiveValid, Sound, Determined, Committed, SettledLive, SettledPage, SettledCount;
      hide Exact, SoundLayout, RequiredPageCount, CanStand, LayoutSound, FreshFrom, PagesBelow;
      ApplyPendingRemap();
      SettledIsLive();
      ghost var was := live;
      var idx := FindPlacement(instanceId);
      if idx < 0 { return false; }
      var p := live[idx];
      OnlyOne(was, idx);
      assert WellFormed(p);
      var can := CanPlaceOnPage(newCol, newRow, p.colSpan, p.rowSpan, p.page, instanceId);
      if !can { return false; }
      Reshape(idx, newCol, newRow, p.colSpan, p.rowSpan);
      assert live == was[idx := was[idx].(col := newCol, row := newRow)];
      return true;
    }

    method ResizeWidget(instanceId: string, newColSpan: int, newRowSpan: int) returns (ok: bool)
      requires Valid() && newColSpan >= 1 && newRowSpan >= 1
      modifies this
      ensures Valid() && !remapPending && (old(Sound() && Roomy()) ==> Sound())
      ensures unchanged(`registry, `cols, `rows, `widgetSelected, `nextInstanceId)
      ensures activePage == old(SettledPage()) && pageCount == old(SettledCount())
      ensures var was := old(SettledLive());
              ok <==> exists i :: 0 <= i < |was| && was[i].instanceId == instanceId
                        && WithinLimits(registry, was[i].widgetId, newColSpan, newRowSpan)
                        && CanStand(was, cols, rows, was[i].col, was[i].row, newColSpan, newRowSpan, was[i].page, instanceId)
      ensures var was := old(SettledLive());
              ok ==> exists i :: 0 <= i < |was| && was[i].instanceId == instanceId
                       && live == was[i := was[i].(colSpan := newColSpan, rowSpan := newRowSpan)]
      ensures ok ==> Committed()
      ensures !ok ==> live == old(SettledLive()) && unchanged(`base, `basePageCount)
      ensures ok || old(Determined()) ==> Determined()
      ensures !ok && (old(savedCols) != 0 || old(Unloaded())) ==> unchanged(`savedCols, `savedRows)
    {
      hide Valid, LiveValid, Sound, Determined, Committed, SettledLive, SettledPage, SettledCount;
      hide Exact, SoundLayout, RequiredPageCount, CanStand, LayoutSound, FreshFrom, PagesBelow;
      ApplyPendingRemap();
      SettledIsLive();
      ghost var was := live;
      var idx := FindPlacement(instanceId);
      if idx < 0 { return false; }
      var p := live[idx];
      OnlyOne(was, idx);
      if !WithinLimits(registry, p.widgetId, newColSpan, newRowSpan) { return false; }
      var can := CanPlaceOnPage(p.col, p.row, newColSpan, newRowSpan, p.page, instanceId);
      if !can { return false; }
      Reshape(idx, p.col, p.row, newColSpan, newRowSpan);
      assert live == was[idx := was[idx].(colSpan := newColSpan, rowSpan := newRowSpan)];
      return true;
    }

    method ResizeWidgetFromEdge(instanceId: string, newCol: int, newRow: int, newColSpan: int, newRowSpan: int) returns (ok: bool)
      requires Valid()
      modifies this
      ensures Valid() && !remapPending && (old(Sound() && Roomy()) ==> Sound())
      ensures unchanged(`registry, `cols, `rows, `widgetSelected, `nextInstanceId)
      ensures activePage == old(SettledPage()) && pageCount == old(SettledCount())
      ensures var was := old(SettledLive());
              ok <==> exists i :: 0 <= i < |was| && was[i].instanceId == instanceId
                        && newColSpan >= 1 && newRowSpan >= 1 && WithinLimits(registry, was[i].widgetId, newColSpan, newRowSpan)
                        && CanStand(was, cols, rows, newCol, newRow, newColSpan, newRowSpan, was[i].page, instanceId)
      ensures var was := old(SettledLive());
              ok ==> exists i :: 0 <= i < |was| && was[i].instanceId == instanceId
                       && live == was[i := was[i].(col := newCol, row := newRow, colSpan := newColSpan, rowSpan := newRowSpan)]
      ensures ok ==> Committed()
      ensures !ok ==> live == old(SettledLive()) && unchanged(`base, `basePageCount)
      ensures ok || old(Determined()) ==> Determined()
      ensures !ok && (old(savedCols) != 0 || old(Unloaded())) ==> unchanged(`savedCols, `savedRows)
    {
      hide Valid, LiveValid, Sound, Determined, Committed, SettledLive, SettledPage, SettledCount;
      hide Exact, SoundLayout, RequiredPageCount, CanStand, LayoutSound, FreshFrom, PagesBelow;
      ApplyPendingRemap();
      SettledIsLive();
      ghost var was := live;
      var idx := FindPlacement(instanceId);
      if idx < 0 { return false; }
      var p := live[idx];
      OnlyOne(was, idx);
      StandingInside(was, cols, rows, newCol, newRow, newColSpan, newRowSpan, p.page, instanceId);
      if newCol < 0 || newRow < 0 { return false; }
      if newCol + newColSpan > cols || newRow + newRowSpan > rows { return false; }
      if newColSpan < 1 || newRowSpan < 1 { return false; }
      if !WithinLimits(registry, p.widgetId, newColSpan, newRowSpan) { return false; }
      var can := CanPlaceOnPage(newCol, newRow, newColSpan, newRowSpan, p.page, instanceId);
      if !can { return false; }
      Reshape(idx, newCol, newRow, newColSpan, newRowSpan);
      return true;
    }

    /** A change of opacity or configuration: the rectangle stays, and the edit commits. */
    method EditAppearance(instanceId: string) returns (committed: bool)
      requires Valid()
      modifies this
      ensures Valid() && !remapPending && (old(Sound() && Roomy()) ==> Sound())
      ensures unchanged(`registry, `cols, `rows, `widgetSelected, `nextInstanceId)
      ensures live == old(SettledLive()) && activePage == old(SettledPage()) && pageCount == old(SettledCount())
      ensures committed <==> exists i :: 0 <= i < |live| && live[i].instanceId == instanceId
      ensures committed ==> Committed()
      ensures !committed ==> unchanged(`base, `basePageCount)
      ensures committed || old(Determined()) ==> Determined()
      ensures !committed && (old(savedCols) != 0 || old(Unloaded())) ==> unchanged(`savedCols, `savedRows)
    {
      hide Valid, LiveValid, Sound, Determined, Committed, SettledLive, SettledPage, SettledCount;
      hide Exact, SoundLayout, RequiredPageCount, LayoutSound, FreshFrom, PagesBelow;
      ApplyPendingRemap();
      SettledIsLive();
      var idx := FindPlacement(instanceId);
      if idx < 0 { return false; }
      AdoptLiveAsBaseline();
      return true;
    }

    /** Singleton widgets stay. */
    method RemoveWidget(instanceId: string) returns (committed: bool)
      requires Valid()
      modifies this
      ensures Valid() && !remapPending && (old(Sound() && Roomy()) ==> Sound())
      ensures unchanged(`registry, `cols, `rows, `widgetSelected, `nextInstanceId)
      ensures activePage == old(SettledPage()) && pageCount == old(SettledCount())
      ensures var was := old(SettledLive());
              committed <==> exists i :: 0 <= i < |was| && was[i].instanceId == instanceId && !IsSingleton(registry, was[i].widgetId)
      ensures var was := old(SettledLive());
              committed ==> exists i :: 0 <= i < |was| && was[i].instanceId == instanceId && live == was[..i] + was[i + 1..]
      ensures committed ==> Committed()
      ensures !committed ==> live == old(SettledLive()) && unchanged(`base, `basePageCount)
      ensures committed || old(Determined()) ==> Determined()
      ensures !committed && (old(savedCols) != 0 || old(Unloaded())) ==> unchanged(`savedCols, `savedRows)
    {
      hide Valid, LiveValid, Sound, Determined, Committed, SettledLive, SettledPage, SettledCount;
      hide Exact, SoundLayout, RequiredPageCount, LayoutSound, FreshFrom, PagesBelow, LayoutOk, AllWellFormed;
      ApplyPendingRemap();
      SettledIsLive();
      ghost var was := live;
      var idx := FindPlacement(instanceId);
      if idx < 0 { return false; }
      OnlyOne(was, idx);
      if IsSingleton(registry, live[idx].widgetId) { return false; }
      RemovingKeeps(live, idx, pageCount, cols, rows, nextInstanceId);
      ReplaceLive(live[..idx] + live[idx + 1..], pageCount, activePage);
      assert live == was[..idx] + was[idx + 1..];
      return true;
    }

    /** A new live layout on new pages, cached and committed. */
    method ReplaceLive(ps: seq<Placement>, count: int, page: int)
      requires LiveShape() && LayoutOk(ps, count) && 0 <= page < count
      modifies this`live, this`occupancy, this`base, this`basePageCount, this`savedCols, this`savedRows,
               this`pageCount, this`activePage
      ensures live == ps && pageCount == count && activePage == page
      ensures Committed() && Valid() && Determined()
      ensures LayoutSound(ps, cols, rows, nextInstanceId) && (widgetSelected ==> cols >= 1) ==> Sound()
    {
      hide Exact, Determined, Committed, Valid, Sound, LayoutOk, LayoutSound;
      WellFormedOf(ps, count);
      live := ps;
      pageCount := count;
      activePage := page;
      RebuildOccupancy();
      AdoptLiveAsBaseline();
    }

    // ---- Pages ----

    method SetActivePage(page: int)
      requires Valid()
      modifies this`activePage, this`occupancy
      ensures activePage == Max(0, Min(page, pageCount - 1))
      ensures Valid() && (old(Sound()) ==> Sound()) && (old(Determined()) ==> Determined())
    {
      hide Exact, LayoutOk, RequiredPageCount, SameWidgets, SoundLayout, FreshFrom, LayoutFor, PagesFor, NoOwners;
      WellFormedOf(live, pageCount);
      if base == [] { SameEmpty(base, live); }
      var target := Max(0, Min(page, pageCount - 1));
      if activePage == target { return; }
      activePage := target;
      RebuildOccupancy();
    }

    /** Pages that hold a singleton are reserved. */
    method PageHasSingleton(page: int) returns (has: bool)
      ensures has <==> page in ReservedPages(registry, live)
    {
      var i := 0;
      while i < |live|
        invariant 0 <= i <= |live|
        invariant forall k :: 0 <= k < i ==> live[k].page != page || !IsSingleton(registry, live[k].widgetId)
      {
        if live[i].page == page && IsSingleton(registry, live[i].widgetId) { return true; }
        i := i + 1;
      }
      return false;
    }

    /** A new empty page before the first reserved page, or at the end. */
    method AddPage()
      requires Valid()
      modifies this
      ensures Valid() && !remapPending && (old(Sound() && Roomy()) ==> Sound()) && Committed() && Determined()
      ensures unchanged(`registry, `cols, `rows, `widgetSelected, `nextInstanceId)
      ensures pageCount == old(SettledCount()) + 1 && activePage == old(SettledPage())
      ensures exists at: nat :: at <= old(SettledCount()) && live == Raised(old(SettledLive()), at)
                && (at < old(SettledCount()) ==> at in ReservedPages(registry, old(SettledLive())))
                && forall page: nat :: page < at ==> page !in ReservedPages(registry, old(SettledLive()))
    {
      hide Valid, LiveValid, Sound, Determined, Committed, SettledLive, SettledPage, SettledCount;
      hide Exact, SoundLayout, RequiredPageCount, LayoutSound, FreshFrom, PagesBelow, LayoutOk, AllWellFormed, ReservedPages, UniqueIds;
      ApplyPendingRemap();
      SettledIsLive();
      ghost var was := live;
      var insertAt := pageCount;
      var page := 0;
      while page < pageCount
        invariant 0 <= page <= pageCount && insertAt == pageCount
        invariant forall q: nat :: q < page ==> q !in ReservedPages(registry, live)
        modifies {}
      {
        var has := PageHasSingleton(page);
        if has {
          insertAt := page;
          break;
        }
        page := page + 1;
      }
      RaisingKeeps(live, insertAt, pageCount, cols, rows, nextInstanceId);
      var raised := RaisePages(live, insertAt);
      ReplaceLive(raised, pageCount + 1, activePage);
      assert live == Raised(was, insertAt);
    }

    /** Neither the first page nor a reserved one can go; later pages move up. */
    method RemovePage(page: int) returns (ok: bool)
      requires Valid()
      modifies this
      ensures Valid() && !remapPending && (old(Sound() && Roomy()) ==> Sound())
      ensures unchanged(`registry, `cols, `rows, `widgetSelected, `nextInstanceId)
      ensures ok <==> 0 < page < old(SettledCount()) && page !in ReservedPages(registry, old(SettledLive()))
      ensures ok ==> Committed() && live == Lowered(WithoutPage(old(SettledLive()), page), page)
                     && pageCount == old(SettledCount()) - 1 && activePage == Min(old(SettledPage()), pageCount - 1)
      ensures !ok ==> live == old(SettledLive()) && unchanged(`base, `basePageCount)
                      && pageCount == old(SettledCount()) && activePage == old(SettledPage())
      ensures ok || old(Determined()) ==> Determined()
      ensures !ok && (old(savedCols) != 0 || old(Unloaded())) ==> unchanged(`savedCols, `savedRows)
    {
      hide Valid, LiveValid, Sound, Determined, Committed, SettledLive, SettledPage, SettledCount;
      hide Exact, SoundLayout, RequiredPageCount, LayoutSound, FreshFrom, PagesBelow, LayoutOk, AllWellFormed, ReservedPages, UniqueIds;
      ApplyPendingRemap();
      SettledIsLive();
      if page <= 0 || page >= pageCount { return false; }
      var has := PageHasSingleton(page);
      if has { return false; }
      var left := RemoveFromPage(live, page, pageCount, cols, rows, nextInstanceId);
      WithoutPageMembers(live, page);
      LoweringKeeps(left, page, pageCount, cols, rows, nextInstanceId);
      var lowered := LowerPages(left, page);
      ReplaceLive(lowered, pageCount - 1, if activePage >= pageCount - 1 then pageCount - 2 else activePage);
      return true;
    }

    method RemoveAllWidgetsOnPage(page: int)
      requires Valid()
      modifies this
      ensures Valid() && !remapPending && (old(Sound() && Roomy()) ==> Sound()) && Committed() && Determined()
      ensures unchanged(`registry, `cols, `rows, `widgetSelected, `nextInstanceId)
      ensures live == WithoutPage(old(SettledLive()), page)
      ensures pageCount == old(SettledCount()) && activePage == old(SettledPage())
    {
      hide Valid, LiveValid, Sound, Determined, Committed, SettledLive, SettledPage, SettledCount;
      hide Exact, SoundLayout, RequiredPageCount, LayoutSound, FreshFrom, PagesBelow, LayoutOk, AllWellFormed, UniqueIds;
      ApplyPendingRemap();
      SettledIsLive();
      var left := RemoveFromPage(live, page, pageCount, cols, rows, nextInstanceId);
      ReplaceLive(left, pageCount, activePage);
    }

    lemma SavedDetermined()
      requires Valid() && savedCols == cols && savedRows == rows
      ensures Determined() <==> remapPending || cols < 1 || (live == base && pageCount == basePageCount)
    {
    }

    lemma ShownBefore(n: nat)
      requires Valid() && Determined() && Shown().ShowsRemap() && RequiredPageCount(live) <= n
      ensures Before(registry, base, basePageCount, live, n, Grid())
    {
      hide Exact, LayoutOk, RequiredPageCount, SameWidgets, Remapped, NoOwners, AllWellFormed;
    }

    lemma ShownDetermined()
      requires Valid() && pageCount == basePageCount
      ensures Shown().ShowsRemap() ==>
                && Grid().Valid() && AllWellFormed(base)
                && (Determined() <==> live == Remapped(registry, base, basePageCount, Grid()))
      ensures !Shown().ShowsRemap() && !(savedCols == cols && savedRows == rows) ==> Determined()
    {
      hide Exact, LayoutOk, RequiredPageCount, SameWidgets, Remapped, NoOwners, AllWellFormed;
      WellFormedOf(base, basePageCount);
      PagesPositive(live, pageCount);
    }

    /** Pages of singletons move to the end of both layouts; never fewer pages than are in use.
        The layout shown is still the baseline's if and only if `StaysAt`. */
    method SetPageCount(wanted: int)
      requires Valid()
      modifies this`live, this`base, this`basePageCount, this`pageCount, this`activePage, this`occupancy
      ensures Valid() && (old(Sound()) ==> Sound())
      ensures wanted < 1 ==> unchanged(this)
      ensures wanted >= 1 ==>
                && pageCount == Max(wanted, RequiredPageCount(old(live))) && basePageCount == pageCount
                && live == MovedToTail(registry, old(live), pageCount) && base == MovedToTail(registry, old(base), pageCount)
                && activePage == Min(old(activePage), pageCount - 1)
      ensures old(Determined()) ==> (Determined() <==> old(StaysAt(Shown(), wanted)))
      ensures old(|occupancy|) == cols * rows ==> |occupancy| == cols * rows
    {
      hide Valid, Determined, Exact, SoundLayout, FreshFrom, MovedToTail, RequiredPageCount, StaysDetermined, Before, Remapped;
      if wanted < 1 { return; }
      if savedCols == cols && savedRows == rows { SavedDetermined(); }
      var required := ComputeRequiredPageCount(live);
      var count := Max(wanted, required);
      if Shown().ShowsRemap() && Determined() {
        ShownBefore(count);
        PageCountKeeps(registry, base, basePageCount, live, count, Grid());
      }
      MovingSound(registry, base, count, savedCols, savedRows);
      MovingSound(registry, live, count, cols, rows);
      MovingFresh(registry, live, count, nextInstanceId);
      MovePages(count);
      if savedCols == cols && savedRows == rows { SavedDetermined(); } else { ShownDetermined(); }
    }

    method MovePages(count: int)
      requires Valid() && count >= 1 && count >= RequiredPageCount(live)
      modifies this`live, this`base, this`basePageCount, this`pageCount, this`activePage, this`occupancy
      ensures Valid() && pageCount == count && basePageCount == count && activePage == Min(old(activePage), pageCount - 1)
      ensures live == MovedToTail(registry, old(live), count) && base == MovedToTail(registry, old(base), count)
      ensures base == [] <==> old(base) == []
      ensures old(|occupancy|) == cols * rows ==> |occupancy| == cols * rows
    {
      hide Valid, MovedToTail, ReservedPages, TailPage, LayoutOk, SameWidgets, RequiredPageCount;
      ValidLayouts();
      MovingKeeps(registry, base, live, basePageCount, pageCount, count);
      var normalized, liveChanged := MoveReservedPagesToTail(registry, live, count);
      var baseMoved, baseChanged := MoveReservedPagesToTail(registry, base, count);
      SetLayouts(normalized, liveChanged, baseMoved, count);
    }

    lemma ValidLayouts()
      requires Valid()
      ensures LayoutOk(live, pageCount) && LayoutOk(base, basePageCount) && SameWidgets(base, live)
      ensures RequiredPageCount(base) <= RequiredPageCount(live)
    {
      hide Exact, LayoutOk, SameWidgets, RequiredPageCount;
    }

    method SetLayouts(newLive: seq<Placement>, liveChanged: bool, newBase: seq<Placement>, count: int)
      requires Valid() && count >= 1 && (!liveChanged ==> newLive == live) && |newBase| == |base|
      requires LayoutOk(newLive, count) && LayoutOk(newBase, count) && SameWidgets(newBase, newLive)
      requires RequiredPageCount(newBase) <= RequiredPageCount(newLive)
      modifies this`live, this`base, this`basePageCount, this`pageCount, this`activePage, this`occupancy
      ensures Valid() && pageCount == count && basePageCount == count && activePage == Min(old(activePage), pageCount - 1)
      ensures live == newLive && base == newBase
      ensures old(|occupancy|) == cols * rows ==> |occupancy| == cols * rows
    {
      hide NoOwners, Exact, RequiredPageCount, SameWidgets, LayoutOk, AllWellFormed, ValidRegistry, CellAt, SizeOk;
      SizeNotNegative();
      if newBase == [] { SameEmpty(newBase, newLive); }
      if liveChanged { live := newLive; }
      base := newBase;
      basePageCount := count;
      WellFormedOf(live, count);
      SetCurrentPageCount(count);
      if liveChanged { RebuildOccupancy(); }
    }

    lemma SizeNotNegative()
      requires Valid()
      ensures cols >= 0 && rows >= 0
    {
      hide LayoutOk, RequiredPageCount, SameWidgets, Exact, NoOwners;
    }

    // ---- Grid size and selection ----

    /** While a widget is selected a new size is only noted; otherwise the layout is made from
        the baseline again. */
    method SetGridDimensions(newCols: int, newRows: int)
      requires Valid() && ((newCols >= 1 && newRows >= 1) || (newCols == cols && newRows == rows))
      modifies this
      ensures Valid() && cols == newCols && rows == newRows
      ensures unchanged(`registry, `base, `basePageCount, `nextInstanceId, `widgetSelected)
      ensures old(cols) == newCols && old(rows) == newRows ==> unchanged(this)
      ensures widgetSelected ==> unchanged(`live, `pageCount, `activePage, `savedCols, `savedRows, `occupancy)
      ensures !widgetSelected && (old(cols) != newCols || old(rows) != newRows) ==> Cached()
      ensures widgetSelected && (old(cols) != newCols || old(rows) != newRows) ==> remapPending
      ensures savedCols == if old(savedCols) == 0 && base != [] && !widgetSelected && (old(cols) != newCols || old(rows) != newRows)
                           then newCols else old(savedCols)
      ensures old(savedCols) != 0 || old(Unloaded()) ==> unchanged(`savedRows)
      ensures !widgetSelected && (old(cols) != newCols || old(rows) != newRows) ==> Determined()
      ensures old(Determined()) ==> Determined()
      ensures old(Sound()) && (widgetSelected || Remappable()) ==> Sound()
      ensures !widgetSelected && Remappable() && (old(cols) != newCols || old(rows) != newRows) && old(FreshFrom(live, nextInstanceId)) ==>
                && (old(savedCols) != 0 && SoundLayout(base, savedCols, savedRows) ==> Sound())
                && (old(savedCols) == 0 && base != [] ==> (Sound() <==> SoundLayout(base, newCols, newRows)))
    {
      hide Valid, Sound, Remappable, Determined, SoundLayout, FreshFrom;
      if newCols == cols && newRows == rows { return; }
      if widgetSelected {
        DeferDimensions(newCols, newRows);
      } else if base == [] && savedCols == 0 {
        StoreDimensions(newCols, newRows);
      } else {
        Relayout(newCols, newRows);
      }
    }

    method DeferDimensions(newCols: int, newRows: int)
      requires Valid() && newCols >= 1 && newRows >= 1 && widgetSelected
      modifies this`cols, this`rows, this`pendingCols, this`pendingRows, this`remapPending
      ensures Valid() && Determined() && cols == newCols && rows == newRows && remapPending
      ensures old(Sound()) ==> Sound()
    {
      hide Exact, LayoutOk, RequiredPageCount, SameWidgets, SoundLayout, FreshFrom, ValidRegistry;
      pendingCols, pendingRows, remapPending := newCols, newRows, true;
      cols, rows := newCols, newRows;
    }

    /** Before anything is loaded there is nothing to lay out. */
    method StoreDimensions(newCols: int, newRows: int)
      requires Valid() && newCols >= 1 && newRows >= 1 && !widgetSelected && base == [] && savedCols == 0
      modifies this`cols, this`rows, this`occupancy
      ensures Valid() && Determined() && Cached() && cols == newCols && rows == newRows
      ensures old(Sound()) ==> Sound()
    {
      hide Exact, LayoutOk, RequiredPageCount, SameWidgets, SoundLayout, FreshFrom, ValidRegistry, CellAt;
      cols, rows := newCols, newRows;
      SameEmpty(base, live);
      EmptySound(cols, rows);
      ClearOccupancy();
      EmptyExact(occupancy, cols, rows, activePage);
    }

    method Relayout(newCols: int, newRows: int)
      requires Valid() && newCols >= 1 && newRows >= 1 && !widgetSelected && (base != [] || savedCols != 0)
      modifies this`cols, this`rows, this`live, this`pageCount, this`activePage, this`occupancy, this`savedCols, this`savedRows
      ensures Valid() && Determined() && Cached() && cols == newCols && rows == newRows
      ensures savedCols == if old(savedCols) == 0 then newCols else old(savedCols)
      ensures savedRows == if old(savedCols) == 0 then newRows else old(savedRows)
      ensures old(Sound()) && Remappable() ==> Sound()
      ensures Remappable() && old(FreshFrom(live, nextInstanceId)) ==>
                && (old(savedCols) != 0 && SoundLayout(base, savedCols, savedRows) ==> Sound())
                && (old(savedCols) == 0 && base != [] ==> (Sound() <==> SoundLayout(base, newCols, newRows)))
    {
      hide Exact, Remapped, SoundLayout, AllWellFormed, LayoutOk, RequiredPageCount, SameWidgets, FreshFrom, ValidRegistry;
      WellFormedOf(live, pageCount);
      WellFormedOf(base, basePageCount);
      cols, rows := newCols, newRows;
      LayoutForKeeps(registry, base, basePageCount, Grid());
      AdoptLayout();
      if base == [] { SameEmpty(base, live); }
      PendingFresh(base, old(live), live, nextInstanceId);
    }

    method SetWidgetSelected(selected: bool)
      requires Valid()
      modifies this
      ensures Valid() && widgetSelected == selected
      ensures old(Sound() && Roomy()) && (selected ==> cols >= 1 && !Unloaded()) ==> Sound()
      ensures unchanged(`registry, `base, `basePageCount, `cols, `rows, `nextInstanceId)
      ensures old(savedCols) != 0 ==> unchanged(`savedCols, `savedRows)
      ensures selected == old(widgetSelected) ==> unchanged(this)
      ensures selected || old(Unloaded()) ==> unchanged(`occupancy, `savedCols, `savedRows)
      ensures selected ==> unchanged(`live, `pageCount, `activePage, `remapPending)
      ensures !selected ==> !remapPending && live == old(SettledLive()) && pageCount == old(SettledCount())
                            && activePage == old(SettledPage())
      ensures old(Determined()) || (old(remapPending) && !selected) ==> Determined()
      ensures !selected && old(widgetSelected) ==> (Cached() <==> !Unloaded() || |old(occupancy)| == cols * rows)
    {
      hide NoOwners, Exact, RequiredPageCount, SoundLayout, FreshFrom, LayoutOk, LayoutFor, PagesFor;
      if widgetSelected == selected { return; }
      if !selected { ApplyPendingRemap(); }
      widgetSelected := selected;
    }

    // ---- Loading ----

    method SetPlacements(placements: seq<Placement>, reg: Option<Registry>)
      requires Valid() && UniqueIds(placements)
      requires reg.Some? ==> ValidRegistry(reg.value)
      requires forall i :: 0 <= i < |placements| ==> WellFormed(placements[i].(page := 0))
      modifies this
      ensures Valid() && unchanged(`cols, `rows, `savedCols, `savedRows, `nextInstanceId, `widgetSelected, `remapPending)
      ensures registry == if reg.Some? then reg.value else old(registry)
      ensures base == live && pageCount == basePageCount == Max(old(pageCount), RequiredPageCount(Clamped(placements)))
      ensures live == MovedToTail(registry, Clamped(placements), pageCount)
      ensures activePage == old(activePage)
    {
      hide Exact, LayoutOk, RequiredPageCount, MovedToTail, SameWidgets, AllWellFormed, WellFormed, Clamped, PagesBelow;
      var known := if reg.Some? then reg.value else registry;
      var clamped := ClampPages(placements);
      ClampedOk(placements, Max(pageCount, RequiredPageCount(clamped)));
      var required := ComputeRequiredPageCount(clamped);
      var adopted := Max(pageCount, required);
      MovingKeeps(known, clamped, clamped, adopted, adopted, adopted);
      var tailed, moved := MoveReservedPagesToTail(known, clamped, adopted);
      Install(known, tailed, adopted);
    }

    /** The same layout live and as baseline, on at least as many pages as before. */
    method Install(reg: Registry, ps: seq<Placement>, count: int)
      requires Valid() && ValidRegistry(reg) && LayoutOk(ps, count) && SameWidgets(ps, ps) && count >= pageCount
      modifies this
      ensures Valid() && unchanged(`cols, `rows, `savedCols, `savedRows, `nextInstanceId, `widgetSelected, `remapPending, `activePage)
      ensures registry == reg && live == ps && base == ps && pageCount == count && basePageCount == count
    {
      hide Exact, LayoutOk, RequiredPageCount, SameWidgets, AllWellFormed;
      registry := reg;
      live := ps;
      base := ps;
      basePageCount := count;
      WellFormedOf(live, count);
      SetCurrentPageCount(count);
      RebuildOccupancy();
    }

    method SetSavedDimensions(newCols: int, newRows: int)
      requires Valid() && (newCols != 0 ==> newCols >= 1 && newRows >= 1)
      requires Unloaded() && !remapPending ==> |occupancy| == cols * rows
      modifies this`savedCols, this`savedRows
      ensures Valid() && savedCols == newCols && savedRows == newRows
    {
      hide Exact, RequiredPageCount, LayoutOk, SameWidgets, NoOwners;
      if !remapPending { CacheIsExact(); }
      savedCols, savedRows := newCols, newRows;
    }

    method SetNextInstanceId(id: nat)
      requires Valid()
      modifies this`nextInstanceId
      ensures Valid() && nextInstanceId == id
    {
      hide Exact, RequiredPageCount, LayoutOk, SameWidgets;
      nextInstanceId := id;
    }
  }

  lemma PendingFresh(base: seq<Placement>, was: seq<Placement>, live: seq<Placement>, next: nat)
    requires SameWidgets(base, was) && SameWidgets(base, live)
    ensures FreshFrom(was, next) ==> FreshFrom(live, next)
  {
    if FreshFrom(was, next) {
      forall i | 0 <= i < |base|
        ensures Kept(base[i], was[i]) && Kept(base[i], live[i])
      {
      }
      assert SameWidgets(was, live);
      SameWidgetsFresh(was, live, next);
    }
  }

  lemma PagesPositive(ps: seq<Placement>, count: int)
    requires LayoutOk(ps, count) && count >= 1
    ensures RequiredPageCount(ps) <= count
  {
    RequiredIsLeast(ps, count);
  }

  lemma ExactSize(cells: seq<string>, cols: int, rows: int, ps: seq<Placement>, page: int)
    requires Exact(cells, cols, rows, ps, page)
    ensures |cells| == cols * rows
  {
  }

  /** Marking an appended placement is as good as rebuilding the cache. */
  lemma MarkedExact(was: seq<string>, cells: seq<string>, cols: int, rows: int, ps: seq<Placement>, p: Placement, page: int)
    requires Exact(was, cols, rows, ps, page) && |cells| == cols * rows && p.visible && p.page == page
    requires forall c, r :: 0 <= c < cols && 0 <= r < rows ==>
               CellAt(cells, cols, c, r) == if Covers(p, c, r) then p.instanceId else CellAt(was, cols, c, r)
    ensures Exact(cells, cols, rows, ps + [p], page)
  {
    hide CellAt, Covers;
    forall c, r | 0 <= c < cols && 0 <= r < rows
      ensures CellAt(cells, cols, c, r) == Owner(ps + [p], page, c, r, |ps + [p]|)
    {
      OwnerPrefix(ps, p, page, c, r, |ps|);
    }
  }

  lemma StandingInside(ps: seq<Placement>, cols: int, rows: int, col: int, row: int, w: int, h: int, page: int, except: string)
    ensures CanStand(ps, cols, rows, col, row, w, h, page, except) ==>
              col >= 0 && row >= 0 && col + w <= cols && row + h <= rows
  {
  }

  /** An id names one placement. */
  lemma OnlyOne(ps: seq<Placement>, idx: nat)
    requires UniqueIds(ps) && idx < |ps|
    ensures forall i :: 0 <= i < |ps| && ps[i].instanceId == ps[idx].instanceId ==> i == idx
  {
  }

  lemma SameAsSelf(ps: seq<Placement>)
    ensures SameWidgets(ps, ps)
  {
  }

  lemma SameEmpty(base: seq<Placement>, live: seq<Placement>)
    requires SameWidgets(base, live) && base == []
    ensures live == []
  {
  }

  lemma EmptySound(cols: int, rows: int)
    ensures SoundLayout([], cols, rows)
  {
  }

  /** A cache of the right size with nothing in it is exact for an empty layout, and the other way round. */
  lemma NoOwnersExact(cells: seq<string>, cols: int, rows: int, page: int)
    requires NoOwners(cells) && |cells| == cols * rows
    ensures Exact(cells, cols, rows, [], page)
  {
    forall c, r | 0 <= c < cols && 0 <= r < rows
      ensures CellAt(cells, cols, c, r) == ""
    {
      IndexInside(cols, rows, c, r);
    }
  }

  lemma CellsEmpty(cells: seq<string>, cols: int, rows: int, page: int)
    requires Exact(cells, cols, rows, [], page) && SizeOk(cols, rows)
    ensures NoOwners(cells)
  {
    forall k | 0 <= k < |cells|
      ensures cells[k] == ""
    {
      var c, r := k % cols, k / cols;
      ProductSign(r - rows, cols);
      assert (r - rows) * cols == r * cols - rows * cols;
      assert CellAt(cells, cols, c, r) == Owner([], page, c, r, 0);
    }
  }

  lemma EmptyExact(cells: seq<string>, cols: int, rows: int, page: int)
    requires |cells| == cols * rows && forall c, r :: 0 <= c < cols && 0 <= r < rows ==> CellAt(cells, cols, c, r) == ""
    ensures Exact(cells, cols, rows, [], page)
  {
  }

  /** Selecting on a model that was never loaded, resizing and deselecting leaves a cache of the
      old size behind. */
  method StaleCache(reg: Registry) returns (m: WidgetGridModel)
    requires ValidRegistry(reg)
    ensures fresh(m) && m.Valid() && !m.widgetSelected && !m.remapPending
    ensures m.cols == 2 && m.rows == 1 && |m.occupancy| == 1 && !m.Cached()
  {
    m := new WidgetGridModel(reg);
    m.SetGridDimensions(1, 1);
    assert |m.occupancy| == 1;
    m.SetWidgetSelected(true);
    m.SetGridDimensions(2, 1);
    m.SetWidgetSelected(false);
  }
}
