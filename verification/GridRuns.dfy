/** Whole runs of a grid model: any sequence of edits, page operations, resizes and selections. */
module GridRuns {
  import opened GridLayout
  import opened GridRemap
  import opened GridState
  import opened GridPages
  import opened InstanceIds
  import opened WidgetGrid

  datatype Action =
    | Place(widgetId: string, col: int, row: int, colSpan: int, rowSpan: int)
    | Move(id: string, col: int, row: int)
    | Resize(id: string, colSpan: int, rowSpan: int)
    | ResizeFromEdge(id: string, col: int, row: int, colSpan: int, rowSpan: int)
    | Restyle(id: string)
    | Remove(id: string)
    | ShowPage(page: int)
    | SetPages(count: int)
    | AddPage
    | RemovePage(page: int)
    | ClearPage(page: int)
    | SetSize(cols: int, rows: int)
    | Select(on: bool)

  /** What callers see to: whole spans and sizes, a selection only on a loaded grid, and no more
      placements than a remap keeps apart when one takes place. */
  predicate Allowed(m: WidgetGridModel, a: Action)
    reads m
  {
    && (if a.SetSize? then m.widgetSelected || m.Remappable() else IsEdit(a) || a.Select? ==> m.Roomy())
    && match a
       case Place(_, _, _, colSpan, rowSpan) => colSpan >= 1 && rowSpan >= 1
       case Resize(_, colSpan, rowSpan) => colSpan >= 1 && rowSpan >= 1
       case SetSize(cols, rows) => cols >= 1 && rows >= 1
       case Select(on) => on ==> m.cols >= 1 && !m.Unloaded()
       case _ => true
  }

  /** Resizes, selections and page turns leave the baseline alone. */
  predicate KeepsBaseline(a: Action) {
    a.SetSize? || a.Select? || a.ShowPage?
  }

  predicate IsEdit(a: Action) {
    a.Place? || a.Move? || a.Resize? || a.ResizeFromEdge? || a.Restyle? || a.Remove? || a.AddPage? || a.RemovePage? || a.ClearPage?
  }

  /** A layout with its page count and the page shown. */
  datatype Page = Page(live: seq<Placement>, count: int, active: int)

  /** What an edit makes of the layout that was there once a deferred remap had taken place:
      whether it commits, and the layout afterwards. */
  ghost predicate Edits(a: Action, reg: Registry, cols: int, rows: int, next: nat, was: Page, committed: bool, now: Page) {
    match a
    case Place(w, col, row, colSpan, rowSpan) =>
      && now.count == was.count && now.active == was.active
      && (committed <==> w != "" && CanStand(was.live, cols, rows, col, row, colSpan, rowSpan, was.active, ""))
      && now.live == if committed then was.live + [Placement(InstanceId(w, next), w, col, row, colSpan, rowSpan, was.active, true)]
                     else was.live
    case Move(id, col, row) =>
      && now.count == was.count && now.active == was.active
      && (committed <==> exists i :: 0 <= i < |was.live| && was.live[i].instanceId == id
                           && CanStand(was.live, cols, rows, col, row, was.live[i].colSpan, was.live[i].rowSpan, was.live[i].page, id))
      && if committed then exists i :: 0 <= i < |was.live| && was.live[i].instanceId == id
                             && now.live == was.live[i := was.live[i].(col := col, row := row)]
         else now.live == was.live
    case Resize(id, colSpan, rowSpan) =>
      && now.count == was.count && now.active == was.active
      && (committed <==> exists i :: 0 <= i < |was.live| && was.live[i].instanceId == id
                           && WithinLimits(reg, was.live[i].widgetId, colSpan, rowSpan)
                           && CanStand(was.live, cols, rows, was.live[i].col, was.live[i].row, colSpan, rowSpan, was.live[i].page, id))
      && if committed then exists i :: 0 <= i < |was.live| && was.live[i].instanceId == id
                             && now.live == was.live[i := was.live[i].(colSpan := colSpan, rowSpan := rowSpan)]
         else now.live == was.live
    case ResizeFromEdge(id, col, row, colSpan, rowSpan) =>
      && now.count == was.count && now.active == was.active
      && (committed <==> exists i :: 0 <= i < |was.live| && was.live[i].instanceId == id
                           && colSpan >= 1 && rowSpan >= 1 && WithinLimits(reg, was.live[i].widgetId, colSpan, rowSpan)
                           && CanStand(was.live, cols, rows, col, row, colSpan, rowSpan, was.live[i].page, id))
      && if committed then exists i :: 0 <= i < |was.live| && was.live[i].instanceId == id
                             && now.live == was.live[i := was.live[i].(col := col, row := row, colSpan := colSpan, rowSpan := rowSpan)]
         else now.live == was.live
    case Restyle(id) =>
      now == was && (committed <==> exists i :: 0 <= i < |was.live| && was.live[i].instanceId == id)
    case Remove(id) =>
      && now.count == was.count && now.active == was.active
      && (committed <==> exists i :: 0 <= i < |was.live| && was.live[i].instanceId == id && !IsSingleton(reg, was.live[i].widgetId))
      && if committed then exists i :: 0 <= i < |was.live| && was.live[i].instanceId == id
                             && now.live == was.live[..i] + was.live[i + 1..]
         else now.live == was.live
    case AddPage =>
      && committed && now.count == was.count + 1 && now.active == was.active
      && exists at: nat :: at <= was.count && now.live == Raised(was.live, at)
           && (at < was.count ==> at in ReservedPages(reg, was.live))
           && forall page: nat :: page < at ==> page !in ReservedPages(reg, was.live)
    case RemovePage(page) =>
      && (committed <==> 0 < page < was.count && page !in ReservedPages(reg, was.live))
      && now == if committed then Page(Lowered(WithoutPage(was.live, page), page), was.count - 1, Min(was.active, was.count - 2))
                else was
    case ClearPage(page) =>
      committed && now == was.(live := WithoutPage(was.live, page))
    case _ => true
  }

  /** The layout a grid model shows. */
  ghost function PageOf(m: WidgetGridModel): Page
    reads m
  {
    Page(m.live, m.pageCount, m.activePage)
  }

  /** The layout it will show once a deferred remap has taken place. */
  ghost function Settled(m: WidgetGridModel): Page
    requires m.Valid()
    reads m
  {
    Page(m.SettledLive(), m.SettledCount(), m.SettledPage())
  }

  /** What every edit promises, besides what it makes of the layout. */
  twostate predicate Performed(m: WidgetGridModel, a: Action, committed: bool)
    requires old(m.Valid())
    reads m
  {
    && m.Valid() && m.Sound() && !m.remapPending
    && m.registry == old(m.registry) && m.cols == old(m.cols) && m.rows == old(m.rows) && m.widgetSelected == old(m.widgetSelected)
    && (committed ==> m.Committed())
    && (!committed ==> m.base == old(m.base) && m.basePageCount == old(m.basePageCount) && m.nextInstanceId == old(m.nextInstanceId)
                       && m.savedCols == old(m.savedCols) && m.savedRows == old(m.savedRows))
    && (committed || old(m.Determined()) ==> m.Determined())
    && Edits(a, m.registry, m.cols, m.rows, old(m.nextInstanceId), old(Settled(m)), committed, PageOf(m))
  }

  method PerformPlace(m: WidgetGridModel, a: Action) returns (committed: bool)
    requires m.Valid() && m.Sound() && Allowed(m, a) && a.Place?
    modifies m
    ensures Performed(m, a, committed)
  {
    hide WidgetGridModel.Valid, WidgetGridModel.Sound, WidgetGridModel.Determined, WidgetGridModel.Committed;
    hide WidgetGridModel.SettledLive, WidgetGridModel.SettledPage, WidgetGridModel.SettledCount, FreshFrom, CanStand;
    hide IsSingleton, InstanceId;
    SoundIsFresh(m);
    committed := m.PlaceWidget(a.widgetId, a.col, a.row, a.colSpan, a.rowSpan);
  }

  method PerformMove(m: WidgetGridModel, a: Action) returns (committed: bool)
    requires m.Valid() && m.Sound() && Allowed(m, a) && a.Move?
    modifies m
    ensures Performed(m, a, committed)
  {
    hide WidgetGridModel.Valid, WidgetGridModel.Sound, WidgetGridModel.Determined, WidgetGridModel.Committed;
    hide WidgetGridModel.SettledLive, WidgetGridModel.SettledPage, WidgetGridModel.SettledCount, FreshFrom, CanStand;
    hide IsSingleton, InstanceId;
    SoundIsFresh(m);
    committed := m.MoveWidget(a.id, a.col, a.row);
  }

  method PerformRestyle(m: WidgetGridModel, a: Action) returns (committed: bool)
    requires m.Valid() && m.Sound() && Allowed(m, a) && a.Restyle?
    modifies m
    ensures Performed(m, a, committed)
  {
    hide WidgetGridModel.Valid, WidgetGridModel.Sound, WidgetGridModel.Determined, WidgetGridModel.Committed;
    hide WidgetGridModel.SettledLive, WidgetGridModel.SettledPage, WidgetGridModel.SettledCount, FreshFrom, CanStand;
    hide IsSingleton, InstanceId;
    SoundIsFresh(m);
    committed := m.EditAppearance(a.id);
  }

  method PerformRemove(m: WidgetGridModel, a: Action) returns (committed: bool)
    requires m.Valid() && m.Sound() && Allowed(m, a) && a.Remove?
    modifies m
    ensures Performed(m, a, committed)
  {
    hide WidgetGridModel.Valid, WidgetGridModel.Sound, WidgetGridModel.Determined, WidgetGridModel.Committed;
    hide WidgetGridModel.SettledLive, WidgetGridModel.SettledPage, WidgetGridModel.SettledCount, FreshFrom, CanStand;
    hide IsSingleton, InstanceId;
    SoundIsFresh(m);
    committed := m.RemoveWidget(a.id);
  }

  method PerformResize(m: WidgetGridModel, a: Action) returns (committed: bool)
    requires m.Valid() && m.Sound() && Allowed(m, a) && (a.Resize? || a.ResizeFromEdge?)
    modifies m
    ensures Performed(m, a, committed)
  {
    hide WidgetGridModel.Valid, WidgetGridModel.Sound, WidgetGridModel.Determined, WidgetGridModel.Committed;
    hide WidgetGridModel.SettledLive, WidgetGridModel.SettledPage, WidgetGridModel.SettledCount, CanStand, WithinLimits;
    SoundIsFresh(m);
    match a
    case Resize(id, colSpan, rowSpan) => committed := m.ResizeWidget(id, colSpan, rowSpan);
    case ResizeFromEdge(id, col, row, colSpan, rowSpan) => committed := m.ResizeWidgetFromEdge(id, col, row, colSpan, rowSpan);
  }

  method PerformPages(m: WidgetGridModel, a: Action) returns (committed: bool)
    requires m.Valid() && m.Sound() && Allowed(m, a) && (a.AddPage? || a.RemovePage? || a.ClearPage?)
    modifies m
    ensures Performed(m, a, committed)
  {
    hide WidgetGridModel.Valid, WidgetGridModel.Sound, WidgetGridModel.Determined, WidgetGridModel.Committed;
    hide WidgetGridModel.SettledLive, WidgetGridModel.SettledPage, WidgetGridModel.SettledCount;
    hide ReservedPages, Raised, Lowered, WithoutPage;
    SoundIsFresh(m);
    committed := true;
    match a
    case AddPage => m.AddPage();
    case RemovePage(page) => committed := m.RemovePage(page);
    case ClearPage(page) => m.RemoveAllWidgetsOnPage(page);
  }

  /** One edit; `committed` is the signal that the baseline changed. */
  method Edit(m: WidgetGridModel, a: Action) returns (committed: bool)
    requires m.Valid() && m.Sound() && Allowed(m, a) && IsEdit(a)
    modifies m
    ensures Performed(m, a, committed)
  {
    hide WidgetGridModel.Valid, WidgetGridModel.Sound, WidgetGridModel.Committed, WidgetGridModel.Determined, Edits, Settled;
    if a.AddPage? || a.RemovePage? || a.ClearPage? {
      committed := PerformPages(m, a);
    } else if a.Resize? || a.ResizeFromEdge? {
      committed := PerformResize(m, a);
    } else if a.Place? {
      committed := PerformPlace(m, a);
    } else if a.Move? {
      committed := PerformMove(m, a);
    } else if a.Restyle? {
      committed := PerformRestyle(m, a);
    } else {
      committed := PerformRemove(m, a);
    }
  }

  /** What an action may do to the two layouts. */
  ghost predicate Follows(v: View, a: Action, w: View) {
    && w.registry == v.registry
    && (KeepsBaseline(a) ==> w.base == v.base && w.baseCount == v.baseCount)
    && (a.SetPages? ==> w == if a.count < 1 then v else Repaged(v, Max(a.count, RequiredPageCount(v.live))))
    && (IsEdit(a) ==> !w.pending && w.grid.cols == v.grid.cols && w.grid.rows == v.grid.rows
                      && if w.base == v.base then true else IsCommitted(w))
  }

  ghost function Repaged(v: View, n: nat): View {
    v.(base := MovedToTail(v.registry, v.base, n), live := MovedToTail(v.registry, v.live, n), baseCount := n, count := n)
  }

  ghost predicate IsCommitted(w: View) {
    w.base == w.live && w.baseCount == w.count && w.grid.savedCols == w.grid.cols && w.grid.savedRows == w.grid.rows
  }

  method Perform(m: WidgetGridModel, a: Action)
    requires m.Valid() && m.Sound() && Allowed(m, a)
    modifies m
    ensures m.Valid() && m.Sound() && m.registry == old(m.registry) && Follows(old(m.Shown()), a, m.Shown())
    ensures KeepsBaseline(a) && old(m.savedCols) != 0 ==> m.savedCols == old(m.savedCols) && m.savedRows == old(m.savedRows)
    ensures old(m.Determined()) && (a.SetPages? ==> old(StaysAt(m.Shown(), a.count))) ==> m.Determined()
  {
    hide WidgetGridModel.Valid, WidgetGridModel.Sound, WidgetGridModel.Determined;
    hide WidgetGridModel.SettledLive, WidgetGridModel.SettledPage, WidgetGridModel.SettledCount;
    hide FreshFrom, SoundLayout, MovedToTail, RequiredPageCount, StaysAt;
    if a.ShowPage? {
      m.SetActivePage(a.page);
    } else if a.SetSize? {
      m.SetGridDimensions(a.cols, a.rows);
    } else if a.Select? {
      m.SetWidgetSelected(a.on);
    } else if a.SetPages? {
      m.SetPageCount(a.count);
    } else {
      var committed := Edit(m, a);
    }
  }

  lemma SoundIsFresh(m: WidgetGridModel)
    requires m.Sound()
    ensures FreshFrom(m.live, m.nextInstanceId) && (m.Unloaded() ==> |m.occupancy| == m.cols * m.rows)
    ensures m.savedCols != 0 || m.Unloaded()
  {
  }

  ghost predicate NoSingletons(reg: Registry) {
    forall w :: !IsSingleton(reg, w)
  }

  /** `views` are the layouts before each action and at the end; an action that breaks a caller's
      duty is skipped. */
  ghost predicate History(actions: seq<Action>, views: seq<View>) {
    && |views| == |actions| + 1
    && forall k :: 0 <= k < |actions| ==> views[k + 1] == views[k] || Follows(views[k], actions[k], views[k + 1])
  }

  /** No new page count takes the shown layout away from its baseline. */
  ghost predicate PagesStay(actions: seq<Action>, views: seq<View>)
    requires |views| == |actions| + 1
  {
    forall k :: 0 <= k < |actions| && actions[k].SetPages? ==> StaysAt(views[k], actions[k].count)
  }

  lemma NoSingletonsStay(reg: Registry, actions: seq<Action>, views: seq<View>)
    requires NoSingletons(reg) && |views| == |actions| + 1
    requires forall k :: 0 <= k < |views| ==>
               views[k].registry == reg && (views[k].ShowsRemap() ==> views[k].grid.Valid()) && |views[k].live| == |views[k].base|
    ensures PagesStay(actions, views)
  {
    forall k | 0 <= k < |actions|
      ensures ReservedPages(views[k].registry, views[k].base) == {}
    {
    }
  }

  lemma ShapeOfView(m: WidgetGridModel)
    requires m.Valid()
    ensures var v := m.Shown(); (v.ShowsRemap() ==> v.grid.Valid()) && |v.live| == |v.base|
  {
  }

  /** Any run keeps the model sound. On every run that starts from the layout the baseline has at
      its size, without singletons or with page counts that let it stay, whatever is shown at the
      end is the layout the baseline of the end has at the size of the end. A run of resizes,
      selections and page turns keeps the baseline, and shows it again at the saved size. */
  method Run(m: WidgetGridModel, actions: seq<Action>) returns (ghost views: seq<View>)
    requires m.Valid() && m.Sound()
    modifies m
    ensures m.Valid() && m.Sound() && m.registry == old(m.registry)
    ensures !m.remapPending ==>
              SoundLayout(m.live, m.cols, m.rows) && UniqueIds(m.live) && Exact(m.occupancy, m.cols, m.rows, m.live, m.activePage)
    ensures 0 <= m.activePage < m.pageCount && PagesBelow(m.live, m.pageCount) && PagesBelow(m.base, m.basePageCount)
    ensures History(actions, views) && views[0] == old(m.Shown()) && views[|actions|] == m.Shown()
    ensures old(m.Determined()) && (PagesStay(actions, views) || NoSingletons(m.registry)) ==> m.Determined()
    ensures old(m.Determined()) && (PagesStay(actions, views) || NoSingletons(m.registry))
            && !m.remapPending && m.cols >= 1 && m.savedCols != 0 ==>
              && m.live == LayoutFor(m.registry, m.base, m.basePageCount, m.Grid())
              && m.pageCount == PagesFor(m.registry, m.base, m.basePageCount, m.Grid())
              && (m.cols == m.savedCols && m.rows == m.savedRows ==> m.live == m.base && m.pageCount == m.basePageCount)
    ensures (forall a :: a in actions ==> KeepsBaseline(a)) ==>
              && m.base == old(m.base) && m.basePageCount == old(m.basePageCount)
              && (old(m.savedCols) != 0 ==> m.savedCols == old(m.savedCols) && m.savedRows == old(m.savedRows))
              && (old(m.Determined()) ==> m.Determined())
  {
    hide Follows, StaysAt, NoSingletons;
    views := RunSteps(m, actions);
    if NoSingletons(m.registry) { NoSingletonsStay(m.registry, actions, views); }
    if forall a :: a in actions ==> KeepsBaseline(a) { QuietRun(actions, views); }
  }

  lemma {:induction false} QuietRun(actions: seq<Action>, views: seq<View>)
    requires History(actions, views) && forall a :: a in actions ==> KeepsBaseline(a)
    ensures views[0].base == views[|actions|].base && views[0].baseCount == views[|actions|].baseCount
    ensures PagesStay(actions, views)
  {
    if actions != [] {
      var n := |actions| - 1;
      assert actions[n] in actions;
      QuietRun(actions[..n], views[..n + 1]);
    }
  }

  method RunSteps(m: WidgetGridModel, actions: seq<Action>) returns (ghost views: seq<View>)
    requires m.Valid() && m.Sound()
    modifies m
    ensures m.Valid() && m.Sound()
    ensures History(actions, views) && views[0] == old(m.Shown()) && views[|actions|] == m.Shown()
    ensures forall k :: 0 <= k < |views| ==>
              && views[k].registry == m.registry && (views[k].ShowsRemap() ==> views[k].grid.Valid())
              && |views[k].live| == |views[k].base|
    ensures old(m.Determined()) && PagesStay(actions, views) ==> m.Determined()
    ensures old(m.savedCols) != 0 && (forall a :: a in actions ==> KeepsBaseline(a)) ==>
              m.savedCols == old(m.savedCols) && m.savedRows == old(m.savedRows)
  {
    hide WidgetGridModel.Valid, WidgetGridModel.Sound, WidgetGridModel.Determined, Follows, StaysAt, Allowed;
    views := [m.Shown()];
    ShapeOfView(m);
    var k := 0;
    while k < |actions|
      invariant 0 <= k <= |actions| && m.Valid() && m.Sound() && m.registry == old(m.registry)
      invariant |views| == k + 1 && views[0] == old(m.Shown()) && views[k] == m.Shown()
      invariant forall j :: 0 <= j < k ==> views[j + 1] == views[j] || Follows(views[j], actions[j], views[j + 1])
      invariant forall j :: 0 <= j <= k ==>
                  && views[j].registry == m.registry && (views[j].ShowsRemap() ==> views[j].grid.Valid())
                  && |views[j].live| == |views[j].base|
      invariant old(m.Determined()) && (forall j :: 0 <= j < k && actions[j].SetPages? ==> StaysAt(views[j], actions[j].count)) ==>
                  m.Determined()
      invariant old(m.savedCols) != 0 && (forall a :: a in actions ==> KeepsBaseline(a)) ==>
                  m.savedCols == old(m.savedCols) && m.savedRows == old(m.savedRows)
    {
      assert actions[k] in actions;
      if Allowed(m, actions[k]) { Perform(m, actions[k]); }
      ShapeOfView(m);
      views := views + [m.Shown()];
      k := k + 1;
    }
  }
}
