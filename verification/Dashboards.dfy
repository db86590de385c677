/** Several dashboards, one grid model each, that share one persisted coordinate system. */
module Dashboards {
  import opened GridLayout
  import opened GridPages
  import opened GridRemap
  import opened GridRuns
  import opened GridState
  import opened InstanceIds
  import opened Results
  import opened Sizes
  import opened WidgetGrid

  const MAX_DASHBOARDS := 8

  datatype Entry = Entry(id: string, name: string, model: WidgetGridModel)

  /** A dashboard as the configuration holds it. */
  datatype Stored = Stored(id: string, name: string, nextInstanceId: nat, pageCount: int, placements: seq<Placement>)

  /** The dashboards' part of the configuration in memory. */
  class Configuration {
    var dashboards: seq<Stored>
    var activeDashboardId: string
    var savedCols: int
    var savedRows: int

    constructor ()
      ensures dashboards == []
    {
      dashboards, activeDashboardId, savedCols, savedRows := [], "", 0, 0;
    }
  }

  /** An index wrapped around a list of n. */
  function Wrapped(k: nat, n: nat): (r: nat)
    requires 0 < n && k < 2 * n
    ensures r == if k < n then k else k - n
  {
    k % n
  }

  function Without(entries: seq<Entry>, idx: nat): (left: seq<Entry>)
    requires idx < |entries|
    ensures |left| == |entries| - 1
    ensures forall i :: 0 <= i < |left| ==> left[i] == entries[if i < idx then i else i + 1]
  {
    entries[..idx] + entries[idx + 1..]
  }

  ghost function ModelsOf(es: seq<Entry>): set<WidgetGridModel> {
    set i | 0 <= i < |es| :: es[i].model
  }

  function IdsOf(es: seq<Entry>): set<string> {
    set i | 0 <= i < |es| :: es[i].id
  }

  /** No two dashboards share an id or a model. */
  ghost predicate Distinct(es: seq<Entry>) {
    forall i, j :: 0 <= i < j < |es| ==> es[i].model != es[j].model && es[i].id != es[j].id
  }

  ghost predicate EachSound(es: seq<Entry>)
    reads ModelsOf(es)
  {
    forall i :: 0 <= i < |es| ==> es[i].model.Valid() && es[i].model.Sound()
  }

  ghost predicate EachAt(es: seq<Entry>, cols: int, rows: int)
    reads ModelsOf(es)
  {
    forall i :: 0 <= i < |es| ==> es[i].model.cols == cols && es[i].model.rows == rows
  }

  ghost predicate EachSavedAt(es: seq<Entry>, cols: int, rows: int)
    reads ModelsOf(es)
  {
    forall i :: 0 <= i < |es| ==> es[i].model.savedCols == cols && es[i].model.savedRows == rows
  }

  ghost predicate NothingSelected(es: seq<Entry>)
    reads ModelsOf(es)
  {
    forall i :: 0 <= i < |es| ==> !es[i].model.widgetSelected && !es[i].model.remapPending
  }

  /** The same layout on the same page, and as selected as before. */
  twostate predicate ShowsSame(m: WidgetGridModel)
    reads m
  {
    PageOf(m) == old(PageOf(m)) && m.registry == old(m.registry) && m.widgetSelected == old(m.widgetSelected)
  }

  ghost predicate SameGrid(m: WidgetGridModel, n: WidgetGridModel)
    reads m, n
  {
    m.cols == n.cols && m.rows == n.rows
  }

  /** While no model changes, neither does what is known of them. */
  twostate lemma Framed(es: seq<Entry>)
    requires forall i :: 0 <= i < |es| ==> unchanged(es[i].model)
    ensures old(EachSound(es)) ==> EachSound(es)
    ensures old(NothingSelected(es)) ==> NothingSelected(es)
    ensures forall cols, rows :: old(EachAt(es, cols, rows)) ==> EachAt(es, cols, rows)
    ensures forall cols, rows :: old(EachSavedAt(es, cols, rows)) ==> EachSavedAt(es, cols, rows)
  {
    hide WidgetGridModel.Valid, WidgetGridModel.Sound;
    forall i | 0 <= i < |es|
      ensures old(es[i].model.Valid() && es[i].model.Sound()) ==> es[i].model.Valid() && es[i].model.Sound()
    {
    }
  }

  ghost predicate SameSaved(m: WidgetGridModel, n: WidgetGridModel)
    reads m, n
  {
    m.savedCols == n.savedCols && m.savedRows == n.savedRows
  }

  // ---- One dashboard less ----

  lemma WithoutKeeps(es: seq<Entry>, idx: nat)
    requires idx < |es|
    ensures Distinct(es) ==> Distinct(Without(es, idx))
    ensures EachSound(es) ==> EachSound(Without(es, idx))
    ensures NothingSelected(es) ==> NothingSelected(Without(es, idx))
  {
    hide WidgetGridModel.Valid, WidgetGridModel.Sound;
  }

  lemma WithoutKeepsSizes(es: seq<Entry>, idx: nat, cols: int, rows: int)
    requires idx < |es|
    ensures EachAt(es, cols, rows) ==> EachAt(Without(es, idx), cols, rows)
    ensures EachSavedAt(es, cols, rows) ==> EachSavedAt(Without(es, idx), cols, rows)
  {
  }

  lemma IdsDiffer(es: seq<Entry>, idx: nat)
    requires Distinct(es) && idx < |es|
    ensures forall i :: 0 <= i < |es| && i != idx ==> es[i].id != es[idx].id
  {
  }

  // ---- One more, and a new name ----

  lemma WithKeeps(es: seq<Entry>, e: Entry)
    requires e.id !in IdsOf(es) && e.model !in ModelsOf(es)
    ensures Distinct(es) ==> Distinct(es + [e])
    ensures EachSound(es) && e.model.Valid() && e.model.Sound() ==> EachSound(es + [e])
  {
    hide WidgetGridModel.Valid, WidgetGridModel.Sound;
    assert forall i :: 0 <= i < |es| ==> es[i].id in IdsOf(es) && es[i].model in ModelsOf(es);
  }

  lemma WithKeepsSizes(es: seq<Entry>, e: Entry, cols: int, rows: int, savedCols: int, savedRows: int)
    requires e.model.cols == cols && e.model.rows == rows && e.model.savedCols == savedCols && e.model.savedRows == savedRows
    ensures EachAt(es, cols, rows) ==> EachAt(es + [e], cols, rows)
    ensures EachSavedAt(es, savedCols, savedRows) ==> EachSavedAt(es + [e], savedCols, savedRows)
  {
  }

  lemma NamingKeeps(es: seq<Entry>, idx: nat, name: string, cols: int, rows: int)
    requires idx < |es|
    ensures var named := es[idx := es[idx].(name := name)];
            && (Distinct(es) ==> Distinct(named)) && (EachSound(es) ==> EachSound(named))
            && (EachAt(es, cols, rows) ==> EachAt(named, cols, rows))
            && (EachSavedAt(es, cols, rows) ==> EachSavedAt(named, cols, rows))
  {
    hide WidgetGridModel.Valid, WidgetGridModel.Sound;
  }

  /** The base id, or with the least suffix from 2 on that no dashboard has. */
  ghost predicate IsFreshId(id: string, baseId: string, taken: set<string>) {
    && id !in taken
    && (id == baseId
        || (baseId in taken
            && exists n: nat :: n >= 2 && id == InstanceId(baseId, n)
                                && forall k: nat :: 2 <= k < n ==> InstanceId(baseId, k) in taken))
  }

  class DashboardManager {
    var registry: Registry
    var entries: seq<Entry>
    var active: int
    var committingBaseline: bool
    const config: Configuration

    /** Dashboards that are loaded and laid out at one size, nothing selected yet. */
    constructor (reg: Registry, loaded: seq<Entry>, restored: int, configuration: Configuration)
      requires ValidRegistry(reg) && -1 <= restored < |loaded| && loaded != []
      requires forall i, j :: 0 <= i < j < |loaded| ==> loaded[i].model != loaded[j].model && loaded[i].id != loaded[j].id
      requires forall i :: 0 <= i < |loaded| ==>
                 && loaded[i].model.Valid() && loaded[i].model.Sound() && !loaded[i].model.widgetSelected
                 && loaded[i].model.cols == loaded[0].model.cols && loaded[i].model.rows == loaded[0].model.rows
      ensures Valid() && entries == loaded && config == configuration && registry == reg
      ensures active == if restored >= 0 then restored else 0
      ensures (exists cols, rows :: EachSavedAt(loaded, cols, rows)) ==> CommonSize()
    {
      hide WidgetGridModel.Valid, WidgetGridModel.Sound;
      registry, entries, config := reg, loaded, configuration;
      active := if restored >= 0 then restored else 0;
      committingBaseline := false;
    }

    ghost function Models(): set<WidgetGridModel>
      reads this
    {
      ModelsOf(entries)
    }

    function Ids(): set<string>
      reads this
    {
      IdsOf(entries)
    }

    /** Distinct dashboards, each with its own sound model. */
    ghost predicate Loaded()
      reads this, Models()
    {
      ValidRegistry(registry) && 0 <= active < |entries| && !committingBaseline && Distinct(entries) && EachSound(entries)
    }

    /** Only the active dashboard may have a selected widget. */
    ghost predicate OnlyActiveSelected()
      requires 0 <= active < |entries|
      reads this, Models()
    {
      forall i :: 0 <= i < |entries| && i != active ==> !entries[i].model.widgetSelected
    }

    ghost predicate Valid()
      reads this, Models()
    {
      Loaded() && OnlyActiveSelected() && EachAt(entries, entries[active].model.cols, entries[active].model.rows)
    }

    /** Every dashboard shows its baseline, at one size, and the configuration holds exactly that. */
    ghost predicate Shared(cols: int, rows: int)
      reads this, Models()
    {
      EachAt(entries, cols, rows) && forall i :: 0 <= i < |entries| ==> entries[i].model.Committed()
    }

    /** The configuration holds every dashboard's baseline. */
    ghost predicate Saved()
      requires 0 <= active < |entries|
      reads this, Models(), config
    {
      && |config.dashboards| == |entries| && config.activeDashboardId == entries[active].id
      && config.savedCols == entries[active].model.savedCols && config.savedRows == entries[active].model.savedRows
      && forall i :: 0 <= i < |entries| ==>
           config.dashboards[i] == Stored(entries[i].id, entries[i].name, entries[i].model.nextInstanceId,
                               entries[i].model.basePageCount, entries[i].model.base)
    }

    /** Every baseline was laid out for the same size. */
    ghost predicate CommonSize()
      requires 0 <= active < |entries|
      reads this, Models()
    {
      EachSavedAt(entries, entries[active].model.savedCols, entries[active].model.savedRows)
    }

    /** Every saved placement stands in the saved grid, apart from the others of its page. */
    ghost predicate SavedSound()
      reads config
    {
      forall i :: 0 <= i < |config.dashboards| ==>
        SoundLayout(config.dashboards[i].placements, config.savedCols, config.savedRows)
    }

    /** A save is sound if and only if every visible placement is inside the grid of the saved size:
        what each dashboard shows is disjoint at any size. */
    lemma SavedSoundExactly()
      requires 0 <= active < |entries| && EachSound(entries) && Saved()
      ensures SavedSound() <==>
              forall i, j :: 0 <= i < |entries| && 0 <= j < |entries[i].model.base| ==>
                InGrid(entries[i].model.base[j], config.savedCols, config.savedRows)
    {
      hide WidgetGridModel.Valid, FreshFrom, InGrid, Apart;
      assert forall i :: 0 <= i < |entries| ==> entries[i].model.Sound() && config.dashboards[i].placements == entries[i].model.base;
    }

    lemma SavesAreSound()
      requires 0 <= active < |entries| && EachSound(entries) && CommonSize() && Saved()
      ensures SavedSound()
    {
      hide WidgetGridModel.Valid, SoundLayout, FreshFrom;
      forall i | 0 <= i < |config.dashboards|
        ensures SoundLayout(config.dashboards[i].placements, config.savedCols, config.savedRows)
      {
        assert entries[i].model.Sound();
      }
    }

    method IndexOf(id: string) returns (idx: int)
      ensures -1 <= idx < |entries|
      ensures idx >= 0 ==> entries[idx].id == id
      ensures idx < 0 ==> forall i :: 0 <= i < |entries| ==> entries[i].id != id
    {
      var i := 0;
      while i < |entries|
        invariant 0 <= i <= |entries| && forall k :: 0 <= k < i ==> entries[k].id != id
      {
        if entries[i].id == id { return i; }
        i := i + 1;
      }
      return -1;
    }

    // ---- Saving ----

    method SaveAll()
      requires 0 <= active < |entries|
      modifies config
      ensures Saved() && (EachSound(entries) && CommonSize() ==> SavedSound())
      ensures old(Valid()) ==> Valid()
      ensures old(CommonSize()) ==> CommonSize()
      ensures old(NothingSelected(entries)) ==> NothingSelected(entries)
    {
      hide WidgetGridModel.Valid, WidgetGridModel.Sound, SoundLayout;
      config.dashboards := [];
      var i := 0;
      while i < |entries|
        invariant 0 <= i <= |entries| && |config.dashboards| == i
        invariant forall k :: 0 <= k < i ==>
                    config.dashboards[k] == Stored(entries[k].id, entries[k].name, entries[k].model.nextInstanceId,
                                        entries[k].model.basePageCount, entries[k].model.base)
        modifies config`dashboards
      {
        var e := entries[i];
        config.dashboards := config.dashboards + [Stored(e.id, e.name, e.model.nextInstanceId, e.model.basePageCount, e.model.base)];
        i := i + 1;
      }
      config.activeDashboardId := entries[active].id;
      config.savedCols, config.savedRows := entries[active].model.savedCols, entries[active].model.savedRows;
      Framed(entries);
      if EachSound(entries) && CommonSize() { SavesAreSound(); }
    }

    /** Every dashboard not yet at the size is laid out for it. */
    method ResizeOthers(keep: nat, cols: int, rows: int)
      requires 0 <= active < |entries| && Distinct(entries) && EachSound(entries) && OnlyActiveSelected() && keep == active
      requires entries[keep].model.cols == cols && entries[keep].model.rows == rows && !entries[keep].model.remapPending
      requires forall i :: 0 <= i < |entries| && (entries[i].model.cols != cols || entries[i].model.rows != rows) ==>
                 cols >= 1 && entries[i].model.Remappable()
      modifies Models()
      ensures EachSound(entries) && OnlyActiveSelected() && EachAt(entries, cols, rows)
      ensures forall i :: 0 <= i < |entries| ==> !entries[i].model.remapPending
      ensures forall i :: 0 <= i < |entries| && old(entries[i].model.cols == cols && entries[i].model.rows == rows) ==>
                unchanged(entries[i].model)
    {
      hide WidgetGridModel.Valid, WidgetGridModel.Sound, WidgetGridModel.Determined;
      var i := 0;
      while i < |entries|
        invariant 0 <= i <= |entries|
        invariant forall j :: 0 <= j < |entries| ==> entries[j].model.Valid() && entries[j].model.Sound()
        invariant forall j :: 0 <= j < |entries| && j != keep ==> !entries[j].model.widgetSelected
        invariant forall j :: 0 <= j < i ==>
                    entries[j].model.cols == cols && entries[j].model.rows == rows && !entries[j].model.remapPending
        invariant forall j :: i <= j < |entries| ==>
                    && entries[j].model.cols == old(entries[j].model.cols) && entries[j].model.rows == old(entries[j].model.rows)
                    && entries[j].model.base == old(entries[j].model.base)
        invariant forall j :: 0 <= j < |entries| && old(entries[j].model.cols == cols && entries[j].model.rows == rows) ==>
                    unchanged(entries[j].model)
        modifies Models()
      {
        var m := entries[i].model;
        Idle(m);
        if m.cols != cols || m.rows != rows {
          SizesPositive(entries[keep].model);
          m.SetGridDimensions(cols, rows);
          Idle(m);
        }
        i := i + 1;
      }
    }

    method AdoptAll()
      requires 0 <= active < |entries| && Distinct(entries) && EachSound(entries) && OnlyActiveSelected()
      requires forall i :: 0 <= i < |entries| ==> !entries[i].model.remapPending
      modifies Models()
      ensures EachSound(entries) && OnlyActiveSelected()
      ensures forall i :: 0 <= i < |entries| ==> entries[i].model.Committed()
      ensures forall i :: 0 <= i < |entries| ==>
                && entries[i].model.cols == old(entries[i].model.cols) && entries[i].model.rows == old(entries[i].model.rows)
                && ShowsSame(entries[i].model)
    {
      hide WidgetGridModel.Valid, WidgetGridModel.Sound, WidgetGridModel.Determined, WidgetGridModel.Committed;
      hide WidgetGridModel.LiveValid, WidgetGridModel.LiveSound;
      var i := 0;
      while i < |entries|
        invariant 0 <= i <= |entries|
        invariant forall j :: 0 <= j < |entries| ==> entries[j].model.Valid() && entries[j].model.Sound()
        invariant forall j :: 0 <= j < i ==> entries[j].model.Committed()
        invariant forall j :: 0 <= j < |entries| ==>
                    && entries[j].model.cols == old(entries[j].model.cols) && entries[j].model.rows == old(entries[j].model.rows)
                    && ShowsSame(entries[j].model)
                    && !entries[j].model.remapPending
        modifies Models()
      {
        var m := entries[i].model;
        m.SettledIsLive();
        m.AdoptLiveAsBaseline();
        i := i + 1;
      }
    }

    /** One dashboard's baseline changed: every dashboard adopts its live layout at that size
        before anything is saved. */
    method CommitSharedBaseline(changed: nat)
      requires Loaded() && OnlyActiveSelected() && changed == active && !entries[changed].model.remapPending
      requires forall i :: 0 <= i < |entries| ==>
                 (entries[i].model.cols != entries[changed].model.cols || entries[i].model.rows != entries[changed].model.rows) ==>
                   entries[changed].model.cols >= 1 && entries[i].model.Remappable()
      modifies this`committingBaseline, config, Models()
      ensures Valid() && Saved() && Shared(entries[changed].model.cols, entries[changed].model.rows) && CommonSize() && SavedSound()
      ensures entries[changed].model.cols == old(entries[changed].model.cols)
      ensures entries[changed].model.rows == old(entries[changed].model.rows)
      ensures forall i :: 0 <= i < |entries| && old(SameGrid(entries[i].model, entries[changed].model)) ==>
                ShowsSame(entries[i].model)
    {
      hide WidgetGridModel.Valid, WidgetGridModel.Sound, WidgetGridModel.Committed, WidgetGridModel.Determined, Distinct, SavedSound;
      committingBaseline := true;
      AdoptAndSave(changed, entries[changed].model.cols, entries[changed].model.rows);
      committingBaseline := false;
    }

    method AdoptAndSave(keep: nat, cols: int, rows: int)
      requires 0 <= active < |entries| && Distinct(entries) && EachSound(entries) && OnlyActiveSelected() && keep == active
      requires entries[keep].model.cols == cols && entries[keep].model.rows == rows && !entries[keep].model.remapPending
      requires forall i :: 0 <= i < |entries| && (entries[i].model.cols != cols || entries[i].model.rows != rows) ==>
                 cols >= 1 && entries[i].model.Remappable()
      modifies config, Models()
      ensures EachSound(entries) && OnlyActiveSelected() && Shared(cols, rows) && Saved() && CommonSize() && SavedSound()
      ensures forall i :: 0 <= i < |entries| && old(entries[i].model.cols == cols && entries[i].model.rows == rows) ==>
                ShowsSame(entries[i].model)
    {
      hide WidgetGridModel.Valid, WidgetGridModel.Sound, WidgetGridModel.Committed, WidgetGridModel.Determined, Distinct, SoundLayout;
      AdoptAllAt(keep, cols, rows);
      SharedSize(cols, rows);
      SaveAll();
    }

    method AdoptAllAt(keep: nat, cols: int, rows: int)
      requires 0 <= active < |entries| && Distinct(entries) && EachSound(entries) && OnlyActiveSelected() && keep == active
      requires entries[keep].model.cols == cols && entries[keep].model.rows == rows && !entries[keep].model.remapPending
      requires forall i :: 0 <= i < |entries| && (entries[i].model.cols != cols || entries[i].model.rows != rows) ==>
                 cols >= 1 && entries[i].model.Remappable()
      modifies Models()
      ensures EachSound(entries) && OnlyActiveSelected() && Shared(cols, rows)
      ensures forall i :: 0 <= i < |entries| && old(entries[i].model.cols == cols && entries[i].model.rows == rows) ==>
                ShowsSame(entries[i].model)
    {
      hide WidgetGridModel.Valid, WidgetGridModel.Sound, WidgetGridModel.Committed, WidgetGridModel.Determined;
      ResizeOthers(keep, cols, rows);
      AdoptAll();
    }

    // ---- What users do ----

    lemma SharedSize(cols: int, rows: int)
      requires 0 <= active < |entries| && Shared(cols, rows)
      ensures CommonSize()
    {
    }

    /** An edit of the active dashboard. The other dashboards show what they showed. Once it
        commits, all dashboards show their baselines at one size and exactly that is saved. */
    method EditActive(a: Action) returns (committed: bool)
      requires Valid() && IsEdit(a) && Allowed(entries[active].model, a)
      modifies this`committingBaseline, config, Models()
      ensures Valid() && entries[active].model.cols == old(entries[active].model.cols)
      ensures entries[active].model.rows == old(entries[active].model.rows) && !entries[active].model.remapPending
      ensures Edits(a, entries[active].model.registry, entries[active].model.cols, entries[active].model.rows,
                    old(entries[active].model.nextInstanceId), old(Settled(entries[active].model)), committed,
                    PageOf(entries[active].model))
      ensures forall i :: 0 <= i < |entries| && i != active ==> ShowsSame(entries[i].model)
      ensures committed ==> Saved() && Shared(config.savedCols, config.savedRows) && SavedSound()
      ensures committed || old(CommonSize()) ==> CommonSize()
      ensures !committed ==> unchanged(config)
    {
      hide WidgetGridModel.Valid, WidgetGridModel.Sound, WidgetGridModel.Committed, Allowed, SoundLayout, Edits, Settled;
      hide EachSound, Distinct;
      var m := entries[active].model;
      ActiveSound();
      committed := Edit(m, a);
      OthersUntouched(m);
      SizesKept(m);
      if committed {
        CommitSharedBaseline(active);
        CommittedSize(entries[active].model);
      }
    }

    lemma ActiveSound()
      requires 0 <= active < |entries| && EachSound(entries)
      ensures entries[active].model.Valid() && entries[active].model.Sound()
    {
      hide WidgetGridModel.Valid, WidgetGridModel.Sound;
    }

    /** Changing one model leaves the others as they were. */
    twostate lemma OthersUntouched(m: WidgetGridModel)
      requires 0 <= active < |entries| && unchanged(this) && old(Distinct(entries)) && old(EachSound(entries)) && m == entries[active].model
      requires forall i :: 0 <= i < |entries| && entries[i].model != m ==> unchanged(entries[i].model)
      requires m.Valid() && m.Sound()
      ensures EachSound(entries)
      ensures forall i :: 0 <= i < |entries| && i != active ==> unchanged(entries[i].model)
      ensures old(OnlyActiveSelected()) ==> OnlyActiveSelected()
    {
      hide WidgetGridModel.Valid, WidgetGridModel.Sound;
      forall i | 0 <= i < |entries|
        ensures entries[i].model.Valid() && entries[i].model.Sound()
        ensures i != active ==> unchanged(entries[i].model)
      {
        if i != active { assert old(entries[i].model.Valid() && entries[i].model.Sound()); }
      }
    }

    twostate lemma SizesKept(m: WidgetGridModel)
      requires 0 <= active < |entries| && unchanged(this) && m == entries[active].model
      requires forall i :: 0 <= i < |entries| && i != active ==> unchanged(entries[i].model)
      requires m.cols == old(m.cols) && m.rows == old(m.rows)
      ensures old(EachAt(entries, m.cols, m.rows)) ==> EachAt(entries, m.cols, m.rows)
      ensures m.savedCols == old(m.savedCols) && m.savedRows == old(m.savedRows) && old(CommonSize()) ==> CommonSize()
    {
    }

    method SelectActive(on: bool)
      requires Valid() && entries[active].model.Roomy()
      requires on ==> entries[active].model.cols >= 1 && !entries[active].model.Unloaded()
      modifies entries[active].model
      ensures Valid() && entries[active].model.widgetSelected == on
      ensures !on ==> !entries[active].model.remapPending
      ensures old(CommonSize()) ==> CommonSize()
    {
      hide WidgetGridModel.Valid, WidgetGridModel.Sound, WidgetGridModel.Determined;
      hide WidgetGridModel.SettledLive, WidgetGridModel.SettledPage, WidgetGridModel.SettledCount, EachSound, Distinct;
      var m := entries[active].model;
      ActiveSound();
      SoundIsFresh(m);
      m.SetWidgetSelected(on);
      OthersUntouched(m);
      SizesKept(m);
      Idle(m);
    }

    /** The dashboard left behind is deselected first, so its deferred remap is not stranded. */
    method Leave()
      requires Valid() && entries[active].model.Roomy()
      modifies entries[active].model
      ensures Valid() && NothingSelected(entries)
      ensures old(CommonSize()) ==> CommonSize()
    {
      hide WidgetGridModel.Valid, WidgetGridModel.Sound, WidgetGridModel.Determined;
      SelectActive(false);
      forall i | 0 <= i < |entries|
        ensures !entries[i].model.remapPending
      {
        Idle(entries[i].model);
      }
    }

    /** One size is one size, whichever dashboard is active. */
    lemma CommonAnywhere(cols: int, rows: int)
      requires 0 <= active < |entries| && EachSavedAt(entries, cols, rows)
      ensures CommonSize()
    {
    }

    method SwitchTo(id: string) returns (ok: bool)
      requires Valid() && entries[active].model.Roomy()
      modifies this`active, config`activeDashboardId, entries[active].model
      ensures Valid() && (ok <==> exists i :: 0 <= i < |entries| && entries[i].id == id)
      ensures old(CommonSize()) ==> CommonSize()
      ensures ok ==> entries[active].id == id
      ensures !ok || entries[old(active)].id == id ==> active == old(active) && unchanged(entries[active].model)
      ensures active != old(active) ==> config.activeDashboardId == id && NothingSelected(entries)
    {
      hide WidgetGridModel.Valid, WidgetGridModel.Sound;
      var idx := IndexOf(id);
      if idx < 0 { return false; }
      if idx == active { return true; }
      ghost var common := CommonSize();
      Leave();
      ghost var cols, rows := entries[active].model.savedCols, entries[active].model.savedRows;
      active := idx;
      config.activeDashboardId := entries[active].id;
      if common { CommonAnywhere(cols, rows); }
      return true;
    }

    method SwitchToIndex(index: int) returns (ok: bool)
      requires Valid() && entries[active].model.Roomy()
      modifies this`active, config`activeDashboardId, entries[active].model
      ensures Valid() && (ok <==> 0 <= index < |entries|) && active == if ok then index else old(active)
      ensures old(CommonSize()) ==> CommonSize()
      ensures active == old(active) ==> unchanged(entries[active].model)
      ensures active != old(active) ==> config.activeDashboardId == entries[active].id && NothingSelected(entries)
    {
      hide WidgetGridModel.Valid, WidgetGridModel.Sound;
      if index < 0 || index >= |entries| { return false; }
      if index == active { return true; }
      ghost var common := CommonSize();
      Leave();
      ghost var cols, rows := entries[active].model.savedCols, entries[active].model.savedRows;
      active := index;
      config.activeDashboardId := entries[active].id;
      if common { CommonAnywhere(cols, rows); }
      return true;
    }

    method NextDashboard()
      requires Valid() && entries[active].model.Roomy()
      modifies this`active, config`activeDashboardId, entries[active].model
      ensures Valid() && active == if old(active) + 1 == |entries| then 0 else old(active) + 1
      ensures old(CommonSize()) ==> CommonSize()
      ensures |entries| > 1 ==> config.activeDashboardId == entries[active].id && NothingSelected(entries)
    {
      hide WidgetGridModel.Valid, WidgetGridModel.Sound, Wrapped;
      if |entries| <= 1 { return; }
      ghost var common := CommonSize();
      Leave();
      ghost var cols, rows := entries[active].model.savedCols, entries[active].model.savedRows;
      active := Wrapped(active + 1, |entries|);
      config.activeDashboardId := entries[active].id;
      if common { CommonAnywhere(cols, rows); }
    }

    method PreviousDashboard()
      requires Valid() && entries[active].model.Roomy()
      modifies this`active, config`activeDashboardId, entries[active].model
      ensures Valid() && active == if old(active) == 0 then |entries| - 1 else old(active) - 1
      ensures old(CommonSize()) ==> CommonSize()
      ensures |entries| > 1 ==> config.activeDashboardId == entries[active].id && NothingSelected(entries)
    {
      hide WidgetGridModel.Valid, WidgetGridModel.Sound, Wrapped;
      if |entries| <= 1 { return; }
      ghost var common := CommonSize();
      Leave();
      ghost var cols, rows := entries[active].model.savedCols, entries[active].model.savedRows;
      active := Wrapped(active - 1 + |entries|, |entries|);
      config.activeDashboardId := entries[active].id;
      if common { CommonAnywhere(cols, rows); }
    }

    /** A new size reaches every dashboard. */
    method SetGridDimensions(cols: int, rows: int)
      requires Valid() && cols >= 1 && rows >= 1
      requires forall i :: 0 <= i < |entries| ==> entries[i].model.Remappable()
      modifies Models()
      ensures Valid() && EachAt(entries, cols, rows)
      ensures forall i :: 0 <= i < |entries| ==>
                && entries[i].model.base == old(entries[i].model.base)
                && entries[i].model.widgetSelected == old(entries[i].model.widgetSelected)
      ensures old(CommonSize()) ==> CommonSize()
    {
      hide WidgetGridModel.Valid, WidgetGridModel.Sound, WidgetGridModel.Determined;
      var i := 0;
      while i < |entries|
        invariant 0 <= i <= |entries|
        invariant forall j :: 0 <= j < |entries| ==> entries[j].model.Valid() && entries[j].model.Sound()
        invariant forall j :: 0 <= j < |entries| ==>
                    && entries[j].model.base == old(entries[j].model.base)
                    && entries[j].model.widgetSelected == old(entries[j].model.widgetSelected)
                    && entries[j].model.savedCols == old(entries[j].model.savedCols)
                    && entries[j].model.savedRows == old(entries[j].model.savedRows)
        invariant forall j :: 0 <= j < i ==> entries[j].model.cols == cols && entries[j].model.rows == rows
        modifies Models()
      {
        assert old(entries[i].model.Remappable());
        SoundIsFresh(entries[i].model);
        entries[i].model.SetGridDimensions(cols, rows);
        i := i + 1;
      }
    }

    // ---- Adding, removing, renaming ----

    method FreshId(baseId: string) returns (id: string)
      ensures IsFreshId(id, baseId, Ids())
    {
      hide InstanceId;
      id := baseId;
      var suffix := 2;
      var idx := IndexOf(id);
      ghost var tried: set<string> := {};
      while idx >= 0
        invariant suffix >= 2 && (suffix == 2 ==> id == baseId) && (suffix > 2 ==> id == InstanceId(baseId, suffix - 1))
        invariant -1 <= idx < |entries| && (idx >= 0 ==> entries[idx].id == id)
        invariant idx < 0 ==> id !in Ids()
        invariant suffix > 2 ==> baseId in Ids() && forall k: nat :: 2 <= k < suffix - 1 ==> InstanceId(baseId, k) in Ids()
        invariant tried <= Ids() && |tried| == suffix - 2
        invariant forall t :: t in tried ==> t == baseId || exists n: nat :: 2 <= n < suffix - 1 && t == InstanceId(baseId, n)
        decreases |Ids()| - |tried|
      {
        assert id in Ids();
        Untried(baseId, id, suffix, tried);
        SubsetSize(tried + {id}, Ids());
        tried := tried + {id};
        id := InstanceId(baseId, suffix);
        suffix := suffix + 1;
        idx := IndexOf(id);
      }
    }

    /** A new empty dashboard of one page, at the active one's sizes. */
    method AddDashboard(trimmed: string, baseId: string) returns (id: string)
      requires Valid()
      modifies this`entries, config
      ensures Valid() && active == old(active)
      ensures trimmed == "" || old(|entries|) >= MAX_DASHBOARDS ==> id == "" && unchanged(this)
      ensures trimmed != "" && old(|entries|) < MAX_DASHBOARDS ==>
                && |entries| == old(|entries|) + 1 && entries[..old(|entries|)] == old(entries) && Saved()
                && IsFreshId(id, if baseId == "" then "dashboard" else baseId, old(Ids()))
                && var e := entries[old(|entries|)];
                   e.id == id && e.name == trimmed && fresh(e.model) && e.model.live == [] && e.model.pageCount == 1
                   && e.model.savedCols == entries[active].model.savedCols && e.model.savedRows == entries[active].model.savedRows
      ensures old(CommonSize()) ==> CommonSize() && (id != "" ==> SavedSound())
    {
      hide WidgetGridModel.Valid, WidgetGridModel.Sound, IsFreshId, Distinct, EachSound, EachAt, EachSavedAt, SoundLayout;
      if trimmed == "" { return ""; }
      if |entries| >= MAX_DASHBOARDS { return ""; }
      var am := entries[active].model;
      ActiveSound();
      SizesPositive(am);
      SavedPositive(am);
      id := FreshId(if baseId == "" then "dashboard" else baseId);
      FreshIdNotEmpty(id, if baseId == "" then "dashboard" else baseId, Ids());
      var model := NewModel(registry, am.cols, am.rows, am.savedCols, am.savedRows);
      Framed(entries);
      Append(Entry(id, trimmed, model));
      SaveAll();
    }

    /** One more dashboard, unlike the others, at their size. */
    method Append(e: Entry)
      requires Valid() && e.id !in Ids() && e.model !in Models() && e.model.Valid() && e.model.Sound() && !e.model.widgetSelected
      requires e.model.cols == entries[active].model.cols && e.model.rows == entries[active].model.rows
      modifies this`entries
      ensures Valid() && entries == old(entries) + [e]
      ensures old(CommonSize() && SameSaved(e.model, entries[active].model)) ==> CommonSize()
    {
      hide WidgetGridModel.Valid, WidgetGridModel.Sound, Distinct, EachSound, EachAt, EachSavedAt;
      WithKeeps(entries, e);
      WithKeepsSizes(entries, e, e.model.cols, e.model.rows, e.model.savedCols, e.model.savedRows);
      entries := entries + [e];
      Framed(entries);
    }

    /** Neither "home" nor the last dashboard can go. The active dashboard stays active unless it
        is the one removed. */
    method RemoveDashboard(id: string) returns (ok: bool)
      requires Valid() && entries[active].model.Roomy()
      modifies this`entries, this`active, config, entries[active].model
      ensures Valid()
      ensures ok <==> id != "home" && old(|entries|) > 1 && id in old(Ids())
      ensures !ok ==> unchanged(this) && unchanged(old(entries[active].model))
      ensures ok ==> Saved()
      ensures old(CommonSize()) ==> CommonSize() && (ok ==> SavedSound())
      ensures ok ==> exists idx :: 0 <= idx < old(|entries|) && old(entries)[idx].id == id && entries == Without(old(entries), idx)
      ensures ok && old(entries[active].id) != id ==>
                entries[active] == old(entries[active]) && unchanged(entries[active].model)
      ensures ok && old(entries[active].id) == id ==> (entries[active].id == "home" <==> "home" in Ids()) && NothingSelected(entries)
    {
      hide WidgetGridModel.Valid, WidgetGridModel.Sound, Without, Distinct, EachSound, EachAt, EachSavedAt, SavedSound;
      if id == "home" { return false; }
      if |entries| <= 1 { return false; }
      var idx := IndexOf(id);
      Framed(entries);
      if idx < 0 { return false; }
      IdsDiffer(entries, idx);
      RemoveAt(idx);
      return true;
    }

    method RemoveAt(idx: nat)
      requires Valid() && entries[active].model.Roomy()
      requires idx < |entries| && |entries| > 1
      modifies this`entries, this`active, config, entries[active].model
      ensures Valid() && Saved() && entries == Without(old(entries), idx)
      ensures old(CommonSize()) ==> CommonSize() && SavedSound()
      ensures old(active) != idx ==> entries[active] == old(entries[active]) && unchanged(old(entries[active].model))
      ensures old(active) == idx ==> (entries[active].id == "home" <==> "home" in Ids()) && NothingSelected(entries)
    {
      hide WidgetGridModel.Valid, WidgetGridModel.Sound, Without, Distinct, EachSound, EachAt, EachSavedAt, SoundLayout, NothingSelected;
      if idx == active {
        Leave();
        DropActive();
      } else {
        DropOther(idx);
      }
      SaveAll();
    }

    method DropOther(idx: nat)
      requires Valid() && idx < |entries| && idx != active
      modifies this`entries, this`active
      ensures Valid() && entries == Without(old(entries), idx) && entries[active] == old(entries[active])
      ensures old(CommonSize()) ==> CommonSize()
    {
      hide WidgetGridModel.Valid, WidgetGridModel.Sound, Distinct, EachSound, EachAt, EachSavedAt;
      WithoutKeeps(entries, idx);
      WithoutKeepsSizes(entries, idx, entries[active].model.cols, entries[active].model.rows);
      WithoutKeepsSizes(entries, idx, entries[active].model.savedCols, entries[active].model.savedRows);
      entries := Without(entries, idx);
      if idx < active { active := active - 1; }
      Framed(entries);
    }

    method DropActive()
      requires Valid() && NothingSelected(entries) && |entries| > 1
      modifies this`entries, this`active
      ensures Valid() && NothingSelected(entries) && entries == Without(old(entries), old(active))
      ensures entries[active].id == "home" <==> "home" in Ids()
      ensures old(CommonSize()) ==> CommonSize()
    {
      hide WidgetGridModel.Valid, WidgetGridModel.Sound, Distinct, EachSound, NothingSelected;
      hide OnlyActiveSelected, EachAt, EachSavedAt, Without;
      ghost var c, r := entries[active].model.cols, entries[active].model.rows;
      ghost var sc, sr := entries[active].model.savedCols, entries[active].model.savedRows;
      WithoutKeeps(entries, active);
      WithoutKeepsSizes(entries, active, c, r);
      WithoutKeepsSizes(entries, active, sc, sr);
      entries := Without(entries, active);
      var homeIdx := IndexOf("home");
      active := if homeIdx >= 0 then homeIdx else 0;
      Framed(entries);
      Unselected();
      if EachAt(entries, c, r) { AtActive(c, r); }
      if EachSavedAt(entries, sc, sr) { CommonAnywhere(sc, sr); }
    }

    lemma Unselected()
      requires 0 <= active < |entries| && NothingSelected(entries)
      ensures OnlyActiveSelected()
    {
    }

    lemma AtActive(cols: int, rows: int)
      requires 0 <= active < |entries| && EachAt(entries, cols, rows)
      ensures EachAt(entries, entries[active].model.cols, entries[active].model.rows)
    {
    }

    method RenameDashboard(id: string, trimmed: string) returns (ok: bool)
      requires Valid()
      modifies this`entries, config
      ensures Valid() && active == old(active) && (ok <==> trimmed != "" && id in old(Ids()))
      ensures !ok ==> unchanged(this)
      ensures ok ==> Saved() && |entries| == old(|entries|)
                     && forall i :: 0 <= i < |entries| ==>
                          entries[i] == if old(entries[i].id) == id then old(entries[i]).(name := trimmed) else old(entries[i])
      ensures old(CommonSize()) ==> CommonSize() && (ok ==> SavedSound())
    {
      hide WidgetGridModel.Valid, WidgetGridModel.Sound, EachSound, EachAt, EachSavedAt, SavedSound, Distinct;
      if trimmed == "" { return false; }
      var idx := IndexOf(id);
      Framed(entries);
      if idx < 0 { return false; }
      IdsDiffer(entries, idx);
      NamingKeeps(entries, idx, trimmed, entries[active].model.cols, entries[active].model.rows);
      NamingKeeps(entries, idx, trimmed, entries[active].model.savedCols, entries[active].model.savedRows);
      label Found:
      entries := entries[idx := entries[idx].(name := trimmed)];
      Framed@Found(entries);
      SaveAll();
      return true;
    }
  }

  lemma Idle(m: WidgetGridModel)
    requires m.Valid()
    ensures m.remapPending ==> m.widgetSelected
  {
  }

  lemma SizesPositive(m: WidgetGridModel)
    requires m.Valid()
    ensures SizeOk(m.cols, m.rows)
  {
  }

  lemma CommittedSize(m: WidgetGridModel)
    requires m.Committed()
    ensures m.savedCols == m.cols && m.savedRows == m.rows && !m.remapPending
  {
  }

  lemma SavedPositive(m: WidgetGridModel)
    requires m.Valid()
    ensures m.savedCols != 0 ==> m.savedCols >= 1 && m.savedRows >= 1
  {
  }

  lemma FreshIdNotEmpty(id: string, baseId: string, taken: set<string>)
    requires IsFreshId(id, baseId, taken) && baseId != ""
    ensures id != "" && id !in taken
  {
    if id != baseId {
      var n: nat :| n >= 2 && id == InstanceId(baseId, n);
      LongerThan(baseId, n);
    }
  }

  /** The candidate is none of the ids tried before. */
  lemma Untried(baseId: string, id: string, suffix: nat, tried: set<string>)
    requires suffix >= 2 && |tried| == suffix - 2 && (suffix == 2 ==> id == baseId)
    requires suffix > 2 ==> id == InstanceId(baseId, suffix - 1)
    requires forall t :: t in tried ==> t == baseId || exists n: nat :: 2 <= n < suffix - 1 && t == InstanceId(baseId, n)
    ensures id !in tried
  {
    hide InstanceId;
    if id in tried {
      if suffix > 2 {
        LongerThan(baseId, suffix - 1);
        var n: nat :| 2 <= n < suffix - 1 && id == InstanceId(baseId, n);
        InstanceIdInjective(baseId, n, baseId, suffix - 1);
      }
    }
  }

  lemma LongerThan(baseId: string, n: nat)
    ensures InstanceId(baseId, n) != baseId && InstanceId(baseId, n) != ""
  {
    assert |InstanceId(baseId, n)| > |baseId|;
  }

  /** A model with nothing on it, at the given sizes. */
  method NewModel(reg: Registry, cols: int, rows: int, savedCols: int, savedRows: int) returns (model: WidgetGridModel)
    requires ValidRegistry(reg) && SizeOk(cols, rows) && (savedCols != 0 ==> savedCols >= 1 && savedRows >= 1)
    ensures fresh(model) && model.Valid() && model.Sound() && model.cols == cols && model.rows == rows
    ensures model.live == [] && model.base == [] && model.pageCount == 1 && !model.widgetSelected && !model.remapPending
    ensures model.savedCols == savedCols && model.savedRows == savedRows
  {
    hide WidgetGridModel.Valid, WidgetGridModel.Sound, WidgetGridModel.Determined, RequiredPageCount, MovedToTail;
    model := new WidgetGridModel(reg);
    model.SetGridDimensions(cols, rows);
    EmptyModel(model);
    model.SetSavedDimensions(savedCols, savedRows);
    EmptySounds(model);
    model.SetPageCount(1);
    EmptyMoves(reg, 1);
    EmptyModel(model);
    Idle(model);
  }

  lemma EmptyMoves(reg: Registry, count: nat)
    ensures MovedToTail(reg, [], count) == [] && RequiredPageCount([]) == 1
  {
  }

  lemma EmptyModel(m: WidgetGridModel)
    requires m.Valid() && m.base == []
    ensures m.live == []
  {
  }

  lemma EmptySounds(m: WidgetGridModel)
    requires m.live == [] && m.base == [] && !m.widgetSelected && |m.occupancy| == m.cols * m.rows
    ensures m.Sound()
  {
  }

  // ---- A save without a common size ----

  /** A grid of one row and three columns, with a widget in the last. */
  method LastColumn(reg: Registry) returns (m: WidgetGridModel)
    requires ValidRegistry(reg)
    ensures fresh(m) && m.Valid() && m.Sound() && !m.widgetSelected && m.cols == 3 && m.rows == 1 && m.savedCols == 3
    ensures |m.base| == 1 && m.base[0].visible && m.base[0].col == 2 && m.base[0].colSpan == 1
  {
    hide WidgetGridModel.Valid, WidgetGridModel.Sound, WidgetGridModel.Determined, InstanceId;
    m := new WidgetGridModel(reg);
    m.SetGridDimensions(3, 1);
    EmptyModel(m);
    Idle(m);
    SoundIsFresh(m);
    var ok := m.PlaceWidget("w", 2, 0, 1, 1);
  }

  /** One dashboard with a widget and a saved size, one without either, and the second is active:
      its save records no size for the first. */
  method SaveWithoutSize(reg: Registry) returns (d: DashboardManager)
    requires ValidRegistry(reg)
    ensures d.Valid() && d.Saved() && !d.CommonSize() && !d.SavedSound()
  {
    hide WidgetGridModel.Valid, WidgetGridModel.Sound, WidgetGridModel.Determined, InstanceId;
    var a := LastColumn(reg);
    var b := new WidgetGridModel(reg);
    b.SetGridDimensions(3, 1);
    var config := new Configuration();
    d := new DashboardManager(reg, [Entry("home", "Home", a), Entry("other", "Other", b)], 1, config);
    var ok := d.RenameDashboard("other", "Another");
    assert !InGrid(d.config.dashboards[0].placements[0], 0, 0);
  }

  // ---- Loading one dashboard ----

  /** The page count a dashboard is loaded with. */
  ghost function LoadedPages(d: Stored): nat {
    var count := if d.pageCount >= 1 then d.pageCount else 2;
    if d.placements == [] then count else Max(count, RequiredPageCount(Clamped(d.placements)))
  }

  /** A stored dashboard becomes a model at the given size: what was laid out soundly for the
      saved size, or for this size when none was saved, is sound again. */
  method LoadModel(reg: Registry, d: Stored, savedCols: int, savedRows: int, cols: int, rows: int) returns (model: WidgetGridModel)
    requires ValidRegistry(reg) && cols >= 1 && rows >= 1 && (savedCols != 0 ==> savedCols >= 1 && savedRows >= 1)
    requires UniqueIds(d.placements)
    requires forall i :: 0 <= i < |d.placements| ==> WellFormed(d.placements[i].(page := 0))
    ensures fresh(model) && model.Valid() && model.Determined() && !model.widgetSelected && !model.remapPending
    ensures model.registry == reg && model.cols == cols && model.rows == rows && model.nextInstanceId == d.nextInstanceId
    ensures model.base == MovedToTail(reg, Clamped(d.placements), LoadedPages(d)) && model.basePageCount == LoadedPages(d)
    ensures model.savedCols == if savedCols == 0 && d.placements != [] then cols else savedCols
    ensures savedCols != 0 ==> model.savedRows == savedRows
    ensures FreshFrom(d.placements, d.nextInstanceId) && |d.placements| <= MAX_PLACEMENTS ==>
              && (savedCols != 0 && SoundLayout(Clamped(d.placements), savedCols, savedRows) ==> model.Sound())
              && (savedCols == 0 && d.placements != [] ==> (model.Sound() <==> SoundLayout(Clamped(d.placements), cols, rows)))
  {
    hide WidgetGridModel.Valid, WidgetGridModel.Sound, WidgetGridModel.Determined, RequiredPageCount, MovedToTail, Clamped,
         FreshFrom, SoundLayout;
    model := new WidgetGridModel(reg);
    EmptyMoves(reg, Max(d.pageCount, 1));
    model.SetPageCount(d.pageCount);
    EmptyModel(model);
    var count := model.pageCount;
    if d.placements != [] { model.SetPlacements(d.placements, Some(reg)); }
    LoadedShape(reg, d);
    model.SetNextInstanceId(d.nextInstanceId);
    model.SetSavedDimensions(savedCols, savedRows);
    MovingSound(reg, Clamped(d.placements), LoadedPages(d), savedCols, savedRows);
    MovingSound(reg, Clamped(d.placements), LoadedPages(d), cols, rows);
    LoadedFresh(reg, d);
    model.SetGridDimensions(cols, rows);
    Idle(model);
  }

  lemma LoadedShape(reg: Registry, d: Stored)
    ensures |MovedToTail(reg, Clamped(d.placements), LoadedPages(d))| == |d.placements|
    ensures d.placements == [] ==> MovedToTail(reg, Clamped(d.placements), LoadedPages(d)) == []
  {
  }

  lemma LoadedFresh(reg: Registry, d: Stored)
    ensures FreshFrom(d.placements, d.nextInstanceId) ==>
              FreshFrom(MovedToTail(reg, Clamped(d.placements), LoadedPages(d)), d.nextInstanceId)
  {
    hide LoadedPages;
    MovingFresh(reg, Clamped(d.placements), LoadedPages(d), d.nextInstanceId);
    assert SameWidgets(d.placements, Clamped(d.placements));
    if FreshFrom(d.placements, d.nextInstanceId) { SameWidgetsFresh(d.placements, Clamped(d.placements), d.nextInstanceId); }
  }

  /** Loading what was saved, at the size shown when it was saved, shows the same layout on the
      same pages, when the reserved pages are the last ones. */
  lemma ReloadShowsTheSame(m: WidgetGridModel, d: Stored)
    requires m.Valid() && m.Determined() && !m.remapPending && m.cols >= 1 && m.savedCols != 0 && m.base != []
    requires d.nextInstanceId == m.nextInstanceId && d.pageCount == m.basePageCount && d.placements == m.base
    requires MovedToTail(m.registry, m.base, m.basePageCount) == m.base
    ensures var base := MovedToTail(m.registry, Clamped(d.placements), LoadedPages(d));
            && base == m.base && LoadedPages(d) == m.basePageCount
            && LayoutFor(m.registry, base, LoadedPages(d), m.Grid()) == m.live
            && PagesFor(m.registry, base, LoadedPages(d), m.Grid()) == m.pageCount
  {
    hide Exact, LayoutFor, PagesFor, MovedToTail, RequiredPageCount;
    ClampNothing(m.base, m.basePageCount);
    PagesPositive(m.base, m.basePageCount);
  }

  lemma ClampNothing(ps: seq<Placement>, count: int)
    requires LayoutOk(ps, count)
    ensures Clamped(ps) == ps
  {
    assert forall i :: 0 <= i < |ps| ==> WellFormed(ps[i]);
  }
}
