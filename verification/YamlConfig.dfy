/** Loading the configuration: a rename in the user's tree, the merge over the defaults, and a
    migration of old widget grids. */
module YamlConfiguration {
  import opened InstanceIds
  import opened Results
  import opened YamlTree

  // ---- Subscripts ----

  /** A sequence that is subscripted by a key turns into a mapping from its indices. */
  function Indexed(items: seq<Node>, from: nat): Entries {
    if items == [] then Nil else Cons(Decimal(from), items[0], Indexed(items[1..], from + 1))
  }

  /** The mapping a subscript by key makes of a node; a scalar has none. */
  function Subscripted(node: Node): Result<Entries> {
    match node
    case Mapping(entries) => Ok(entries)
    case Null => Ok(Nil)
    case Sequence(items) => Ok(Indexed(items, 0))
    case Scalar(_) => Fail(RuntimeError)
  }

  // ---- Integers in scalars ----

  predicate IsDigit(c: char) {
    '0' <= c <= '9'
  }

  function Natural(text: string, value: int): Option<int>
    decreases |text|
  {
    if text == "" then Some(value)
    else if IsDigit(text[0]) then Natural(text[1..], value * 10 + (text[0] as int - '0' as int))
    else None
  }

  function Integer(text: string): Option<int> {
    if text == "" || text == "-" then None
    else if text[0] == '-' then
      match Natural(text[1..], 0)
      case Some(n) => Some(-n)
      case None => None
    else
      match Natural(text, 0)
      case Some(n) => Some(n)
      case None => None
  }

  /** The integer of a scalar, the fallback for anything else. */
  function AsInt(node: Option<Node>, fallback: int): int {
    if node.Some? && node.value.Scalar? && Integer(node.value.text).Some? then Integer(node.value.text).value else fallback
  }

  function IntNode(n: int): Node {
    Scalar(if n < 0 then "-" + Decimal(-n) else Decimal(n))
  }

  // ---- The equalizer's "phone" stream becomes "system" ----

  /** An existing "system" wins. */
  function RenamePhone(streams: Node): Node {
    if streams.Mapping? && Has(streams.entries, "phone") then
      var phone := Get(streams.entries, "phone").value;
      var named := if Has(streams.entries, "system") then streams.entries else Set(streams.entries, "system", phone);
      Mapping(Remove(named, "phone"))
    else streams
  }

  /** The rename at a path of keys; every node on the way is subscripted. */
  function RenameAt(node: Node, path: seq<string>): Result<Node>
    decreases |path|
  {
    if path == [] then Ok(RenamePhone(node))
    else
      match Subscripted(node)
      case Fail(error) => Fail(error)
      case Ok(entries) =>
        match Get(entries, path[0])
        case None => Ok(Mapping(entries))
        case Some(child) =>
          match RenameAt(child, path[1..])
          case Fail(error) => Fail(error)
          case Ok(renamed) => Ok(Mapping(Set(entries, path[0], renamed)))
  }

  const EQ_STREAMS: seq<string> := ["audio", "equalizer", "streams"]

  // ---- Old widget grids ----

  function IsFlat(wg: Entries): bool {
    Get(wg, "placements").Some? && Get(wg, "placements").value.Sequence?
  }

  predicate NeedsMigration(wg: Entries) {
    IsFlat(wg) || AsInt(Get(wg, "version"), 4) == 3
  }

  /** The one dashboard an old grid becomes. */
  function HomeDashboard(wg: Entries): Node {
    Mapping(Cons("id", Scalar("home"), Cons("name", Scalar("Home"),
      Cons("next_instance_id", IntNode(AsInt(Get(wg, "next_instance_id"), 0)),
        Cons("page_count", IntNode(AsInt(Get(wg, "page_count"), 2)),
          Cons("placements", if IsFlat(wg) then Get(wg, "placements").value else Sequence([]), Nil))))))
  }

  function Nested(wg: Entries): Entries {
    Set(Set(Set(wg, "dashboards", Sequence([HomeDashboard(wg)])), "active_dashboard", Scalar("home")), "version", Scalar("4"))
  }

  function MigratedGrid(wg: Entries): Entries {
    if !NeedsMigration(wg) then wg
    else Remove(Remove(Remove(Nested(wg), "next_instance_id"), "page_count"), "placements")
  }

  function MigrateGridIn(root: Node): Node {
    if root.Mapping? && Get(root.entries, "widget_grid").Some? && Get(root.entries, "widget_grid").value.Mapping? then
      Mapping(Set(root.entries, "widget_grid", Mapping(MigratedGrid(Get(root.entries, "widget_grid").value.entries))))
    else root
  }

  // ---- Loading ----

  /** What loading needs of the built-in defaults. */
  ghost predicate BuiltIn(d: Node) {
    && UniqueTree(d) && d.Mapping?
    && At(d, EQ_STREAMS).Some? && At(d, EQ_STREAMS).value.Mapping? && !Has(At(d, EQ_STREAMS).value.entries, "phone")
    && GridDefaults(d).Some? && BuiltInGrid(GridDefaults(d).value)
  }

  function GridDefaults(d: Node): Option<Entries>
    requires d.Mapping?
  {
    if Get(d.entries, "widget_grid").Some? && Get(d.entries, "widget_grid").value.Mapping? then
      Some(Get(d.entries, "widget_grid").value.entries)
    else None
  }

  /** A grid of the current version, with values where the migration sets them. */
  ghost predicate BuiltInGrid(wg: Entries) {
    && !Has(wg, "placements") && !Has(wg, "next_instance_id") && !Has(wg, "page_count")
    && AsInt(Get(wg, "version"), 4) != 3
    && IsValue(Get(wg, "dashboards")) && IsValue(Get(wg, "active_dashboard")) && IsValue(Get(wg, "version"))
  }

  predicate IsValue(node: Option<Node>) {
    node.Some? && !node.value.Null? && !node.value.Mapping?
  }

  /** The user's tree over the defaults, or the defaults alone when that fails. */
  function Combined(d: Node, user: Node): Result<Node> {
    match RenameAt(user, EQ_STREAMS)
    case Fail(error) => Fail(error)
    case Ok(renamed) => Merge(d, renamed)
  }

  function Loaded(d: Node, user: Node): Node {
    match Combined(d, user)
    case Fail(_) => d
    case Ok(merged) => MigrateGridIn(merged)
  }

  datatype ConfigFile = Missing | Unreadable | Tree(node: Node)

  class YamlConfig {
    const defaults: Node
    var root: Node

    constructor (d: Node)
      ensures root == d && defaults == d
    {
      defaults, root := d, d;
    }

    /** A file that cannot be used is moved aside; the configuration is then the defaults. */
    method Load(file: ConfigFile) returns (movedAside: bool)
      requires BuiltIn(defaults)
      modifies this`root
      ensures root == if file.Tree? then Loaded(defaults, file.node) else defaults
      ensures movedAside <==> file.Unreadable? || (file.Tree? && Combined(defaults, file.node).Fail?)
    {
      hide Merge, RenameAt, BuiltIn, UniqueTree, MigratedGrid;
      root := defaults;
      if !file.Tree? { return file.Unreadable?; }
      var renamed := RenameAt(file.node, EQ_STREAMS);
      if renamed.Fail? { return true; }
      var merged := Merge(defaults, renamed.value);
      if merged.Fail? {
        root := defaults;
        return true;
      }
      root := merged.value;
      MergedHasGrid(defaults, renamed.value);
      MigrateWidgetGridV3();
      return false;
    }

    method MigrateWidgetGridV3()
      requires root.Mapping? && Get(root.entries, "widget_grid").Some? && Get(root.entries, "widget_grid").value.Mapping?
      modifies this`root
      ensures root == MigrateGridIn(old(root))
    {
      hide IsFlat, HomeDashboard, Get, Set, Remove;
      var wg := Get(root.entries, "widget_grid").value.entries;
      if !NeedsMigration(wg) {
        SetSame(root.entries, "widget_grid");
        return;
      }
      var home := HomeDashboard(wg);
      wg := Set(wg, "dashboards", Sequence([home]));
      wg := Set(wg, "active_dashboard", Scalar("home"));
      wg := Set(wg, "version", Scalar("4"));
      wg := Remove(wg, "next_instance_id");
      wg := Remove(wg, "page_count");
      wg := Remove(wg, "placements");
      root := Mapping(Set(root.entries, "widget_grid", Mapping(wg)));
    }
  }

  lemma {:induction false} SetSame(entries: Entries, key: string)
    requires Has(entries, key)
    ensures Set(entries, key, Get(entries, key).value) == entries
  {
    if entries.key != key { SetSame(entries.rest, key); }
  }

  lemma MergedHasGrid(d: Node, user: Node)
    requires BuiltIn(d) && Merge(d, user).Ok?
    ensures var m := Merge(d, user).value;
            m.Mapping? && Get(m.entries, "widget_grid").Some? && Get(m.entries, "widget_grid").value.Mapping?
  {
    MergeCovers(d, user);
    CoveredValue(d.entries, Merge(d, user).value.entries, "widget_grid");
  }

  // ---- What loading keeps ----

  /** The migration changes only keys the defaults do not have, or values with values. */
  lemma MigratedCovers(base: Entries, wg: Entries)
    requires BuiltInGrid(base) && CoversEntries(base, wg) && UniqueKeys(wg)
    ensures CoversEntries(base, MigratedGrid(wg)) && UniqueKeys(MigratedGrid(wg))
  {
    hide CoversEntries, HomeDashboard, IsFlat, Get, Set, Remove, UniqueKeys, AsInt, NeedsMigration;
    if NeedsMigration(wg) {
      var home := Sequence([HomeDashboard(wg)]);
      var a := Set(wg, "dashboards", home);
      CoversSet(base, wg, "dashboards", home);
      SetKeepsUnique(wg, "dashboards", home);
      var b := Set(a, "active_dashboard", Scalar("home"));
      CoversSet(base, a, "active_dashboard", Scalar("home"));
      SetKeepsUnique(a, "active_dashboard", Scalar("home"));
      var c := Set(b, "version", Scalar("4"));
      CoversSet(base, b, "version", Scalar("4"));
      SetKeepsUnique(b, "version", Scalar("4"));
      CoversRemove(base, c, "next_instance_id");
      GetRemove(c, "next_instance_id", "");
      var e := Remove(c, "next_instance_id");
      CoversRemove(base, e, "page_count");
      GetRemove(e, "page_count", "");
      var f := Remove(e, "page_count");
      CoversRemove(base, f, "placements");
      GetRemove(f, "placements", "");
    }
  }

  /** After the migration there is nothing left to migrate. */
  lemma MigratedIsCurrent(wg: Entries)
    requires UniqueKeys(wg)
    ensures !NeedsMigration(MigratedGrid(wg))
  {
    hide HomeDashboard, Get, Set, Remove, UniqueKeys, Integer;
    if NeedsMigration(wg) {
      VersionFour();
      var home := Sequence([HomeDashboard(wg)]);
      var a := Set(wg, "dashboards", home);
      SetKeepsUnique(wg, "dashboards", home);
      var b := Set(a, "active_dashboard", Scalar("home"));
      SetKeepsUnique(a, "active_dashboard", Scalar("home"));
      var c := Set(b, "version", Scalar("4"));
      SetKeepsUnique(b, "version", Scalar("4"));
      GetSet(b, "version", Scalar("4"), "version");
      GetRemove(c, "next_instance_id", "version");
      var e := Remove(c, "next_instance_id");
      GetRemove(e, "page_count", "version");
      var f := Remove(e, "page_count");
      GetRemove(f, "placements", "version");
      GetRemove(f, "placements", "placements");
    }
  }

  lemma VersionFour()
    ensures Integer("4") == Some(4)
  {
    assert Natural("4", 0) == Natural("", 4);
  }

  lemma MigrateKeepsCovers(d: Node, m: Node)
    requires BuiltIn(d) && Covers(d, m)
    ensures Covers(d, MigrateGridIn(m)) && MigrateGridIn(MigrateGridIn(m)) == MigrateGridIn(m)
  {
    hide MigratedGrid, BuiltInGrid, UniqueTree, NeedsMigration, CoversEntries, UniqueKeys;
    var k := "widget_grid";
    CoveredValue(d.entries, m.entries, k);
    var wg := Get(m.entries, k).value.entries;
    MigratedCovers(Get(d.entries, k).value.entries, wg);
    MigratedIsCurrent(wg);
    var moved := Mapping(MigratedGrid(wg));
    CoversSet(d.entries, m.entries, k, moved);
    SetKeepsUnique(m.entries, k, moved);
    GetSet(m.entries, k, moved, k);
    Again(MigratedGrid(wg));
    SetSame(Set(m.entries, k, moved), k);
  }

  lemma Again(wg: Entries)
    requires !NeedsMigration(wg)
    ensures MigratedGrid(wg) == wg
  {
  }

  /** Whatever is loaded, every mapping of the defaults is still a mapping. */
  lemma LoadedKeepsMappings(d: Node, user: Node, path: seq<string>)
    requires BuiltIn(d) && At(d, path).Some? && At(d, path).value.Mapping?
    ensures At(Loaded(d, user), path).Some? && At(Loaded(d, user), path).value.Mapping?
  {
    LoadedCovers(d, user);
    CoversMappings(d, Loaded(d, user), path);
  }

  lemma LoadedCovers(d: Node, user: Node)
    requires BuiltIn(d)
    ensures Covers(d, Loaded(d, user))
  {
    hide BuiltInGrid, MigrateGridIn, Covers, RenameAt, Merge, UniqueTree;
    match RenameAt(user, EQ_STREAMS)
    case Fail(_) => CoversSelf(d);
    case Ok(renamed) =>
      if Merge(d, renamed).Ok? {
        MergeCovers(d, renamed);
        MigrateKeepsCovers(d, Merge(d, renamed).value);
      } else {
        CoversSelf(d);
      }
  }

  // ---- No "phone" stream is left ----

  /** Nothing to rename at the path: mappings all the way, and no "phone" at the end. */
  predicate Renamed(node: Node, path: seq<string>)
    decreases |path|
  {
    if path == [] then node.Mapping? && !Has(node.entries, "phone")
    else node.Mapping? && Has(node.entries, path[0]) && Renamed(Get(node.entries, path[0]).value, path[1..])
  }

  lemma {:induction false} NothingToRename(node: Node, path: seq<string>)
    requires Renamed(node, path)
    ensures RenameAt(node, path) == Ok(node)
    decreases |path|
  {
    if path != [] {
      NothingToRename(Get(node.entries, path[0]).value, path[1..]);
      SetSame(node.entries, path[0]);
    }
  }

  /** No key twice on the way along the path, and no "phone" in a mapping at its end. */
  predicate NoPhone(node: Node, path: seq<string>)
    decreases |path|
  {
    node.Mapping? ==>
      && UniqueKeys(node.entries)
      && if path == [] then !Has(node.entries, "phone")
         else Has(node.entries, path[0]) ==> NoPhone(Get(node.entries, path[0]).value, path[1..])
  }

  /** A key that is no index of a sequence. */
  predicate IsName(key: string) {
    key != "" && !IsDigit(key[0])
  }

  lemma {:induction false} RenameLeavesNoPhone(node: Node, path: seq<string>)
    requires UniqueTree(node) && RenameAt(node, path).Ok? && forall k :: k in path ==> IsName(k)
    ensures NoPhone(RenameAt(node, path).value, path)
    decreases |path|
  {
    if path == [] {
      if node.Mapping? && Has(node.entries, "phone") {
        var e := node.entries;
        var named := if Has(e, "system") then e else Set(e, "system", Get(e, "phone").value);
        SetKeepsUnique(e, "system", Get(e, "phone").value);
        GetRemove(named, "phone", "phone");
      }
    } else {
      var entries := Subscripted(node).value;
      SubscriptedUnique(node, path[0]);
      if Has(entries, path[0]) {
        var child := Get(entries, path[0]).value;
        RenameLeavesNoPhone(child, path[1..]);
        var renamed := RenameAt(child, path[1..]).value;
        GetSet(entries, path[0], renamed, path[0]);
        SetKeepsUnique(entries, path[0], renamed);
      }
    }
  }

  lemma {:induction false} DecimalStartsWithDigit(n: nat)
    ensures IsDigit(Decimal(n)[0])
  {
    if n >= 10 { DecimalStartsWithDigit(n / 10); }
  }

  lemma {:induction false} IndexedKeys(items: seq<Node>, from: nat, key: string)
    requires Has(Indexed(items, from), key)
    ensures key != "" && IsDigit(key[0])
    ensures exists n: nat :: n >= from && key == Decimal(n)
  {
    if key == Decimal(from) {
      DecimalStartsWithDigit(from);
    } else {
      IndexedKeys(items[1..], from + 1, key);
    }
  }

  lemma {:induction false} IndexedUnique(items: seq<Node>, from: nat)
    ensures UniqueKeys(Indexed(items, from))
  {
    if items != [] {
      IndexedUnique(items[1..], from + 1);
      if Has(Indexed(items[1..], from + 1), Decimal(from)) {
        IndexedKeys(items[1..], from + 1, Decimal(from));
        var n: nat :| n >= from + 1 && Decimal(from) == Decimal(n);
        DecimalInjective(from, n);
        assert false;
      }
    }
  }

  lemma SubscriptedUnique(node: Node, key: string)
    requires UniqueTree(node) && Subscripted(node).Ok? && IsName(key)
    ensures UniqueKeys(Subscripted(node).value)
    ensures Has(Subscripted(node).value, key) ==> UniqueTree(Get(Subscripted(node).value, key).value)
  {
    match node
    case Mapping(entries) => if Has(entries, key) { GetUnique(entries, key); }
    case Sequence(items) =>
      IndexedUnique(items, 0);
      if Has(Indexed(items, 0), key) { IndexedKeys(items, 0, key); }
    case _ =>
  }

  /** Merging a tree without a "phone" over defaults without one leaves none. */
  lemma {:induction false} MergeLeavesNoPhone(d: Node, user: Node, path: seq<string>)
    requires Renamed(d, path) && NoPhone(user, path) && Merge(d, user).Ok? && UniqueTree(d)
    ensures Renamed(Merge(d, user).value, path)
    decreases |path|
  {
    if user.Mapping? {
      var k := if path == [] then "phone" else path[0];
      MergeIntoAt(d.entries, user.entries, k);
      if path != [] {
        var child := Get(d.entries, k).value;
        GetUnique(d.entries, k);
        if Has(user.entries, k) { MergeLeavesNoPhone(child, Get(user.entries, k).value, path[1..]); }
      }
    }
  }

  lemma {:induction false} RenamedAt(d: Node, path: seq<string>)
    requires At(d, path).Some? && At(d, path).value.Mapping? && !Has(At(d, path).value.entries, "phone")
    ensures Renamed(d, path)
    decreases |path|
  {
    if path != [] { RenamedAt(Get(d.entries, path[0]).value, path[1..]); }
  }

  /** The grid migration does not touch the equalizer. */
  lemma MigrateKeepsRenamed(m: Node)
    requires Renamed(m, EQ_STREAMS)
    ensures Renamed(MigrateGridIn(m), EQ_STREAMS)
  {
    hide MigratedGrid;
    if GridDefaults(m).Some? {
      GetSet(m.entries, "widget_grid", Mapping(MigratedGrid(GridDefaults(m).value)), "audio");
    }
  }

  lemma LoadedRenamed(d: Node, user: Node)
    requires BuiltIn(d) && UniqueTree(user)
    ensures Renamed(Loaded(d, user), EQ_STREAMS)
  {
    hide MigrateGridIn, Renamed, Merge, RenameAt, UniqueTree, BuiltInGrid;
    RenamedAt(d, EQ_STREAMS);
    var renamed := RenameAt(user, EQ_STREAMS);
    if renamed.Ok? && Merge(d, renamed.value).Ok? {
      RenameLeavesNoPhone(user, EQ_STREAMS);
      MergeLeavesNoPhone(d, renamed.value, EQ_STREAMS);
      MigrateKeepsRenamed(Merge(d, renamed.value).value);
    }
  }

  // ---- Loading twice ----

  lemma DefaultsAreCurrent(d: Node)
    requires BuiltIn(d)
    ensures MigrateGridIn(d) == d
  {
    SetSame(d.entries, "widget_grid");
  }

  /** Loading what was loaded changes nothing. */
  lemma LoadTwice(d: Node, user: Node)
    requires BuiltIn(d) && UniqueTree(user)
    ensures Loaded(d, Loaded(d, user)) == Loaded(d, user)
  {
    hide MigrateGridIn, Renamed, Merge, RenameAt, Covers, UniqueTree, BuiltIn;
    var r := Loaded(d, user);
    LoadedRenamed(d, user);
    NothingToRename(r, EQ_STREAMS);
    LoadedCovers(d, user);
    CoveredIsFixed(d, r);
    LoadedIsCurrent(d, user);
  }

  lemma LoadedIsCurrent(d: Node, user: Node)
    requires BuiltIn(d)
    ensures MigrateGridIn(Loaded(d, user)) == Loaded(d, user)
  {
    hide MigrateGridIn, Merge, RenameAt, Covers, UniqueTree, BuiltIn;
    DefaultsAreCurrent(d);
    if Combined(d, user).Ok? {
      var x := RenameAt(user, EQ_STREAMS).value;
      BuiltInUnique(d);
      MergeCovers(d, x);
      MigrateKeepsCovers(d, Merge(d, x).value);
    }
  }

  lemma BuiltInUnique(d: Node)
    requires BuiltIn(d)
    ensures UniqueTree(d)
  {
  }

  // ---- What the migrations carry over ----

  /** A legacy "phone" stream is found under "system" when there was none. */
  lemma PhoneBecomesSystem(streams: Entries, key: string)
    requires UniqueKeys(streams) && Has(streams, "phone")
    ensures RenamePhone(Mapping(streams)).Mapping?
    ensures var e := RenamePhone(Mapping(streams)).entries;
            Get(e, key) == if key == "phone" then None
                           else if key == "system" && !Has(streams, "system") then Get(streams, "phone")
                           else Get(streams, key)
  {
    var named := if Has(streams, "system") then streams else Set(streams, "system", Get(streams, "phone").value);
    SetKeepsUnique(streams, "system", Get(streams, "phone").value);
    GetSet(streams, "system", Get(streams, "phone").value, key);
    GetRemove(named, "phone", key);
  }

  /** The placements of an old grid are those of its one dashboard. */
  lemma PlacementsAreNested(wg: Entries)
    requires UniqueKeys(wg) && IsFlat(wg)
    ensures var e := MigratedGrid(wg);
            && !Has(e, "placements") && Get(e, "version") == Some(Scalar("4")) && Get(e, "active_dashboard") == Some(Scalar("home"))
            && Get(e, "dashboards") == Some(Sequence([HomeDashboard(wg)]))
            && At(HomeDashboard(wg), ["placements"]) == Get(wg, "placements")
  {
    hide HomeDashboard;
    var home := Sequence([HomeDashboard(wg)]);
    var a := Set(wg, "dashboards", home);
    SetKeepsUnique(wg, "dashboards", home);
    var b := Set(a, "active_dashboard", Scalar("home"));
    SetKeepsUnique(a, "active_dashboard", Scalar("home"));
    SetKeepsUnique(b, "version", Scalar("4"));
    NestedKeys(wg);
    RemovedKeys(Nested(wg), "version");
    RemovedKeys(Nested(wg), "active_dashboard");
    RemovedKeys(Nested(wg), "dashboards");
    RemovedKeys(Nested(wg), "placements");
    HomePlacements(wg);
  }

  lemma NestedKeys(wg: Entries)
    ensures Get(Nested(wg), "version") == Some(Scalar("4")) && Get(Nested(wg), "active_dashboard") == Some(Scalar("home"))
    ensures Get(Nested(wg), "dashboards") == Some(Sequence([HomeDashboard(wg)]))
  {
    hide HomeDashboard, Get, Set;
    var home := Sequence([HomeDashboard(wg)]);
    var a := Set(wg, "dashboards", home);
    var b := Set(a, "active_dashboard", Scalar("home"));
    GetSet(b, "version", Scalar("4"), "version");
    GetSet(b, "version", Scalar("4"), "active_dashboard");
    GetSet(b, "version", Scalar("4"), "dashboards");
    GetSet(a, "active_dashboard", Scalar("home"), "active_dashboard");
    GetSet(a, "active_dashboard", Scalar("home"), "dashboards");
    GetSet(wg, "dashboards", home, "dashboards");
  }

  lemma RemovedKeys(entries: Entries, key: string)
    requires UniqueKeys(entries)
    ensures var e := Remove(Remove(Remove(entries, "next_instance_id"), "page_count"), "placements");
            Get(e, key) == if key == "next_instance_id" || key == "page_count" || key == "placements" then None else Get(entries, key)
  {
    hide Get, Remove, UniqueKeys;
    GetRemove(entries, "next_instance_id", key);
    var e := Remove(entries, "next_instance_id");
    GetRemove(e, "page_count", key);
    GetRemove(Remove(e, "page_count"), "placements", key);
  }

  lemma HomePlacements(wg: Entries)
    requires IsFlat(wg)
    ensures At(HomeDashboard(wg), ["placements"]) == Get(wg, "placements")
  {
    hide Get, IntNode, AsInt;
    var home := HomeDashboard(wg);
    KeysDiffer();
    GetFifth(home.entries, "placements");
    AtKey(home, "placements");
  }

  lemma KeysDiffer()
    ensures "id" != "placements" && "name" != "placements" && "next_instance_id" != "placements" && "page_count" != "placements"
  {
    assert |"id"| == 2 && |"name"| == 4 && |"next_instance_id"| == 16 && |"placements"| == 10;
    assert "page_count"[1] == 'a' && "placements"[1] == 'l';
  }

  lemma GetFifth(e: Entries, key: string)
    requires e.Cons? && e.rest.Cons? && e.rest.rest.Cons? && e.rest.rest.rest.Cons? && e.rest.rest.rest.rest.Cons?
    requires e.key != key && e.rest.key != key && e.rest.rest.key != key && e.rest.rest.rest.key != key
    requires e.rest.rest.rest.rest.key == key
    ensures Get(e, key) == Some(e.rest.rest.rest.rest.value)
  {
    var tail := e.rest.rest;
    assert Get(e, key) == Get(e.rest, key) == Get(tail, key);
    assert Get(tail, key) == Get(tail.rest, key) == Get(tail.rest.rest, key);
  }

  lemma AtKey(node: Node, key: string)
    requires node.Mapping?
    ensures At(node, [key]) == Get(node.entries, key)
  {
    assert [key][1..] == [];
  }

  // ---- When the user's file is given up ----

  /** The rename fails exactly when a scalar stands on the way to the equalizer's streams. */
  lemma {:induction false} RenameFailsExactly(node: Node, path: seq<string>)
    requires forall k :: k in path ==> IsName(k)
    ensures RenameAt(node, path).Fail? <==>
            exists n :: 0 <= n < |path| && At(node, path[..n]).Some? && At(node, path[..n]).value.Scalar?
    decreases |path|
  {
    if path != [] {
      assert path[..0] == [] && path[0] in path;
      match node
      case Mapping(entries) =>
        if Has(entries, path[0]) {
          var child := Get(entries, path[0]).value;
          RenameFailsExactly(child, path[1..]);
          forall n | 0 <= n < |path| - 1
            ensures At(node, path[..n + 1]) == At(child, path[1..][..n])
          {
            assert path[..n + 1][1..] == path[1..][..n];
          }
          if n :| 0 < n < |path| && At(node, path[..n]).Some? && At(node, path[..n]).value.Scalar? {
            assert At(node, path[..(n - 1) + 1]) == At(child, path[1..][..n - 1]);
          }
        }
      case Sequence(items) => if Has(Indexed(items, 0), path[0]) { IndexedKeys(items, 0, path[0]); }
      case Null =>
      case Scalar(_) => assert At(node, path[..0]) == Some(node);
    }
  }

  // ---- The defaults that matter here ----

  function StreamDefaults(): Node {
    Mapping(
    Cons("media", Mapping(Cons("preset", Scalar("Flat"), Nil)),
      Cons("navigation", Mapping(Cons("preset", Scalar("Voice"), Nil)),
        Cons("system", Mapping(Cons("preset", Scalar("Voice"), Nil)), Nil))))
  }

  function DefaultGrid(): Node {
    Mapping(
    Cons("version", Scalar("4"), Cons("active_dashboard", Scalar("home"),
      Cons("dashboards", Sequence([HomeDashboard(Nil)]), Nil))))
  }

  /** The built-in tree: the equalizer's streams and the widget grid, among other settings. */
  function DefaultTree(equalizer: Entries, audio: Entries, others: Entries): Node {
    Mapping(Cons("widget_grid", DefaultGrid(),
      Cons("audio", Mapping(Cons("equalizer", Mapping(Cons("streams", StreamDefaults(), equalizer)), audio)), others)))
  }

  lemma DefaultsAreBuiltIn(equalizer: Entries, audio: Entries, others: Entries)
    requires UniqueKeys(equalizer) && UniqueBelow(equalizer) && !Has(equalizer, "streams")
    requires UniqueKeys(audio) && UniqueBelow(audio) && !Has(audio, "equalizer")
    requires UniqueKeys(others) && UniqueBelow(others) && !Has(others, "audio") && !Has(others, "widget_grid")
    ensures BuiltIn(DefaultTree(equalizer, audio, others))
  {
    hide StreamDefaults, DefaultGrid, BuiltInGrid, Get;
    StreamsAreBuiltIn();
    GridIsBuiltIn();
    assert |"widget_grid"| != |"audio"|;
    var d := DefaultTree(equalizer, audio, others);
    GetFirst(d.entries, "widget_grid");
    GetFirst(d.entries, "audio");
    GetFirst(d.entries.rest, "audio");
    GetFirst(d.entries.rest, "widget_grid");
    var inner := d.entries.rest.value;
    GetFirst(inner.entries, "equalizer");
    GetFirst(inner.entries.value.entries, "streams");
    assert EQ_STREAMS[1..][1..] == EQ_STREAMS[2..] && EQ_STREAMS[2..][1..] == [];
    AtStep(d, EQ_STREAMS);
    AtStep(inner, EQ_STREAMS[1..]);
    AtStep(inner.entries.value, EQ_STREAMS[2..]);
    hide UniqueTree;
    DefaultsUnique(equalizer, audio, others);
    assert At(d, EQ_STREAMS) == Some(StreamDefaults());
  }

  lemma DefaultsUnique(equalizer: Entries, audio: Entries, others: Entries)
    requires UniqueKeys(equalizer) && UniqueBelow(equalizer) && !Has(equalizer, "streams")
    requires UniqueKeys(audio) && UniqueBelow(audio) && !Has(audio, "equalizer")
    requires UniqueKeys(others) && UniqueBelow(others) && !Has(others, "audio") && !Has(others, "widget_grid")
    ensures UniqueTree(DefaultTree(equalizer, audio, others))
  {
    hide StreamDefaults, DefaultGrid, BuiltInGrid;
    StreamsAreBuiltIn();
    GridIsBuiltIn();
    assert |"widget_grid"| != |"audio"|;
    var d := DefaultTree(equalizer, audio, others);
    var audioNode := d.entries.rest.value;
    var equalizerNode := audioNode.entries.value;
    assert UniqueTree(equalizerNode);
    assert UniqueBelow(audioNode.entries);
    assert UniqueTree(audioNode);
    assert UniqueBelow(d.entries.rest) && UniqueKeys(d.entries.rest);
    assert UniqueBelow(d.entries) && UniqueKeys(d.entries);
  }

  lemma GetFirst(entries: Entries, key: string)
    requires entries.Cons?
    ensures Get(entries, key) == if entries.key == key then Some(entries.value) else Get(entries.rest, key)
  {
  }

  lemma AtStep(node: Node, path: seq<string>)
    requires path != [] && node.Mapping? && Has(node.entries, path[0])
    ensures At(node, path) == At(Get(node.entries, path[0]).value, path[1..])
  {
  }

  lemma StreamsAreBuiltIn()
    ensures StreamDefaults().Mapping? && UniqueTree(StreamDefaults()) && !Has(StreamDefaults().entries, "phone")
  {
    assert |"media"| == 5 && |"navigation"| == 10 && |"system"| == 6 && |"phone"| == 5;
    assert "media"[0] == 'm' && "phone"[0] == 'p';
  }

  lemma GridIsBuiltIn()
    ensures DefaultGrid().Mapping? && UniqueTree(DefaultGrid()) && BuiltInGrid(DefaultGrid().entries)
  {
    hide HomeDashboard;
    assert |"version"| == 7 && |"active_dashboard"| == 16 && |"dashboards"| == 10;
    assert |"placements"| == 10 && |"next_instance_id"| == 16 && |"page_count"| == 10;
    assert "dashboards"[0] == 'd' && "placements"[0] == 'p' && "page_count"[0] == 'p';
    assert "active_dashboard"[0] == 'a' && "next_instance_id"[0] == 'n';
    VersionFour();
  }
}
