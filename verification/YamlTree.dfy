/** Configuration trees and their deep merge: the user's values over the built-in ones. */
module YamlTree {
  import opened Results

  datatype Node = Null | Scalar(text: string) | Sequence(items: seq<Node>) | Mapping(entries: Entries)

  /** The entries of a mapping, in file order. */
  datatype Entries = Nil | Cons(key: string, value: Node, rest: Entries)

  /** The value of the first entry with the key. */
  function Get(entries: Entries, key: string): Option<Node> {
    match entries
    case Nil => None
    case Cons(k, v, rest) => if k == key then Some(v) else Get(rest, key)
  }

  /** Replaces the first entry with the key, or adds one at the end. */
  function Set(entries: Entries, key: string, value: Node): Entries {
    match entries
    case Nil => Cons(key, value, Nil)
    case Cons(k, v, rest) => if k == key then Cons(k, value, rest) else Cons(k, v, Set(rest, key, value))
  }

  /** Drops the first entry with the key. */
  function Remove(entries: Entries, key: string): Entries {
    match entries
    case Nil => Nil
    case Cons(k, v, rest) => if k == key then rest else Cons(k, v, Remove(rest, key))
  }

  predicate Has(entries: Entries, key: string) {
    Get(entries, key).Some?
  }

  predicate UniqueKeys(entries: Entries) {
    match entries
    case Nil => true
    case Cons(k, _, rest) => !Has(rest, k) && UniqueKeys(rest)
  }

  /** No mapping of the tree, outside sequences, has a key twice. */
  predicate UniqueTree(node: Node) {
    match node
    case Mapping(entries) => UniqueKeys(entries) && UniqueBelow(entries)
    case _ => true
  }

  predicate UniqueBelow(entries: Entries) {
    match entries
    case Nil => true
    case Cons(_, v, rest) => UniqueTree(v) && UniqueBelow(rest)
  }

  lemma {:induction false} GetSet(entries: Entries, key: string, value: Node, k: string)
    ensures Get(Set(entries, key, value), k) == if k == key then Some(value) else Get(entries, k)
  {
    if entries.Cons? { GetSet(entries.rest, key, value, k); }
  }

  lemma {:induction false} SetKeepsUnique(entries: Entries, key: string, value: Node)
    requires UniqueKeys(entries)
    ensures UniqueKeys(Set(entries, key, value))
  {
    if entries.Cons? && entries.key != key {
      SetKeepsUnique(entries.rest, key, value);
      GetSet(entries.rest, key, value, entries.key);
    }
  }

  lemma {:induction false} GetRemove(entries: Entries, key: string, k: string)
    requires UniqueKeys(entries)
    ensures Get(Remove(entries, key), k) == if k == key then None else Get(entries, k)
    ensures UniqueKeys(Remove(entries, key))
  {
    if entries.Cons? {
      if entries.key != key {
        GetRemove(entries.rest, key, k);
        GetRemove(entries.rest, key, entries.key);
      }
    }
  }

  lemma {:induction false} GetOther(entries: Entries, key: string, k: string)
    requires k != key
    ensures Get(Remove(entries, key), k) == Get(entries, k)
  {
    if entries.Cons? && entries.key != key { GetOther(entries.rest, key, k); }
  }

  lemma {:induction false} RemoveAbsent(entries: Entries, key: string)
    requires !Has(entries, key)
    ensures Remove(entries, key) == entries
  {
    if entries.Cons? { RemoveAbsent(entries.rest, key); }
  }

  lemma {:induction false} GetUnique(entries: Entries, key: string)
    requires UniqueBelow(entries) && Has(entries, key)
    ensures UniqueTree(Get(entries, key).value)
  {
    if entries.key != key { GetUnique(entries.rest, key); }
  }

  lemma {:induction false} GetSmaller(entries: Entries, key: string)
    requires Has(entries, key)
    ensures Get(entries, key).value < Mapping(entries) && Get(entries, key).value < entries
  {
    if entries.key != key { GetSmaller(entries.rest, key); }
  }

  // ---- The merge ----

  /** Mappings merge key by key; anything else the overlay sets wins; a missing or null overlay
      keeps the base. Only a value that would replace a mapping is refused. */
  function Merge(base: Node, overlay: Node): Result<Node>
    decreases overlay, 1
  {
    if overlay.Null? then Ok(base)
    else if base.Null? then Ok(overlay)
    else if base.Mapping? then
      if !overlay.Mapping? then Fail(RuntimeError)
      else
        match MergeInto(base.entries, overlay.entries)
        case Ok(entries) => Ok(Mapping(entries))
        case Fail(error) => Fail(error)
    else Ok(overlay)
  }

  /** The overlay's entries one after another into the result so far. */
  function MergeInto(result: Entries, overlay: Entries): Result<Entries>
    decreases overlay, 0
  {
    match overlay
    case Nil => Ok(result)
    case Cons(key, value, rest) =>
      match Get(result, key)
      case None => MergeInto(Set(result, key, value), rest)
      case Some(current) =>
        match Merge(current, value)
        case Ok(merged) => MergeInto(Set(result, key, merged), rest)
        case Fail(error) => Fail(error)
  }

  /** What the merge leaves under one key. */
  function MergedAt(base: Option<Node>, overlay: Option<Node>): Result<Option<Node>> {
    match overlay
    case None => Ok(base)
    case Some(value) =>
      match base
      case None => Ok(Some(value))
      case Some(current) =>
        match Merge(current, value)
        case Ok(merged) => Ok(Some(merged))
        case Fail(error) => Fail(error)
  }

  /** The merge of two mappings, key by key: it succeeds when it does under every key. */
  lemma {:induction false} MergeIntoAt(result: Entries, overlay: Entries, k: string)
    requires UniqueKeys(overlay)
    ensures var m := MergeInto(result, overlay);
            m.Ok? ==> MergedAt(Get(result, k), Get(overlay, k)) == Ok(Get(m.value, k))
    decreases overlay
  {
    if overlay.Cons? {
      var key, value := overlay.key, overlay.value;
      match Get(result, key)
      case None =>
        GetSet(result, key, value, k);
        MergeIntoAt(Set(result, key, value), overlay.rest, k);
      case Some(current) =>
        if Merge(current, value).Ok? {
          GetSet(result, key, Merge(current, value).value, k);
          MergeIntoAt(Set(result, key, Merge(current, value).value), overlay.rest, k);
        }
    }
  }

  lemma {:induction false} MergeIntoFails(result: Entries, overlay: Entries) returns (k: string)
    requires UniqueKeys(overlay) && MergeInto(result, overlay).Fail?
    ensures Has(result, k) && Has(overlay, k) && Merge(Get(result, k).value, Get(overlay, k).value).Fail?
    decreases overlay
  {
    var key, value := overlay.key, overlay.value;
    match Get(result, key)
    case None =>
      k := MergeIntoFails(Set(result, key, value), overlay.rest);
      GetSet(result, key, value, k);
    case Some(current) =>
      if Merge(current, value).Fail? {
        k := key;
      } else {
        k := MergeIntoFails(Set(result, key, Merge(current, value).value), overlay.rest);
        GetSet(result, key, Merge(current, value).value, k);
      }
  }

  // ---- When the merge fails ----

  /** The node at a path of keys through mappings. */
  function At(node: Node, path: seq<string>): Option<Node>
    decreases |path|
  {
    if path == [] then Some(node)
    else if !node.Mapping? then None
    else
      match Get(node.entries, path[0])
      case None => None
      case Some(child) => At(child, path[1..])
  }

  /** At the path, a value that is neither null nor a mapping would replace a built-in mapping. */
  predicate ClashAt(base: Node, overlay: Node, path: seq<string>) {
    && At(base, path).Some? && At(base, path).value.Mapping?
    && At(overlay, path).Some? && !At(overlay, path).value.Null? && !At(overlay, path).value.Mapping?
  }

  lemma {:induction false} ClashFails(base: Node, overlay: Node, path: seq<string>)
    requires UniqueTree(overlay) && ClashAt(base, overlay, path)
    ensures Merge(base, overlay).Fail?
    decreases |path|
  {
    if path != [] {
      var b, o := Get(base.entries, path[0]).value, Get(overlay.entries, path[0]).value;
      GetUnique(overlay.entries, path[0]);
      ClashFails(b, o, path[1..]);
      MergeIntoAt(base.entries, overlay.entries, path[0]);
    }
  }

  lemma {:induction false} FailClashes(base: Node, overlay: Node) returns (path: seq<string>)
    requires UniqueTree(overlay) && Merge(base, overlay).Fail?
    ensures ClashAt(base, overlay, path)
    decreases overlay
  {
    if !overlay.Mapping? {
      path := [];
    } else {
      var k := MergeIntoFails(base.entries, overlay.entries);
      var b, o := Get(base.entries, k).value, Get(overlay.entries, k).value;
      GetUnique(overlay.entries, k);
      GetSmaller(overlay.entries, k);
      var tail := FailClashes(b, o);
      path := [k] + tail;
      assert path[1..] == tail;
    }
  }

  /** The merge fails exactly when somewhere a value that is neither null nor a mapping lies over
      a built-in mapping. */
  lemma MergeFailsExactly(base: Node, overlay: Node)
    requires UniqueTree(overlay)
    ensures Merge(base, overlay).Fail? <==> exists path :: ClashAt(base, overlay, path)
  {
    if Merge(base, overlay).Fail? {
      var path := FailClashes(base, overlay);
    }
    if path :| ClashAt(base, overlay, path) {
      ClashFails(base, overlay, path);
    }
  }

  // ---- What the merge keeps ----

  /** `node` has all the keys of the base first, in the base's order, mappings where the base has
      mappings, and nothing null where the base has a value. */
  predicate Covers(base: Node, node: Node) {
    if base.Null? then true
    else if base.Mapping? then node.Mapping? && UniqueKeys(node.entries) && CoversEntries(base.entries, node.entries)
    else !node.Null?
  }

  predicate CoversEntries(base: Entries, entries: Entries) {
    match base
    case Nil => true
    case Cons(k, v, rest) => entries.Cons? && entries.key == k && Covers(v, entries.value) && CoversEntries(rest, entries.rest)
  }

  lemma {:induction false} CoversSelf(node: Node)
    requires UniqueTree(node)
    ensures Covers(node, node)
    decreases node, 1
  {
    if node.Mapping? { CoversSelfEntries(node.entries); }
  }

  lemma {:induction false} CoversSelfEntries(entries: Entries)
    requires UniqueBelow(entries)
    ensures CoversEntries(entries, entries)
    decreases entries, 0
  {
    if entries.Cons? {
      CoversSelf(entries.value);
      CoversSelfEntries(entries.rest);
    }
  }

  lemma {:induction false} CoveredValue(base: Entries, entries: Entries, key: string)
    requires CoversEntries(base, entries) && Has(base, key)
    ensures Has(entries, key) && Covers(Get(base, key).value, Get(entries, key).value)
  {
    if base.key != key { CoveredValue(base.rest, entries.rest, key); }
  }

  /** Setting a key to a value the base's value allows. */
  lemma {:induction false} CoversSet(base: Entries, entries: Entries, key: string, value: Node)
    requires CoversEntries(base, entries) && (Has(base, key) ==> Covers(Get(base, key).value, value))
    ensures CoversEntries(base, Set(entries, key, value))
  {
    if base.Cons? && base.key != key { CoversSet(base.rest, entries.rest, key, value); }
  }

  lemma {:induction false} CoversRemove(base: Entries, entries: Entries, key: string)
    requires CoversEntries(base, entries) && !Has(base, key)
    ensures CoversEntries(base, Remove(entries, key))
  {
    if base.Cons? { CoversRemove(base.rest, entries.rest, key); }
  }

  /** Whatever the merge gives covers the base. */
  lemma {:induction false} MergeCovers(base: Node, overlay: Node)
    requires UniqueTree(base) && Merge(base, overlay).Ok?
    ensures Covers(base, Merge(base, overlay).value)
    decreases overlay, 1
  {
    if overlay.Null? {
      CoversSelf(base);
    } else if base.Mapping? {
      CoversSelfEntries(base.entries);
      MergeIntoCovers(base.entries, base.entries, overlay.entries);
    }
  }

  lemma {:induction false} MergeIntoCovers(base: Entries, result: Entries, overlay: Entries)
    requires UniqueBelow(base) && CoversEntries(base, result) && UniqueKeys(result) && MergeInto(result, overlay).Ok?
    ensures CoversEntries(base, MergeInto(result, overlay).value) && UniqueKeys(MergeInto(result, overlay).value)
    decreases overlay, 0
  {
    if overlay.Cons? {
      var key, value := overlay.key, overlay.value;
      var next := if Has(result, key) then Merge(Get(result, key).value, value).value else value;
      if Has(base, key) {
        CoveredValue(base, result, key);
        MergeStillCovers(Get(base, key).value, Get(result, key).value, value);
      }
      CoversSet(base, result, key, next);
      SetKeepsUnique(result, key, next);
      MergeIntoCovers(base, Set(result, key, next), overlay.rest);
    }
  }

  /** Merging over something that covers the base still covers it. */
  lemma {:induction false} MergeStillCovers(base: Node, current: Node, overlay: Node)
    requires Covers(base, current) && Merge(current, overlay).Ok?
    ensures Covers(base, Merge(current, overlay).value)
    decreases overlay, 1
  {
    if base.Mapping? && overlay.Mapping? {
      MergeIntoStillCovers(base.entries, current.entries, overlay.entries);
    }
  }

  lemma {:induction false} MergeIntoStillCovers(base: Entries, result: Entries, overlay: Entries)
    requires CoversEntries(base, result) && UniqueKeys(result) && MergeInto(result, overlay).Ok?
    ensures CoversEntries(base, MergeInto(result, overlay).value) && UniqueKeys(MergeInto(result, overlay).value)
    decreases overlay, 0
  {
    if overlay.Cons? {
      var key, value := overlay.key, overlay.value;
      var next := if Has(result, key) then Merge(Get(result, key).value, value).value else value;
      if Has(base, key) {
        CoveredValue(base, result, key);
        MergeStillCovers(Get(base, key).value, Get(result, key).value, value);
      }
      CoversSet(base, result, key, next);
      SetKeepsUnique(result, key, next);
      MergeIntoStillCovers(base, Set(result, key, next), overlay.rest);
    }
  }

  /** Every mapping of the base is a mapping wherever it is covered. */
  lemma {:induction false} CoversMappings(base: Node, node: Node, path: seq<string>)
    requires Covers(base, node) && At(base, path).Some? && At(base, path).value.Mapping?
    ensures At(node, path).Some? && At(node, path).value.Mapping?
    decreases |path|
  {
    if path != [] {
      CoveredValue(base.entries, node.entries, path[0]);
      CoversMappings(Get(base.entries, path[0]).value, Get(node.entries, path[0]).value, path[1..]);
    }
  }

  // ---- A covered tree is a fixed point ----

  /** `done` followed by `rest`. */
  function Append(done: Entries, rest: Entries): Entries {
    match done
    case Nil => rest
    case Cons(k, v, more) => Cons(k, v, Append(more, rest))
  }

  lemma {:induction false} AppendNil(entries: Entries)
    ensures Append(entries, Nil) == entries
  {
    if entries.Cons? { AppendNil(entries.rest); }
  }

  lemma {:induction false} AppendOne(done: Entries, k: string, v: Node, rest: Entries)
    ensures Append(Append(done, Cons(k, v, Nil)), rest) == Append(done, Cons(k, v, rest))
  {
    if done.Cons? { AppendOne(done.rest, k, v, rest); }
  }

  lemma {:induction false} GetAppend(done: Entries, rest: Entries, key: string)
    ensures Get(Append(done, rest), key) == if Has(done, key) then Get(done, key) else Get(rest, key)
    ensures !Has(done, key) && rest.Cons? && rest.key == key ==>
              forall v :: Set(Append(done, rest), key, v) == Append(done, Cons(key, v, rest.rest))
    ensures !Has(done, key) && rest.Nil? ==> forall v :: Set(Append(done, rest), key, v) == Append(done, Cons(key, v, Nil))
  {
    if done.Cons? { GetAppend(done.rest, rest, key); }
  }

  /** Merging a tree that covers the base over the base gives that tree. */
  lemma {:induction false} CoveredIsFixed(base: Node, node: Node)
    requires Covers(base, node)
    ensures Merge(base, node) == Ok(node)
    decreases node, 1
  {
    if base.Mapping? { CoveredEntriesFixed(Nil, base.entries, node.entries); }
  }

  lemma {:induction false} CoveredEntriesFixed(done: Entries, base: Entries, node: Entries)
    requires CoversEntries(base, node) && UniqueKeys(node)
    requires forall k :: Has(node, k) ==> !Has(done, k)
    ensures MergeInto(Append(done, base), node) == Ok(Append(done, node))
    decreases node, 0
  {
    if node.Cons? {
      var key, value := node.key, node.value;
      assert Has(node, key);
      GetAppend(done, base, key);
      if base.Cons? { CoveredIsFixed(base.value, value); }
      var more := Append(done, Cons(key, value, Nil));
      var left := if base.Cons? then base.rest else Nil;
      AppendOne(done, key, value, left);
      AppendOne(done, key, value, node.rest);
      forall k | Has(node.rest, k)
        ensures !Has(more, k)
      {
        assert Has(node, k);
        GetAppend(done, Cons(key, value, Nil), k);
      }
      CoveredEntriesFixed(more, left, node.rest);
    } else {
      AppendNil(done);
      assert base == Nil;
    }
  }

  /** Merging the result again over the same base changes nothing. */
  lemma MergeTwice(base: Node, overlay: Node)
    requires UniqueTree(base) && Merge(base, overlay).Ok?
    ensures Merge(base, Merge(base, overlay).value) == Merge(base, overlay)
  {
    MergeCovers(base, overlay);
    CoveredIsFixed(base, Merge(base, overlay).value);
  }
}
