/** Zones of the screen that claim touches before they reach the projected video. */
module TouchRouter {

  const MAX_SLOTS := 10

  datatype TouchEvent = Down | Move | Up

  datatype TouchZone = TouchZone(id: string, priority: int, x0: real, y0: real, x1: real, y1: real)

  predicate Contains(z: TouchZone, x: real, y: real) {
    z.x0 <= x <= z.x1 && z.y0 <= y <= z.y1
  }

  predicate SortedZones(zones: seq<TouchZone>) {
    forall i, j :: 0 <= i < j < |zones| ==> zones[i].priority >= zones[j].priority
  }

  predicate HasZone(zones: seq<TouchZone>, id: string) {
    exists i :: 0 <= i < |zones| && zones[i].id == id
  }

  /** Whether a touch goes to a zone: to the one that claims its slot, or, for a Down, to one
      that contains it. */
  ghost predicate Takes(zones: seq<TouchZone>, claim: string, x: real, y: real, event: TouchEvent) {
    (claim != "" && HasZone(zones, claim))
    || (event == Down && exists z :: z in zones && Contains(z, x, y))
  }

  function Insert(z: TouchZone, zones: seq<TouchZone>): seq<TouchZone> {
    if zones == [] || z.priority >= zones[0].priority then [z] + zones
    else [zones[0]] + Insert(z, zones[1..])
  }

  function SortZones(zones: seq<TouchZone>): seq<TouchZone> {
    if zones == [] then [] else Insert(zones[0], SortZones(zones[1..]))
  }

  lemma {:induction false} InsertKeeps(z: TouchZone, zones: seq<TouchZone>)
    ensures multiset(Insert(z, zones)) == multiset(zones) + multiset{z}
  {
    if zones != [] && z.priority < zones[0].priority {
      InsertKeeps(z, zones[1..]);
      assert zones == [zones[0]] + zones[1..];
    }
  }

  lemma {:induction false} InsertSorts(z: TouchZone, zones: seq<TouchZone>, bound: int)
    requires SortedZones(zones) && z.priority <= bound
    requires forall i :: 0 <= i < |zones| ==> zones[i].priority <= bound
    ensures SortedZones(Insert(z, zones))
    ensures forall i :: 0 <= i < |Insert(z, zones)| ==> Insert(z, zones)[i].priority <= bound
  {
    if zones != [] && z.priority < zones[0].priority {
      InsertSorts(z, zones[1..], zones[0].priority);
    }
  }

  /** The first of the sorted zones that contains a point has the highest priority of those that do. */
  lemma FirstIsHighest(zones: seq<TouchZone>, i: nat, x: real, y: real)
    requires SortedZones(zones) && i < |zones| && Contains(zones[i], x, y) && forall j :: 0 <= j < i ==> !Contains(zones[j], x, y)
    ensures zones[i] in zones && forall w :: w in zones && Contains(w, x, y) ==> w.priority <= zones[i].priority
  {
    hide Contains;
  }

  function Highest(zones: seq<TouchZone>): int {
    if zones == [] then 0
    else if zones[0].priority > Highest(zones[1..]) then zones[0].priority else Highest(zones[1..])
  }

  lemma {:induction false} HighestBounds(zones: seq<TouchZone>)
    ensures forall i :: 0 <= i < |zones| ==> zones[i].priority <= Highest(zones)
  {
    if zones != [] { HighestBounds(zones[1..]); }
  }

  /** Sorting keeps every zone and puts higher priorities first. */
  lemma {:induction false} SortZonesSorts(zones: seq<TouchZone>)
    ensures SortedZones(SortZones(zones))
    ensures multiset(SortZones(zones)) == multiset(zones)
  {
    if zones != [] {
      SortZonesSorts(zones[1..]);
      var rest := SortZones(zones[1..]);
      HighestBounds(rest);
      var h := Highest(rest);
      InsertSorts(zones[0], rest, if h > zones[0].priority then h else zones[0].priority);
      InsertKeeps(zones[0], rest);
      assert zones == [zones[0]] + zones[1..];
    }
  }

  class TouchRouter {
    var zones: seq<TouchZone>
    var claimed: seq<string>

    ghost predicate Valid()
      reads this
    {
      |claimed| == MAX_SLOTS && SortedZones(zones)
    }

    constructor ()
      ensures Valid() && zones == [] && forall i :: 0 <= i < MAX_SLOTS ==> claimed[i] == ""
    {
      zones := [];
      claimed := seq(MAX_SLOTS, _ => "");
    }

    /** Replace the zones; a claim survives exactly when its zone does. */
    method SetZones(newZones: seq<TouchZone>)
      requires Valid()
      modifies this
      ensures Valid() && multiset(zones) == multiset(newZones)
      ensures forall i :: 0 <= i < MAX_SLOTS ==>
                claimed[i] == if HasZone(zones, old(claimed)[i]) then old(claimed)[i] else ""
    {
      SortZonesSorts(newZones);
      zones := SortZones(newZones);
      for i := 0 to MAX_SLOTS
        invariant |claimed| == MAX_SLOTS && zones == SortZones(newZones)
        invariant forall j :: 0 <= j < i ==>
                    claimed[j] == if HasZone(zones, old(claimed)[j]) then old(claimed)[j] else ""
        invariant forall j :: i <= j < MAX_SLOTS ==> claimed[j] == old(claimed)[j]
      {
        if claimed[i] != "" {
          var found := FindZone(claimed[i]);
          if !found {
            claimed := claimed[i := ""];
          }
        }
      }
    }

    method FindZone(id: string) returns (found: bool)
      ensures found <==> HasZone(zones, id)
    {
      for i := 0 to |zones|
        invariant forall j :: 0 <= j < i ==> zones[j].id != id
      {
        if zones[i].id == id {
          return true;
        }
      }
      return false;
    }

    /** A touch that a live claim owns goes to its zone. Otherwise only a Down can claim, and
        it goes to a zone of the highest priority among those that contain it. */
    method Dispatch(slot: int, x: real, y: real, event: TouchEvent) returns (consumed: bool)
      requires Valid()
      modifies this`claimed
      ensures Valid()
      ensures slot < 0 || slot >= MAX_SLOTS ==> !consumed && claimed == old(claimed)
      ensures forall i :: 0 <= i < MAX_SLOTS && i != slot ==> claimed[i] == old(claimed)[i]
      ensures 0 <= slot < MAX_SLOTS ==> consumed == Takes(zones, old(claimed)[slot], x, y, event)
      ensures 0 <= slot < MAX_SLOTS ==>
                var claim := old(claimed)[slot];
                if claim != "" && HasZone(zones, claim) then
                  consumed && claimed[slot] == if event == Up then "" else claim
                else if event == Down && exists z :: z in zones && Contains(z, x, y) then
                  consumed && exists z :: z in zones && Contains(z, x, y) && claimed[slot] == z.id
                                          && forall w :: w in zones && Contains(w, x, y) ==> w.priority <= z.priority
                else !consumed && claimed[slot] == ""
    {
      hide Contains, SortedZones, HasZone;
      if slot < 0 || slot >= MAX_SLOTS {
        return false;
      }
      var claim := claimed[slot];
      if claim != "" {
        var found := FindZone(claim);
        if found {
          if event == Up {
            claimed := claimed[slot := ""];
          }
          return true;
        }
        claimed := claimed[slot := ""];
      }
      if event != Down {
        return false;
      }
      for i := 0 to |zones|
        invariant forall j :: 0 <= j < i ==> !Contains(zones[j], x, y)
      {
        if Contains(zones[i], x, y) {
          claimed := claimed[slot := zones[i].id];
          FirstIsHighest(zones, i, x, y);
          return true;
        }
      }
      return false;
    }

    method ResetClaims()
      requires Valid()
      modifies this`claimed
      ensures Valid() && forall i :: 0 <= i < MAX_SLOTS ==> claimed[i] == ""
    {
      claimed := seq(MAX_SLOTS, _ => "");
    }
  }
}
