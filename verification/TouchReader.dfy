/** From the slots of a multi-touch device to the pointer messages sent to the phone. */
module TouchReader {
  import opened TouchMapping
  import opened TouchRouter
  import opened TouchStream

  const GESTURE_FINGER_COUNT := 3
  const GESTURE_WINDOW_MS := 200

  datatype Slot = Slot(trackingId: int, x: int, y: int, dirty: bool)

  const IDLE := Slot(-1, 0, 0, false)

  predicate Touching(s: Slot) {
    s.trackingId >= 0
  }

  datatype Event =
    | AbsSlot(value: int)
    | AbsTrackingId(value: int)
    | AbsX(value: int)
    | AbsY(value: int)

  function CountActive(slots: seq<Slot>): nat {
    if slots == [] then 0 else CountActive(slots[..|slots| - 1]) + (if Touching(slots[|slots| - 1]) then 1 else 0)
  }

  function CountTrue(b: seq<bool>): nat {
    if b == [] then 0 else CountTrue(b[..|b| - 1]) + (if b[|b| - 1] then 1 else 0)
  }

  ghost function DownSet(active: seq<bool>): set<nat> {
    set i: nat | i < |active| && active[i]
  }

  /** The coordinates reported for a pointer: where it is, or where it was lifted. */
  function Source(slots: seq<Slot>, prev: seq<Slot>, i: nat): Slot
    requires i < |slots| == |prev|
  {
    if Touching(slots[i]) then slots[i] else prev[i]
  }

  ghost function PointerFor(slots: seq<Slot>, prev: seq<Slot>, m: Mapping, i: nat): Pointer
    requires i < |slots| == |prev| && TouchMapping.Valid(m)
  {
    Pointer(MapX(m, Source(slots, prev, i).x), MapY(m, Source(slots, prev, i).y), i)
  }

  /** The first `n` slots' phone-visible pointers. */
  ghost function Pointers(active: seq<bool>, slots: seq<Slot>, prev: seq<Slot>, m: Mapping, n: nat): seq<Pointer>
    requires n <= |active| == |slots| == |prev| && TouchMapping.Valid(m)
  {
    if n == 0 then []
    else Pointers(active, slots, prev, m, n - 1) + (if active[n - 1] then [PointerFor(slots, prev, m, n - 1)] else [])
  }

  lemma {:induction false} PointerListed(active: seq<bool>, slots: seq<Slot>, prev: seq<Slot>, m: Mapping, n: nat, i: nat)
    requires i < n <= |active| == |slots| == |prev| && TouchMapping.Valid(m) && active[i]
    ensures exists k :: 0 <= k < |Pointers(active, slots, prev, m, n)| && Pointers(active, slots, prev, m, n)[k].id == i
  {
    hide PointerFor;
    var ps, all := Pointers(active, slots, prev, m, n - 1), Pointers(active, slots, prev, m, n);
    if i < n - 1 {
      PointerListed(active, slots, prev, m, n - 1, i);
      var k :| 0 <= k < |ps| && ps[k].id == i;
      assert all[k].id == i;
    } else {
      PointerId(slots, prev, m, i);
      assert all[|ps|].id == i;
    }
  }

  lemma {:induction false} PointersAre(active: seq<bool>, slots: seq<Slot>, prev: seq<Slot>, m: Mapping, n: nat)
    requires n <= |active| == |slots| == |prev| && TouchMapping.Valid(m)
    ensures var ps := Pointers(active, slots, prev, m, n);
            && Ascending(ps)
            && (forall k :: 0 <= k < |ps| ==> ps[k].id < n && active[ps[k].id]
                                              && ps[k] == PointerFor(slots, prev, m, ps[k].id))
  {
    hide PointerFor;
    if n > 0 {
      PointersAre(active, slots, prev, m, n - 1);
      PointerId(slots, prev, m, n - 1);
    }
  }

  lemma PointerId(slots: seq<Slot>, prev: seq<Slot>, m: Mapping, i: nat)
    requires i < |slots| == |prev| && TouchMapping.Valid(m)
    ensures PointerFor(slots, prev, m, i).id == i
  {
  }

  lemma PointerIds(active: seq<bool>, slots: seq<Slot>, prev: seq<Slot>, m: Mapping)
    requires |active| == |slots| == |prev| && TouchMapping.Valid(m)
    ensures Ids(Pointers(active, slots, prev, m, |active|)) == DownSet(active)
    ensures Ascending(Pointers(active, slots, prev, m, |active|))
  {
    hide Pointers, PointerFor;
    PointersAre(active, slots, prev, m, |active|);
    var ps := Pointers(active, slots, prev, m, |active|);
    forall i: nat | i in DownSet(active)
      ensures i in Ids(ps)
    {
      PointerListed(active, slots, prev, m, |active|, i);
      var k :| 0 <= k < |ps| && ps[k].id == i;
    }
  }

  /** Each pointer of a message is where its slot is, in the phone's coordinates. */
  ghost predicate Current(msg: Message, slots: seq<Slot>, prev: seq<Slot>, m: Mapping)
    requires |slots| == |prev| && TouchMapping.Valid(m)
  {
    forall k :: 0 <= k < |msg.pointers| ==>
      msg.pointers[k].id < |slots| && msg.pointers[k] == PointerFor(slots, prev, m, msg.pointers[k].id)
  }

  /** Listing the pointers with one of them marked as going up is legal. */
  lemma UpIsLegal(active: seq<bool>, ps: seq<Pointer>, at: nat)
    requires Ascending(ps) && Ids(ps) == DownSet(active) && at < |ps|
    ensures var m := Message(ps, at, if |ps| == 1 then ACTION_UP else ACTION_POINTER_UP);
            var i := ps[at].id;
            i < |active| && active[i] && LegalMessage(DownSet(active), m)
            && After(DownSet(active), m) == DownSet(active[i := false])
  {
    var i := ps[at].id;
    assert i in Ids(ps);
    assert i in DownSet(active);
    assert DownSet(active[i := false]) == DownSet(active) - {i};
    if |ps| == 1 {
      assert Ids(ps) == {i};
    } else {
      var other := if at == 0 then 1 else 0;
      assert ps[other].id in Ids(ps) && ps[other].id != i;
    }
  }

  lemma DownIsLegal(active: seq<bool>, ps: seq<Pointer>, at: nat)
    requires Ascending(ps) && at < |ps| && ps[at].id < |active| && !active[ps[at].id]
    requires Ids(ps) == DownSet(active[ps[at].id := true])
    ensures var m := Message(ps, at, if |ps| == 1 then ACTION_DOWN else ACTION_POINTER_DOWN);
            LegalMessage(DownSet(active), m) && After(DownSet(active), m) == Ids(ps)
  {
    var i := ps[at].id;
    assert Ids(ps) == DownSet(active) + {i};
    if |ps| == 1 {
      assert Ids(ps) == {i};
    } else {
      var other := if at == 0 then 1 else 0;
      assert ps[other].id in Ids(ps) && ps[other].id != i;
    }
  }

  lemma MoveIsLegal(active: seq<bool>, ps: seq<Pointer>)
    requires Ascending(ps) && Ids(ps) == DownSet(active) && ps != []
    ensures LegalMessage(DownSet(active), Message(ps, 0, ACTION_MOVE))
    ensures After(DownSet(active), Message(ps, 0, ACTION_MOVE)) == DownSet(active)
  {
  }

  class EvdevTouchReader {
    const router: TouchRouter
    const hasHandler: bool
    var sent: seq<Message>

    var slots: seq<Slot>
    var prevSlots: seq<Slot>
    var aaActive: seq<bool>
    var currentSlot: nat

    var deviceOpen: bool
    var deviceGrabbed: bool

    var gestureActive: bool
    var gestureMaxFingers: int
    var firstFingerTime: int
    var prevActiveCount: nat

    var mapping: Mapping

    /** The stream sent so far is legal and leaves down exactly the pointers in `aaActive`. */
    ghost predicate Streaming()
      reads this
    {
      && |slots| == |prevSlots| == |aaActive| == MAX_SLOTS && TouchMapping.Valid(mapping)
      && (if hasHandler then LegalStream(sent, DownSet(aaActive)) else sent == [])
    }

    /** Holds between events. */
    ghost predicate Valid()
      reads this, router
    {
      && Streaming() && router.Valid() && currentSlot < MAX_SLOTS
      && (forall i :: 0 <= i < MAX_SLOTS ==> Settled(i))
      && (!deviceGrabbed || gestureActive ==> DownSet(aaActive) == {})
    }

    /** A phone-visible slot was touching at the last sync and no zone owns it; a slot that is
        not dirty has not changed since. */
    ghost predicate Settled(i: nat)
      reads this, router
      requires |slots| == |prevSlots| == |aaActive| == |router.claimed| == MAX_SLOTS && i < MAX_SLOTS
    {
      && (aaActive[i] ==> Touching(prevSlots[i]) && router.claimed[i] == "")
      && (!slots[i].dirty ==> slots[i] == prevSlots[i])
    }

    constructor (r: TouchRouter, handler: bool, c: Config, screenWidth: int, screenHeight: int)
      requires r.Valid() && Drawable(c) && screenWidth >= 1 && screenHeight >= 1
      ensures Valid() && router == r && hasHandler == handler && sent == [] && !deviceGrabbed
    {
      router := r;
      hasHandler := handler;
      sent := [];
      slots := seq(MAX_SLOTS, _ => IDLE);
      prevSlots := seq(MAX_SLOTS, _ => IDLE);
      aaActive := seq(MAX_SLOTS, _ => false);
      currentSlot := 0;
      deviceOpen, deviceGrabbed := false, false;
      gestureActive, gestureMaxFingers, firstFingerTime, prevActiveCount := false, 0, 0, 0;
      mapping := ComputeLetterbox(c, screenWidth, screenHeight);
      LetterboxValid(c, screenWidth, screenHeight);
    }

    method BuildAaPointers() returns (pointers: seq<Pointer>)
      requires |slots| == |prevSlots| == |aaActive| == MAX_SLOTS && TouchMapping.Valid(mapping)
      ensures pointers == Pointers(aaActive, slots, prevSlots, mapping, MAX_SLOTS)
    {
      hide MapX, MapY;
      pointers := [];
      for i := 0 to MAX_SLOTS
        invariant pointers == Pointers(aaActive, slots, prevSlots, mapping, i)
      {
        if aaActive[i] {
          var source := if Touching(slots[i]) then slots[i] else prevSlots[i];
          pointers := pointers + [Pointer(MapX(mapping, source.x), MapY(mapping, source.y), i)];
        }
      }
    }

    method IndexOf(pointers: seq<Pointer>, id: nat) returns (at: nat)
      requires exists k :: 0 <= k < |pointers| && pointers[k].id == id
      ensures at < |pointers| && pointers[at].id == id
    {
      at := 0;
      while pointers[at].id != id
        invariant at < |pointers| && forall k :: 0 <= k < at ==> pointers[k].id != id
        decreases |pointers| - at
      {
        at := at + 1;
      }
    }

    /** Tell the phone that a pointer goes up, and forget it. */
    method Retire(i: nat)
      requires Streaming() && i < MAX_SLOTS && aaActive[i]
      modifies this`sent, this`aaActive
      ensures Streaming() && aaActive == old(aaActive)[i := false]
      ensures if hasHandler
              then |sent| == |old(sent)| + 1 && old(sent) <= sent
                   && Current(sent[|old(sent)|], slots, prevSlots, mapping)
              else sent == []
    {
      hide Pointers, PointerFor, LegalMessage, After, LegalStream, MapX, MapY;
      var pointers := BuildAaPointers();
      PointersAre(aaActive, slots, prevSlots, mapping, MAX_SLOTS);
      PointerIds(aaActive, slots, prevSlots, mapping);
      PointerListed(aaActive, slots, prevSlots, mapping, MAX_SLOTS, i);
      var actionIdx := IndexOf(pointers, i);
      var action := if |pointers| == 1 then ACTION_UP else ACTION_POINTER_UP;
      UpIsLegal(aaActive, pointers, actionIdx);
      if hasHandler {
        StreamAppend(sent, DownSet(aaActive), Message(pointers, actionIdx, action));
        sent := sent + [Message(pointers, actionIdx, action)];
      }
      aaActive := aaActive[i := false];
    }

    /** Tell the phone about a new pointer. */
    method Admit(i: nat)
      requires Streaming() && i < MAX_SLOTS && !aaActive[i]
      modifies this`sent, this`aaActive
      ensures Streaming() && aaActive == old(aaActive)[i := true]
      ensures if hasHandler
              then |sent| == |old(sent)| + 1 && old(sent) <= sent
                   && Current(sent[|old(sent)|], slots, prevSlots, mapping)
              else sent == []
    {
      hide Pointers, PointerFor, LegalMessage, After, LegalStream, MapX, MapY;
      ghost var before := aaActive;
      aaActive := aaActive[i := true];
      var pointers := BuildAaPointers();
      PointersAre(aaActive, slots, prevSlots, mapping, MAX_SLOTS);
      PointerIds(aaActive, slots, prevSlots, mapping);
      assert aaActive[i];
      PointerListed(aaActive, slots, prevSlots, mapping, MAX_SLOTS, i);
      var actionIdx := IndexOf(pointers, i);
      var action := if |pointers| == 1 then ACTION_DOWN else ACTION_POINTER_DOWN;
      DownIsLegal(before, pointers, actionIdx);
      if hasHandler {
        StreamAppend(sent, DownSet(before), Message(pointers, actionIdx, action));
        sent := sent + [Message(pointers, actionIdx, action)];
      }
    }

    /** Every message from `from` on lists its pointers where they are now. */
    ghost predicate CurrentFrom(from: nat)
      reads this
      requires |slots| == |prevSlots| && TouchMapping.Valid(mapping)
    {
      forall k :: from <= k < |sent| ==> Current(sent[k], slots, prevSlots, mapping)
    }

    /** Lift every phone-visible pointer, one message each. */
    method ReleaseAaTouchStream()
      requires Streaming()
      modifies this`sent, this`aaActive
      ensures Streaming() && aaActive == seq(MAX_SLOTS, _ => false) && DownSet(aaActive) == {}
      ensures old(sent) <= sent && CurrentFrom(|old(sent)|)
      ensures hasHandler ==> |sent| == |old(sent)| + CountTrue(old(aaActive))
    {
      hide LegalStream, Current;
      ghost var active := aaActive;
      for i := 0 to MAX_SLOTS
        invariant Streaming()
        invariant forall j :: 0 <= j < i ==> !aaActive[j]
        invariant forall j :: i <= j < MAX_SLOTS ==> aaActive[j] == active[j]
        invariant old(sent) <= sent && CurrentFrom(|old(sent)|)
        invariant hasHandler ==> |sent| == |old(sent)| + CountTrue(active[..i])
      {
        assert active[..i + 1][..i] == active[..i];
        if aaActive[i] {
          Retire(i);
        }
      }
      assert active[..MAX_SLOTS] == active;
    }

    /** Forget all touch state; the phone is told first. */
    method ResetTouchState()
      requires Streaming() && router.Valid()
      modifies this, router`claimed
      ensures Valid() && DownSet(aaActive) == {} && old(sent) <= sent
      ensures mapping == old(mapping) && deviceOpen == old(deviceOpen) && deviceGrabbed == old(deviceGrabbed)
      ensures !gestureActive && forall i :: 0 <= i < MAX_SLOTS ==> !Touching(slots[i]) && !Touching(prevSlots[i])
    {
      ReleaseAaTouchStream();
      slots := seq(MAX_SLOTS, _ => IDLE);
      prevSlots := slots;
      aaActive := seq(MAX_SLOTS, _ => false);
      currentSlot := 0;
      gestureActive := false;
      gestureMaxFingers := 0;
      prevActiveCount := 0;
      router.ResetClaims();
    }

    /** Adopt a new mapping between syncs. */
    method ApplyMapping(c: Config, screenWidth: int, screenHeight: int)
      requires Valid() && Drawable(c) && screenWidth >= 1 && screenHeight >= 1
      modifies this`mapping
      ensures Valid() && mapping == ComputeLetterbox(c, screenWidth, screenHeight)
    {
      LetterboxValid(c, screenWidth, screenHeight);
      mapping := ComputeLetterbox(c, screenWidth, screenHeight);
      forall i | 0 <= i < MAX_SLOTS
        ensures Settled(i)
      {
        assert old(Settled(i));
      }
    }

    /** The main thread replaces the zones. */
    method ReplaceZones(zones: seq<TouchZone>)
      requires Valid()
      modifies router
      ensures Valid()
    {
      router.SetZones(zones);
      forall i | 0 <= i < MAX_SLOTS
        ensures Settled(i)
      {
        assert old(Settled(i));
      }
    }

    method Open()
      requires Valid() && !deviceOpen
      modifies this, router`claimed
      ensures Valid() && deviceOpen && DownSet(aaActive) == {} && old(sent) <= sent
    {
      deviceOpen := true;
      ResetTouchState();
    }

    /** Follow a grab request; `done` says whether the device obeyed. After an ungrab nothing
        is down on the phone. */
    method ApplyRequestedGrab(requested: bool, done: bool)
      requires Valid()
      modifies this, router`claimed
      ensures Valid() && old(sent) <= sent
      ensures deviceGrabbed == if deviceOpen && done then requested else old(deviceGrabbed)
      ensures !deviceGrabbed && old(deviceGrabbed) ==> DownSet(aaActive) == {}
      ensures deviceGrabbed == old(deviceGrabbed) || requested ==> sent == old(sent) && aaActive == old(aaActive)
      ensures deviceOpen == old(deviceOpen)
    {
      if requested == deviceGrabbed || !deviceOpen {
        return;
      }
      if !done {
        return;
      }
      deviceGrabbed := requested;
      forall i | 0 <= i < MAX_SLOTS
        ensures Settled(i)
      {
        assert old(Settled(i));
      }
      if !requested {
        ResetTouchState();
      }
    }

    /** The device disappeared: close it, and lift everything. */
    method DeviceLost()
      requires Valid()
      modifies this, router`claimed
      ensures Valid() && !deviceOpen && !deviceGrabbed && DownSet(aaActive) == {} && old(sent) <= sent
    {
      deviceOpen := false;
      deviceGrabbed := false;
      ResetTouchState();
    }

    /** The current slot changed, and no other. */
    twostate predicate OneSlot(slot: Slot)
      requires 0 <= currentSlot < |old(slots)|
      reads this
    {
      currentSlot == old(currentSlot) && slots == old(slots)[currentSlot := slot]
    }

    /** One absolute-axis event; nothing is sent. */
    method HandleEvent(ev: Event)
      requires Valid()
      modifies this`slots, this`currentSlot
      ensures Valid()
      ensures match ev
              case AbsSlot(v) => slots == old(slots) && currentSlot == if v < 0 then 0 else if v >= MAX_SLOTS then MAX_SLOTS - 1 else v
              case AbsTrackingId(v) => OneSlot(old(slots)[currentSlot].(trackingId := v, dirty := true))
              case AbsX(v) => OneSlot(old(slots)[currentSlot].(x := v, dirty := true))
              case AbsY(v) => OneSlot(old(slots)[currentSlot].(y := v, dirty := true))
    {
      match ev {
      case AbsSlot(v) =>
        currentSlot := if v < 0 then 0 else if v > MAX_SLOTS - 1 then MAX_SLOTS - 1 else v;
      case AbsTrackingId(v) =>
        slots := slots[currentSlot := slots[currentSlot].(trackingId := v, dirty := true)];
      case AbsX(v) =>
        slots := slots[currentSlot := slots[currentSlot].(x := v, dirty := true)];
      case AbsY(v) =>
        slots := slots[currentSlot := slots[currentSlot].(y := v, dirty := true)];
      }
      forall i | 0 <= i < MAX_SLOTS
        ensures Settled(i)
      {
        assert old(Settled(i));
      }
    }

    /** Track the fingers of a gesture; `now` is the time in milliseconds. Three fingers
        within the window start a gesture, which lasts until all are lifted. */
    method CheckGesture(now: int) returns (blocking: bool)
      requires |slots| == MAX_SLOTS
      modifies this`gestureActive, this`gestureMaxFingers, this`firstFingerTime, this`prevActiveCount
      ensures blocking == gestureActive && prevActiveCount == CountActive(slots)
      ensures var fingers := CountActive(slots);
              var first := fingers > 0 && old(prevActiveCount) == 0;
              && firstFingerTime == (if first then now else old(firstFingerTime))
              && var most := if first then 1 else if fingers > old(gestureMaxFingers) then fingers else old(gestureMaxFingers);
                 var begun := (!first && old(gestureActive))
                              || (most >= GESTURE_FINGER_COUNT && now - firstFingerTime <= GESTURE_WINDOW_MS);
                 && gestureActive == (fingers > 0 && begun)
                 && gestureMaxFingers == if fingers == 0 && begun then 0 else most
    {
      var nowActive := 0;
      for i := 0 to |slots|
        invariant nowActive == CountActive(slots[..i])
      {
        assert slots[..i + 1][..i] == slots[..i];
        if Touching(slots[i]) {
          nowActive := nowActive + 1;
        }
      }
      assert slots[..|slots|] == slots;

      if nowActive > 0 && prevActiveCount == 0 {
        firstFingerTime := now;
        gestureMaxFingers := 1;
        gestureActive := false;
      } else if nowActive > gestureMaxFingers {
        gestureMaxFingers := nowActive;
      }
      prevActiveCount := nowActive;
      if gestureMaxFingers >= GESTURE_FINGER_COUNT && !gestureActive {
        if now - firstFingerTime <= GESTURE_WINDOW_MS {
          gestureActive := true;
        }
      }
      if nowActive == 0 && gestureActive {
        gestureActive := false;
        gestureMaxFingers := 0;
      }
      blocking := gestureActive;
    }

    ghost predicate Lifted(i: nat)
      reads this
      requires i < |slots| == |prevSlots|
    {
      slots[i].dirty && Touching(prevSlots[i]) && !Touching(slots[i])
    }

    ghost predicate Pressed(i: nat)
      reads this
      requires i < |slots| == |prevSlots|
    {
      slots[i].dirty && !Touching(prevSlots[i]) && Touching(slots[i])
    }

    ghost predicate Shifted(i: nat)
      reads this
      requires i < |slots| == |prevSlots|
    {
      slots[i].dirty && Touching(prevSlots[i]) && Touching(slots[i])
      && (slots[i].x != prevSlots[i].x || slots[i].y != prevSlots[i].y)
    }

    /** The press of slot `i` goes to a zone. */
    ghost predicate PressTaken(i: nat, claims: seq<string>)
      reads this, router
      requires i < |slots| && i < |claims|
    {
      Takes(router.zones, claims[i], slots[i].x as real, slots[i].y as real, Down)
    }

    /** Offer every changed slot to the router. A pointer the phone knows is never consumed,
        and a press that is not consumed leaves its slot unclaimed. */
    method DispatchAll() returns (consumed: seq<bool>)
      requires |slots| == |prevSlots| == |aaActive| == MAX_SLOTS && router.Valid()
      requires forall i :: 0 <= i < MAX_SLOTS ==> Settled(i)
      modifies router`claimed
      ensures router.Valid() && |consumed| == MAX_SLOTS
      ensures forall i :: 0 <= i < MAX_SLOTS ==> Settled(i)
      ensures forall i :: 0 <= i < MAX_SLOTS && aaActive[i] ==> !consumed[i]
      ensures forall i :: 0 <= i < MAX_SLOTS && Pressed(i) ==> consumed[i] == PressTaken(i, old(router.claimed))
      ensures forall i :: 0 <= i < MAX_SLOTS && Pressed(i) && !consumed[i] ==> router.claimed[i] == ""
    {
      consumed := seq(MAX_SLOTS, _ => false);
      for i := 0 to MAX_SLOTS
        invariant router.Valid() && |consumed| == MAX_SLOTS
        invariant forall j :: 0 <= j < MAX_SLOTS ==> Settled(j)
        invariant forall j :: 0 <= j < MAX_SLOTS && aaActive[j] ==> !consumed[j]
        invariant forall j :: i <= j < MAX_SLOTS ==> router.claimed[j] == old(router.claimed)[j]
        invariant forall j :: 0 <= j < i && Pressed(j) ==> consumed[j] == PressTaken(j, old(router.claimed))
        invariant forall j :: 0 <= j < i && Pressed(j) && !consumed[j] ==> router.claimed[j] == ""
      {
        if !slots[i].dirty {
          continue;
        }
        var wasActive := Touching(prevSlots[i]);
        var isActive := Touching(slots[i]);
        var evt: TouchEvent;
        var x: real, y: real;
        if !wasActive && isActive {
          evt, x, y := Down, slots[i].x as real, slots[i].y as real;
        } else if wasActive && isActive {
          evt, x, y := Move, slots[i].x as real, slots[i].y as real;
        } else if wasActive && !isActive {
          evt, x, y := Up, prevSlots[i].x as real, prevSlots[i].y as real;
        } else {
          continue;
        }
        label before:
        assert Settled(i);
        var c := router.Dispatch(i, x, y, evt);
        consumed := consumed[i := c];
        forall j | 0 <= j < MAX_SLOTS
          ensures Settled(j)
        {
          assert old@before(Settled(j));
        }
      }
    }

    /** Save the slots as they are now. */
    method SettleSlots()
      requires |slots| == MAX_SLOTS
      modifies this`slots, this`prevSlots
      ensures |slots| == MAX_SLOTS && prevSlots == slots
      ensures forall i :: 0 <= i < MAX_SLOTS ==> slots[i] == old(slots)[i].(dirty := false)
    {
      for i := 0 to MAX_SLOTS
        invariant |slots| == MAX_SLOTS
        invariant forall j :: 0 <= j < i ==> slots[j] == old(slots)[j].(dirty := false)
        invariant forall j :: i <= j < MAX_SLOTS ==> slots[j] == old(slots)[j]
      {
        slots := slots[i := slots[i].(dirty := false)];
      }
      prevSlots := slots;
    }

    /** Retire lifted pointers before any replacement is admitted. */
    method RetireLifted(consumed: seq<bool>) returns (ghost lifts: seq<bool>, any: bool)
      requires Streaming() && |consumed| == MAX_SLOTS
      requires forall i :: 0 <= i < MAX_SLOTS && aaActive[i] ==> !consumed[i]
      modifies this`sent, this`aaActive
      ensures Streaming() && |lifts| == MAX_SLOTS
      ensures forall i :: 0 <= i < MAX_SLOTS ==> lifts[i] == (old(aaActive)[i] && Lifted(i))
      ensures forall i :: 0 <= i < MAX_SLOTS ==> aaActive[i] == (old(aaActive)[i] && !Lifted(i))
      ensures old(sent) <= sent && CurrentFrom(|old(sent)|)
      ensures hasHandler ==> |sent| == |old(sent)| + CountTrue(lifts)
      ensures any <==> CountTrue(lifts) > 0
    {
      hide LegalStream, Current;
      any := false;
      lifts := seq(MAX_SLOTS, i requires 0 <= i < MAX_SLOTS reads this requires Streaming() => aaActive[i] && Lifted(i));
      for i := 0 to MAX_SLOTS
        invariant Streaming()
        invariant forall j :: 0 <= j < i ==> aaActive[j] == (old(aaActive)[j] && !Lifted(j))
        invariant forall j :: i <= j < MAX_SLOTS ==> aaActive[j] == old(aaActive)[j]
        invariant old(sent) <= sent && CurrentFrom(|old(sent)|)
        invariant hasHandler ==> |sent| == |old(sent)| + CountTrue(lifts[..i])
        invariant any <==> CountTrue(lifts[..i]) > 0
      {
        assert lifts[..i + 1][..i] == lifts[..i];
        if slots[i].dirty && !consumed[i] && aaActive[i] {
          if Touching(prevSlots[i]) && !Touching(slots[i]) {
            Retire(i);
            any := true;
          }
        }
      }
      assert lifts[..MAX_SLOTS] == lifts;
    }

    /** Admit unclaimed presses one at a time. */
    method AdmitPressed(consumed: seq<bool>) returns (ghost presses: seq<bool>, any: bool)
      requires Streaming() && |consumed| == MAX_SLOTS
      requires forall i :: 0 <= i < MAX_SLOTS && aaActive[i] ==> Touching(prevSlots[i])
      modifies this`sent, this`aaActive
      ensures Streaming() && |presses| == MAX_SLOTS
      ensures forall i :: 0 <= i < MAX_SLOTS ==> presses[i] == (Pressed(i) && !consumed[i])
      ensures forall i :: 0 <= i < MAX_SLOTS ==> aaActive[i] == (old(aaActive)[i] || presses[i])
      ensures old(sent) <= sent && CurrentFrom(|old(sent)|)
      ensures hasHandler ==> |sent| == |old(sent)| + CountTrue(presses)
      ensures any <==> CountTrue(presses) > 0
    {
      hide LegalStream, Current;
      any := false;
      presses := seq(MAX_SLOTS, i requires 0 <= i < MAX_SLOTS reads this requires Streaming() && |consumed| == MAX_SLOTS => Pressed(i) && !consumed[i]);
      for i := 0 to MAX_SLOTS
        invariant Streaming()
        invariant forall j :: 0 <= j < i ==> aaActive[j] == (old(aaActive)[j] || presses[j])
        invariant forall j :: i <= j < MAX_SLOTS ==> aaActive[j] == old(aaActive)[j]
        invariant old(sent) <= sent && CurrentFrom(|old(sent)|)
        invariant hasHandler ==> |sent| == |old(sent)| + CountTrue(presses[..i])
        invariant any <==> CountTrue(presses[..i]) > 0
      {
        assert presses[..i + 1][..i] == presses[..i];
        if slots[i].dirty && !consumed[i] {
          if !Touching(prevSlots[i]) && Touching(slots[i]) {
            Admit(i);
            any := true;
          }
        }
      }
      assert presses[..MAX_SLOTS] == presses;
    }

    /** A MOVE when some phone-visible pointer moved and nothing else was sent. */
    method ReportMove(consumed: seq<bool>, sentBoundaryEvent: bool, ghost visible: seq<bool>)
      requires Streaming() && |consumed| == |visible| == MAX_SLOTS
      requires forall i :: 0 <= i < MAX_SLOTS && visible[i] ==> !consumed[i]
      requires forall i :: 0 <= i < MAX_SLOTS && Touching(prevSlots[i]) && Touching(slots[i]) ==> aaActive[i] == visible[i]
      modifies this`sent
      ensures Streaming() && old(sent) <= sent && CurrentFrom(|old(sent)|)
      ensures hasHandler ==>
                |sent| == |old(sent)| + if !sentBoundaryEvent && AnyMoved(visible) then 1 else 0
    {
      hide Pointers, PointerFor, LegalMessage, After, LegalStream, MapX, MapY;
      var anyMoved := false;
      for i := 0 to MAX_SLOTS
        invariant anyMoved <==> exists j :: 0 <= j < i && visible[j] && Shifted(j)
      {
        if slots[i].dirty && !consumed[i] && aaActive[i] && Touching(slots[i]) && Touching(prevSlots[i]) {
          if slots[i].x != prevSlots[i].x || slots[i].y != prevSlots[i].y {
            anyMoved := true;
            assert visible[i] && Shifted(i);
            break;
          }
        }
      }
      if anyMoved && !sentBoundaryEvent {
        ghost var j :| 0 <= j < MAX_SLOTS && visible[j] && Shifted(j);
        assert Shifted(j);
        assert aaActive[j];
        var pointers := BuildAaPointers();
        PointersAre(aaActive, slots, prevSlots, mapping, MAX_SLOTS);
        PointerIds(aaActive, slots, prevSlots, mapping);
        PointerListed(aaActive, slots, prevSlots, mapping, MAX_SLOTS, j);
        MoveIsLegal(aaActive, pointers);
        if hasHandler && pointers != [] {
          StreamAppend(sent, DownSet(aaActive), Message(pointers, 0, ACTION_MOVE));
          sent := sent + [Message(pointers, 0, ACTION_MOVE)];
        }
      }
    }

    ghost predicate AnyMoved(visible: seq<bool>)
      reads this
      requires |slots| == |prevSlots| == |visible|
    {
      exists j :: 0 <= j < |slots| && visible[j] && Shifted(j)
    }

    /** Forward what the zones left: lifts, then presses, then a move if there were neither. */
    method ForwardSync(consumed: seq<bool>) returns (ghost lifts: seq<bool>, ghost presses: seq<bool>)
      requires Streaming() && |consumed| == MAX_SLOTS
      requires forall i :: 0 <= i < MAX_SLOTS && aaActive[i] ==> !consumed[i] && Touching(prevSlots[i])
      modifies this`sent, this`aaActive
      ensures Streaming() && old(sent) <= sent && CurrentFrom(|old(sent)|)
      ensures |lifts| == |presses| == MAX_SLOTS
      ensures forall i :: 0 <= i < MAX_SLOTS ==> lifts[i] == (old(aaActive)[i] && Lifted(i))
      ensures forall i :: 0 <= i < MAX_SLOTS ==> presses[i] == (Pressed(i) && !consumed[i])
      ensures forall i :: 0 <= i < MAX_SLOTS ==> aaActive[i] == ((old(aaActive)[i] && !lifts[i]) || presses[i])
      ensures hasHandler ==>
                var boundary := CountTrue(lifts) + CountTrue(presses);
                |sent| == |old(sent)| + if boundary > 0 then boundary else if AnyMoved(old(aaActive)) then 1 else 0
    {
      hide LegalStream, Current, CountTrue;
      ghost var visible := aaActive;
      var anyUp, anyDown;
      lifts, anyUp := RetireLifted(consumed);
      presses, anyDown := AdmitPressed(consumed);
      ReportMove(consumed, anyUp || anyDown, visible);
    }

    /** One report of a grabbed device. During a gesture everything is lifted. Otherwise each
        lifted pointer and each unclaimed press costs one message, and only when there are none
        does a move cost one. */
    method ProcessSync(now: int) returns (ghost lifts: seq<bool>, ghost presses: seq<bool>)
      requires Valid() && deviceGrabbed
      modifies this, router`claimed
      ensures Valid() && deviceGrabbed && deviceOpen == old(deviceOpen) && mapping == old(mapping)
      ensures old(sent) <= sent && prevSlots == slots
      ensures forall i :: 0 <= i < MAX_SLOTS ==> slots[i] == old(slots)[i].(dirty := false)
      ensures forall k :: |old(sent)| <= k < |sent| ==> Current(sent[k], old(slots), old(prevSlots), mapping)
      ensures gestureActive ==> DownSet(aaActive) == {}
                                && (hasHandler ==> |sent| == |old(sent)| + CountTrue(old(aaActive)))
      ensures !gestureActive ==>
                && |lifts| == |presses| == MAX_SLOTS
                && (forall i :: 0 <= i < MAX_SLOTS ==> lifts[i] == (old(aaActive)[i] && old(Lifted(i))))
                && (forall i :: 0 <= i < MAX_SLOTS ==>
                      presses[i] == (old(Pressed(i)) && !old(PressTaken(i, router.claimed))))
                && (forall i :: 0 <= i < MAX_SLOTS ==> aaActive[i] == ((old(aaActive)[i] && !lifts[i]) || presses[i]))
                && (hasHandler ==>
                      var boundary := CountTrue(lifts) + CountTrue(presses);
                      |sent| == |old(sent)|
                                + if boundary > 0 then boundary else if old(AnyMoved(aaActive)) then 1 else 0)
    {
      hide LegalStream, Current, CountTrue;
      lifts, presses := [], [];
      var gestureBlocking := CheckGesture(now);
      forall i | 0 <= i < MAX_SLOTS
        ensures Settled(i)
      {
        assert old(Settled(i));
      }
      var consumed := DispatchAll();
      if gestureBlocking {
        ReleaseAaTouchStream();
        SettleSlots();
        return;
      }
      label dispatched:
      forall i | 0 <= i < MAX_SLOTS && aaActive[i]
        ensures Touching(prevSlots[i])
      {
        assert old@dispatched(Settled(i));
      }
      lifts, presses := ForwardSync(consumed);
      SettleSlots();
      forall i | 0 <= i < MAX_SLOTS
        ensures Settled(i)
      {
        assert old@dispatched(Settled(i));
      }
    }

    /** One SYN_REPORT. Without the grab only the gesture is tracked, and nothing is sent. */
    method Sync(now: int)
      requires Valid()
      modifies this, router`claimed
      ensures Valid() && old(sent) <= sent && prevSlots == slots
      ensures deviceGrabbed == old(deviceGrabbed) && deviceOpen == old(deviceOpen)
      ensures !deviceGrabbed || gestureActive ==> DownSet(aaActive) == {}
      ensures !deviceGrabbed ==> sent == old(sent)
    {
      if deviceGrabbed {
        ghost var lifts, presses := ProcessSync(now);
      } else {
        var blocking := CheckGesture(now);
        SettleSlots();
        forall i | 0 <= i < MAX_SLOTS
          ensures Settled(i)
        {
          assert old(Settled(i));
          assert i in DownSet(aaActive) <==> aaActive[i];
        }
      }
    }

    /** The reader thread, on any sequence of things that can happen to it: whatever the
        order, the phone has seen a legal stream, and between events nothing is down while the
        device is not grabbed or a gesture is on. */
    method Run(inputs: seq<Input>)
      requires Valid()
      requires forall i :: 0 <= i < |inputs| ==> inputs[i].Possible()
      modifies this, router
      ensures Valid() && old(sent) <= sent
      ensures hasHandler ==> LegalStream(sent, DownSet(aaActive))
      ensures !deviceGrabbed || gestureActive ==> DownSet(aaActive) == {}
    {
      for n := 0 to |inputs|
        invariant Valid() && old(sent) <= sent
      {
        match inputs[n] {
          case Axis(ev) => HandleEvent(ev);
          case Report(now) => Sync(now);
          case Grab(requested, done) => ApplyRequestedGrab(requested, done);
          case Lost => DeviceLost();
          case Opened => if !deviceOpen { Open(); }
          case Remapped(c, w, h) => ApplyMapping(c, w, h);
          case Rezoned(zones) => ReplaceZones(zones);
        }
      }
    }
  }

  /** What can reach the reader between two turns of its loop. */
  datatype Input =
    | Axis(ev: Event)
    | Report(now: int)
    | Grab(requested: bool, done: bool)
    | Lost
    | Opened
    | Remapped(config: Config, screenWidth: int, screenHeight: int)
    | Rezoned(zones: seq<TouchZone>)
  {
    ghost predicate Possible() {
      Remapped? ==> Drawable(config) && screenWidth >= 1 && screenHeight >= 1
    }
  }
}
