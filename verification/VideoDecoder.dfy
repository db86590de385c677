/** The decoder's worker queue: stream boundaries and compressed frames, handled by a worker
    thread whose steps interleave with the owner's. */
module VideoDecoding {
  import opened Results

  /** `stream` names the stream a compressed frame was received in. */
  datatype WorkItem = Frame(stream: nat) | BeginStream(generation: nat) | EndStream(generation: nat)

  datatype Picture = Picture(stream: nat, width: int, height: int)

  /** What the worker tells the owner; delivery is queued. */
  datatype Signal = FrameReady(generation: nat) | StreamError(generation: nat) | StreamEnded(generation: nat)

  /** A picture that comes out of the codec, made from one of the frames it was fed since its
      last reset: a codec may hold frames back. */
  datatype Pick = Pick(source: nat, width: int, height: int)

  datatype Outcome = Outcome(pictures: seq<Pick>, failed: bool)

  /** The boundaries among the items, in order. */
  function Boundaries(queue: seq<WorkItem>): seq<WorkItem> {
    if queue == [] then []
    else if queue[0].Frame? then Boundaries(queue[1..])
    else [queue[0]] + Boundaries(queue[1..])
  }

  /** The queue emptied from the front, its boundaries put aside. */
  method DropFrames(queue: seq<WorkItem>) returns (boundaries: seq<WorkItem>)
    ensures boundaries == Boundaries(queue)
  {
    boundaries := [];
    var rest := queue;
    while rest != []
      invariant boundaries + Boundaries(rest) == Boundaries(queue)
      decreases |rest|
    {
      var item := rest[0];
      rest := rest[1..];
      if !item.Frame? { boundaries := boundaries + [item]; }
    }
  }

  /** The pictures that come out of the codec, each made from a frame it was fed. */
  function Emitted(picks: seq<Pick>, fed: seq<nat>): seq<Picture> {
    if picks == [] then []
    else
      var front, pick := Emitted(picks[..|picks| - 1], fed), picks[|picks| - 1];
      if pick.source < |fed| then front + [Picture(fed[pick.source], pick.width, pick.height)] else front
  }

  /** One signal for each of `n` pictures. */
  function Readies(generation: nat, n: nat): seq<Signal> {
    seq(n, _ => FrameReady(generation))
  }

  /** The generation of the last boundary, `before` when there is none. */
  function LastBoundary(queue: seq<WorkItem>, before: nat): nat {
    if queue == [] then before
    else LastBoundary(queue[1..], if queue[0].Frame? then before else queue[0].generation)
  }

  /** Boundaries come first, in generation order from `low` on, then frames of the newest stream. */
  ghost predicate Ordered(queue: seq<WorkItem>, low: nat, newest: nat) {
    && (forall i :: 0 <= i < |queue| ==>
          if queue[i].Frame? then queue[i].stream == newest else low <= queue[i].generation <= newest)
    && (forall i, j :: 0 <= i < j < |queue| && queue[i].Frame? ==> queue[j].Frame?)
    && (forall i, j :: 0 <= i < j < |queue| && !queue[i].Frame? && !queue[j].Frame? ==>
          queue[i].generation <= queue[j].generation)
    && LastBoundary(queue, low) == newest
  }

  lemma {:induction false} BoundariesOnly(queue: seq<WorkItem>, before: nat)
    ensures LastBoundary(Boundaries(queue), before) == LastBoundary(queue, before)
    ensures forall b :: b in Boundaries(queue) <==> b in queue && !b.Frame?
  {
    if queue != [] {
      var next := if queue[0].Frame? then before else queue[0].generation;
      BoundariesOnly(queue[1..], next);
      assert queue == [queue[0]] + queue[1..];
      if !queue[0].Frame? { assert Boundaries(queue)[1..] == Boundaries(queue[1..]); }
    }
  }

  lemma {:induction false} BoundariesAscend(queue: seq<WorkItem>, low: nat, high: nat)
    requires forall i :: 0 <= i < |queue| && !queue[i].Frame? ==> low <= queue[i].generation <= high
    requires forall i, j :: 0 <= i < j < |queue| && !queue[i].Frame? && !queue[j].Frame? ==>
               queue[i].generation <= queue[j].generation
    ensures forall i :: 0 <= i < |Boundaries(queue)| ==>
              !Boundaries(queue)[i].Frame? && low <= Boundaries(queue)[i].generation <= high
    ensures forall i, j :: 0 <= i < j < |Boundaries(queue)| ==>
              Boundaries(queue)[i].generation <= Boundaries(queue)[j].generation
  {
    if queue != [] {
      BoundariesAscend(queue[1..], if queue[0].Frame? then low else queue[0].generation, high);
    }
  }

  lemma {:induction false} LastPushed(queue: seq<WorkItem>, item: WorkItem, before: nat)
    ensures LastBoundary(queue + [item], before)
            == if item.Frame? then LastBoundary(queue, before) else item.generation
  {
    if queue != [] {
      assert (queue + [item])[1..] == queue[1..] + [item];
      LastPushed(queue[1..], item, if queue[0].Frame? then before else queue[0].generation);
    }
  }

  /** Dropping the frames and ending with a new boundary keeps the order. */
  lemma BoundaryPushed(queue: seq<WorkItem>, low: nat, newest: nat, item: WorkItem)
    requires Ordered(queue, low, newest) && low <= newest && !item.Frame? && item.generation >= newest
    ensures Ordered(Boundaries(queue) + [item], low, item.generation)
  {
    BoundariesAscend(queue, low, newest);
    LastPushed(Boundaries(queue), item, low);
  }

  lemma FramePushed(queue: seq<WorkItem>, low: nat, newest: nat)
    requires Ordered(queue, low, newest)
    ensures Ordered(queue + [Frame(newest)], low, newest)
  {
    LastPushed(queue, Frame(newest), low);
  }

  /** The head leaves: a boundary raises the floor; a frame can only lead once the floor is the
      newest stream. */
  lemma HeadTaken(queue: seq<WorkItem>, low: nat, newest: nat)
    requires Ordered(queue, low, newest) && queue != []
    ensures queue[0].Frame? ==> low == newest && Ordered(queue[1..], low, newest)
    ensures !queue[0].Frame? ==> Ordered(queue[1..], queue[0].generation, newest)
  {
    if queue[0].Frame? { OnlyFrames(queue, low); }
  }

  lemma {:induction false} OnlyFrames(queue: seq<WorkItem>, before: nat)
    requires forall i :: 0 <= i < |queue| ==> queue[i].Frame?
    ensures LastBoundary(queue, before) == before
  {
    if queue != [] { OnlyFrames(queue[1..], before); }
  }

  class VideoDecoder {
    const hasWorker: bool
    var acceptingFrames: bool
    var queue: seq<WorkItem>
    var nextGeneration: nat
    var inFlight: Option<WorkItem>
    var streamGeneration: nat
    var codecReady: bool
    var fed: seq<nat>
    var latestFrame: Option<Picture>
    var signals: seq<Signal>

    /** The stream the worker is in, or is about to enter. */
    ghost function Entering(): nat
      reads this
    {
      if inFlight.Some? && !inFlight.value.Frame? then inFlight.value.generation else streamGeneration
    }

    /** What the worker holds belongs to the stream it is in, and its signals are of that stream
        or of older ones. */
    ghost predicate Valid()
      reads this
    {
      && streamGeneration <= Entering() <= nextGeneration && Ordered(queue, Entering(), nextGeneration)
      && (inFlight.Some? && inFlight.value.Frame? ==> inFlight.value.stream == streamGeneration)
      && (forall i :: 0 <= i < |fed| ==> fed[i] == streamGeneration)
      && (latestFrame.Some? ==> latestFrame.value.stream == streamGeneration)
      && (forall i :: 0 <= i < |signals| ==> signals[i].generation <= streamGeneration)
    }

    constructor (worker: bool)
      ensures Valid() && hasWorker == worker && nextGeneration == 0 && signals == [] && latestFrame == None
    {
      hasWorker := worker;
      acceptingFrames, queue, nextGeneration, inFlight, streamGeneration := false, [], 0, None, 0;
      codecReady, fed, latestFrame, signals := false, [], None, [];
    }

    // ---- The owner's calls ----

    /** A fresh generation, never given out before; 0 without a worker. Frames still waiting are
        dropped; the boundaries stay, and the beginning comes after them. */
    method Begin() returns (generation: nat)
      requires Valid()
      modifies this`acceptingFrames, this`queue, this`nextGeneration
      ensures Valid()
      ensures !hasWorker ==> generation == 0 && unchanged(this)
      ensures hasWorker ==> generation == nextGeneration == old(nextGeneration) + 1 && acceptingFrames
      ensures hasWorker ==> queue == Boundaries(old(queue)) + [BeginStream(generation)]
    {
      if !hasWorker { return 0; }
      hide Ordered;
      acceptingFrames := true;
      BoundaryPushed(queue, Entering(), nextGeneration, BeginStream(nextGeneration + 1));
      nextGeneration := nextGeneration + 1;
      var boundaries := DropFrames(queue);
      queue := boundaries + [BeginStream(nextGeneration)];
      return nextGeneration;
    }

    /** Frames still waiting are dropped; the boundaries stay, and the end comes after them. */
    method End()
      requires Valid()
      modifies this`acceptingFrames, this`queue
      ensures Valid() && !acceptingFrames
      ensures queue == if hasWorker then Boundaries(old(queue)) + [EndStream(nextGeneration)] else old(queue)
    {
      hide Ordered;
      acceptingFrames := false;
      if hasWorker {
        BoundaryPushed(queue, Entering(), nextGeneration, EndStream(nextGeneration));
        var boundaries := DropFrames(queue);
        queue := boundaries + [EndStream(nextGeneration)];
      }
    }

    /** Frames are never dropped while accepted; outside a stream they are. */
    method DecodeFrame(stream: nat)
      requires Valid() && stream == nextGeneration
      modifies this`queue
      ensures Valid()
      ensures queue == if hasWorker && acceptingFrames then old(queue) + [Frame(stream)] else old(queue)
    {
      hide Ordered;
      if hasWorker && acceptingFrames {
        FramePushed(queue, Entering(), nextGeneration);
        queue := queue + [Frame(stream)];
      }
    }

    /** The newest picture, at most once. */
    method TakeLatestFrame() returns (frame: Option<Picture>)
      requires Valid()
      modifies this`latestFrame
      ensures Valid() && frame == old(latestFrame) && latestFrame == None
    {
      hide Ordered;
      frame := latestFrame;
      latestFrame := None;
    }

    method TakeSignal() returns (signal: Signal)
      requires Valid() && signals != []
      modifies this`signals
      ensures Valid() && signal == old(signals)[0] && signals == old(signals)[1..]
    {
      hide Ordered;
      signal := signals[0];
      signals := signals[1..];
    }

    // ---- The worker's steps ----

    /** The worker takes the next item; the owner may act before it is handled. */
    method WorkerTake()
      requires Valid() && inFlight == None && queue != []
      modifies this`inFlight, this`queue
      ensures Valid() && inFlight == Some(old(queue)[0]) && queue == old(queue)[1..]
    {
      HeadTaken(queue, Entering(), nextGeneration);
      assert queue[0].Frame? ==> queue[0].stream == nextGeneration;
      hide Ordered;
      inFlight := Some(queue[0]);
      queue := queue[1..];
    }

    /** A boundary resets the codec, forgets every picture and names the stream; a frame yields
        what the codec makes of it. */
    method WorkerFinish(outcome: Outcome)
      requires Valid() && inFlight.Some?
      modifies this`inFlight, this`streamGeneration, this`codecReady, this`fed, this`latestFrame, this`signals
      ensures Valid() && inFlight == None
      ensures match old(inFlight).value
              case BeginStream(g) =>
                streamGeneration == g && fed == [] && latestFrame == None && codecReady == !outcome.failed
                && signals == old(signals) + (if outcome.failed then [StreamError(g)] else [])
              case EndStream(g) =>
                streamGeneration == g && fed == [] && latestFrame == None && codecReady == old(codecReady)
                && signals == old(signals) + [StreamEnded(g)]
              case Frame(stream) => streamGeneration == old(streamGeneration) && Processed(stream, outcome)
    {
      hide Ordered;
      var item := inFlight.value;
      inFlight := None;
      match item
      case BeginStream(generation) =>
        streamGeneration, fed, latestFrame := generation, [], None;
        codecReady := !outcome.failed;
        if outcome.failed { signals := signals + [StreamError(generation)]; }
      case EndStream(generation) =>
        streamGeneration, fed, latestFrame := generation, [], None;
        signals := signals + [StreamEnded(generation)];
      case Frame(stream) =>
        ProcessFrame(stream, outcome);
    }

    /** A frame that reaches the codec is fed to it; its pictures are signalled one by one, and the
        last one is the one to show. A failure is signalled once, and the codec takes no more. */
    twostate predicate Processed(stream: nat, outcome: Outcome)
      reads this
    {
      if !old(codecReady) then
        fed == old(fed) && latestFrame == old(latestFrame) && signals == old(signals) && !codecReady
      else
        && fed == old(fed) + [stream] && codecReady == !outcome.failed
        && var pictures := if outcome.failed then [] else Emitted(outcome.pictures, fed);
           && latestFrame == (if pictures == [] then old(latestFrame) else Some(pictures[|pictures| - 1]))
           && signals == old(signals) + (if outcome.failed then [StreamError(streamGeneration)] else Readies(streamGeneration, |pictures|))
    }

    method ProcessFrame(stream: nat, outcome: Outcome)
      requires Valid() && inFlight == None && stream == streamGeneration
      modifies this`codecReady, this`fed, this`latestFrame, this`signals
      ensures Valid() && Processed(stream, outcome)
    {
      hide Ordered;
      if !codecReady { return; }
      fed := fed + [stream];
      if outcome.failed {
        codecReady := false;
        signals := signals + [StreamError(streamGeneration)];
        return;
      }
      var i := 0;
      while i < |outcome.pictures|
        invariant Valid() && inFlight == None && fed == old(fed) + [stream] && 0 <= i <= |outcome.pictures|
        invariant var pictures := Emitted(outcome.pictures[..i], fed);
                  && latestFrame == (if pictures == [] then old(latestFrame) else Some(pictures[|pictures| - 1]))
                  && signals == old(signals) + Readies(streamGeneration, |pictures|)
        modifies this`latestFrame, this`signals
      {
        var pick := outcome.pictures[i];
        assert outcome.pictures[..i + 1][..i] == outcome.pictures[..i];
        if pick.source < |fed| {
          latestFrame := Some(Picture(fed[pick.source], pick.width, pick.height));
          signals := signals + [FrameReady(streamGeneration)];
        }
        i := i + 1;
      }
      assert outcome.pictures[..i] == outcome.pictures;
    }
  }
}
