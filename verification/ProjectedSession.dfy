/** One projected display: protocol events and the decoder's queued signals drive a latched
    state machine. */
module ProjectedSession {
  import opened Results
  import opened VideoDecoding

  datatype Role = Main | Cluster

  datatype State = Disabled | Disconnected | WaitingForChannel | Rejected | WaitingForFrames | Rendering | Error

  /** What happened to streams: one began; something ended whatever was running; a picture of a
      stream put the display in its rendering state. */
  datatype Mark = Began(generation: nat) | Broke | Rendered(generation: nat)

  /** The stream that runs after a history: the last one begun, unless something broke since. */
  function Running(history: seq<Mark>): nat {
    if history == [] then 0
    else
      match history[|history| - 1]
      case Began(generation) => generation
      case Broke => 0
      case Rendered(_) => Running(history[..|history| - 1])
  }

  /** A running stream has begun, and since then nothing stopped or restarted it. */
  lemma {:induction false} RunningBegan(history: seq<Mark>) returns (at: nat)
    requires Running(history) != 0
    ensures at < |history| && history[at] == Began(Running(history))
    ensures forall k :: at < k < |history| ==> history[k].Rendered?
  {
    at := |history| - 1;
    if history[at].Rendered? {
      at := RunningBegan(history[..at]);
    }
  }

  /** Whatever rendered belonged to the stream running at that moment. */
  ghost predicate RenderedLive(history: seq<Mark>) {
    forall k :: 0 <= k < |history| && history[k].Rendered? ==>
      history[k].generation != 0 && Running(history[..k]) == history[k].generation
  }

  lemma RenderedLiveGrows(history: seq<Mark>, mark: Mark)
    requires RenderedLive(history) && (mark.Rendered? ==> mark.generation != 0 && Running(history) == mark.generation)
    ensures RenderedLive(history + [mark])
  {
    var longer := history + [mark];
    forall k | 0 <= k < |longer| && longer[k].Rendered?
      ensures longer[k].generation != 0 && Running(longer[..k]) == longer[k].generation
    {
      assert longer[..k] == history[..k];
      if k == |history| { assert history[..k] == history; }
    }
  }

  lemma RunningAfter(history: seq<Mark>, mark: Mark)
    ensures Running(history + [mark])
            == match mark { case Began(g) => g case Broke => 0 case Rendered(_) => Running(history) }
  {
    assert (history + [mark])[..|history|] == history;
  }

  /** Streams begin under ever new generations. */
  ghost predicate BegunInOrder(history: seq<Mark>, newest: nat) {
    && (forall i :: 0 <= i < |history| && history[i].Began? ==> 0 < history[i].generation <= newest)
    && (forall i, j :: 0 <= i < j < |history| && history[i].Began? && history[j].Began? ==>
          history[i].generation < history[j].generation)
  }

  /** A stream that put the display in its rendering state had begun, once, and nothing had
      stopped, restarted or replaced it since. */
  lemma RenderedStory(history: seq<Mark>, newest: nat, k: nat) returns (at: nat)
    requires RenderedLive(history) && BegunInOrder(history, newest) && k < |history| && history[k].Rendered?
    ensures at < k && history[at] == Began(history[k].generation)
    ensures forall i :: at < i < k ==> history[i].Rendered?
    ensures forall i :: 0 <= i < |history| && history[i] == history[at] ==> i == at
  {
    at := RunningBegan(history[..k]);
    assert history[..k][at] == history[at];
    assert forall i :: at < i < k ==> history[i] == history[..k][i];
  }

  /** A picture shown on the sink, and the stream that was active then. */
  datatype Shown = Shown(picture: Picture, generation: nat)

  class ProjectedDisplaySession {
    const role: Role
    const enabled: bool
    const videoChannelId: int
    const inputChannelId: int
    const expectedWidth: int
    const expectedHeight: int
    /** Used only while the display is enabled. */
    const decoder: VideoDecoder
    var state: State
    var statusText: string
    var protocolActive: bool
    var terminalStateLatched: bool
    var videoChannelOpen: bool
    var protocolGeneration: nat
    var activeDecoderGeneration: nat
    ghost var history: seq<Mark>
    ghost var shown: seq<Shown>

    /** Rendering needs a protocol session and a running stream; a running stream is the newest
        one the decoder gave out; the terminal states are exactly the latched ones; and every
        picture shown came from data received in the stream active when it was shown. */
    ghost predicate Valid()
      reads this, decoder
    {
      && decoder.Valid()
      && (state == Rendering ==> protocolActive && activeDecoderGeneration != 0)
      && (activeDecoderGeneration != 0 ==> protocolActive && !terminalStateLatched && activeDecoderGeneration == decoder.nextGeneration)
      && (!enabled ==> state == Disabled && !protocolActive && !terminalStateLatched)
      && (enabled ==> state != Disabled)
      && (terminalStateLatched <==> state == Rejected || state == Error)
      && (terminalStateLatched ==> protocolActive)
      && activeDecoderGeneration == Running(history) && RenderedLive(history) && BegunInOrder(history, decoder.nextGeneration)
      && (forall s :: s in shown ==> s.picture.stream == s.generation && s.generation != 0)
    }

    constructor (r: Role, on: bool, video: int, input: int, width: int, height: int, worker: bool)
      ensures Valid() && state == (if on then Disconnected else Disabled) && fresh(decoder)
      ensures role == r && enabled == on && videoChannelId == video && inputChannelId == input
    {
      role, enabled, videoChannelId, inputChannelId, expectedWidth, expectedHeight := r, on, video, input, width, height;
      decoder := new VideoDecoder(worker);
      state := if on then Disconnected else Disabled;
      statusText := if on then "Android Auto disconnected" else "Projected display disabled";
      protocolActive, terminalStateLatched, videoChannelOpen := false, false, false;
      protocolGeneration, activeDecoderGeneration := 0, 0;
      history, shown := [], [];
    }

    ghost method Note(mark: Mark, before: nat)
      requires BegunInOrder(history, before) && (mark.Began? ==> mark.generation > before)
      requires RenderedLive(history) && (mark.Rendered? ==> mark.generation != 0 && Running(history) == mark.generation)
      modifies this`history
      ensures history == old(history) + [mark] && RenderedLive(history)
      ensures BegunInOrder(history, if mark.Began? then mark.generation else before)
      ensures Running(history) == match mark { case Began(g) => g case Broke => 0 case Rendered(_) => Running(old(history)) }
    {
      RenderedLiveGrows(history, mark);
      RunningAfter(history, mark);
      history := history + [mark];
    }

    method SetState(next: State, text: string)
      modifies this`state, this`statusText
      ensures state == next && statusText == text
    {
      if state == next && statusText == text { return; }
      state := next;
      statusText := text;
    }

    method EnterTerminalState(next: State, text: string)
      requires enabled && protocolActive && decoder.Valid() && (next == Rejected || next == Error)
      requires RenderedLive(history) && BegunInOrder(history, decoder.nextGeneration)
      requires forall s :: s in shown ==> s.picture.stream == s.generation && s.generation != 0
      modifies this, decoder
      ensures Valid() && state == next && terminalStateLatched
      ensures unchanged(`protocolActive, `videoChannelOpen, `protocolGeneration, `shown)
      ensures history == old(history) + [Broke]
      ensures decoder.signals == old(decoder.signals)
    {
      hide RenderedLive, BegunInOrder, Running, VideoDecoder.Valid;
      Note(Broke, decoder.nextGeneration);
      terminalStateLatched := true;
      activeDecoderGeneration := 0;
      decoder.End();
      SetState(next, text);
    }

    // ---- Protocol session ----

    method BeginProtocolSession()
      requires Valid()
      modifies this, decoder
      ensures Valid() && history == old(history) + [Broke] + (if enabled && !decoder.hasWorker then [Broke] else [])
      ensures !enabled ==> unchanged(`state, `protocolActive, `activeDecoderGeneration)
      ensures enabled ==> protocolActive && activeDecoderGeneration == 0
                          && state == if decoder.hasWorker then WaitingForChannel else Error
      ensures shown == old(shown)
    {
      hide RenderedLive, BegunInOrder, Running, VideoDecoder.Valid;
      Note(Broke, decoder.nextGeneration);
      if !enabled { return; }
      protocolGeneration := protocolGeneration + 1;
      protocolActive := true;
      terminalStateLatched := false;
      videoChannelOpen := false;
      activeDecoderGeneration := 0;
      if !decoder.hasWorker {
        EnterTerminalState(Error, "Projected decoder unavailable");
        return;
      }
      SetState(WaitingForChannel, "Waiting for projected channel");
    }

    method EndProtocolSession()
      requires Valid()
      modifies this, decoder
      ensures Valid() && history == old(history) + [Broke] && activeDecoderGeneration == 0 && !protocolActive
      ensures state == if enabled then Disconnected else Disabled
      ensures shown == old(shown)
    {
      hide RenderedLive, BegunInOrder, Running, VideoDecoder.Valid;
      Note(Broke, decoder.nextGeneration);
      if !enabled { return; }
      protocolActive := false;
      terminalStateLatched := false;
      videoChannelOpen := false;
      activeDecoderGeneration := 0;
      decoder.End();
      SetState(Disconnected, "Android Auto disconnected");
    }

    // ---- Channels ----

    method NoteChannelOpened(channelId: int)
      requires Valid()
      modifies this, decoder
      ensures Valid() && history == old(history) + (if channelId == videoChannelId then [Broke] else [])
      ensures old(terminalStateLatched) || old(!protocolActive) || channelId != videoChannelId ==> state == old(state)
      ensures old(!terminalStateLatched) && old(protocolActive) && channelId == videoChannelId ==>
                state == WaitingForFrames && videoChannelOpen
      ensures terminalStateLatched == old(terminalStateLatched) && shown == old(shown)
    {
      hide RenderedLive, BegunInOrder, Running, VideoDecoder.Valid;
      if channelId == videoChannelId { Note(Broke, decoder.nextGeneration); }
      if !enabled || terminalStateLatched { return; }
      if !protocolActive { return; }
      if channelId == videoChannelId {
        activeDecoderGeneration := 0;
        decoder.End();
        videoChannelOpen := true;
        SetState(WaitingForFrames, "Waiting for projected frames");
      }
    }

    method NoteChannelClosed(channelId: int)
      requires Valid()
      modifies this, decoder
      ensures Valid() && history == old(history) + (if channelId == videoChannelId then [Broke] else [])
      ensures old(terminalStateLatched) || old(!protocolActive) || channelId != videoChannelId ==> state == old(state)
      ensures old(!terminalStateLatched) && old(protocolActive) && channelId == videoChannelId ==>
                state == WaitingForChannel && !videoChannelOpen
      ensures terminalStateLatched == old(terminalStateLatched) && shown == old(shown)
    {
      hide RenderedLive, BegunInOrder, Running, VideoDecoder.Valid;
      if channelId == videoChannelId { Note(Broke, decoder.nextGeneration); }
      if !enabled || !protocolActive || terminalStateLatched { return; }
      if channelId == videoChannelId {
        videoChannelOpen := false;
        activeDecoderGeneration := 0;
        decoder.End();
        SetState(WaitingForChannel, "Waiting for projected channel");
      }
    }

    method NoteChannelRejected(channelId: int)
      requires Valid()
      modifies this, decoder
      ensures Valid() && shown == old(shown)
      ensures if old(protocolActive) && old(!terminalStateLatched) && (channelId == videoChannelId || channelId == inputChannelId)
              then state == Rejected && history == old(history) + [Broke]
              else state == old(state) && history == old(history)
    {
      hide RenderedLive, BegunInOrder, Running, VideoDecoder.Valid;
      if !enabled || !protocolActive || terminalStateLatched { return; }
      if channelId != videoChannelId && channelId != inputChannelId { return; }
      EnterTerminalState(Rejected, "Phone rejected projected display");
    }

    // ---- The video stream ----

    method StreamStarted()
      requires Valid()
      modifies this, decoder
      ensures Valid() && shown == old(shown)
      ensures old(terminalStateLatched) || old(!protocolActive) ==> unchanged(this)
      ensures old(!terminalStateLatched) && old(protocolActive) ==>
                if decoder.hasWorker
                then state == WaitingForFrames && activeDecoderGeneration == old(decoder.nextGeneration) + 1
                     && history == old(history) + [Began(activeDecoderGeneration)]
                else state == Error && history == old(history) + [Broke]
    {
      hide RenderedLive, BegunInOrder, Running, VideoDecoder.Valid;
      if !protocolActive { return; }
      if terminalStateLatched || !enabled { return; }
      activeDecoderGeneration := decoder.Begin();
      if activeDecoderGeneration == 0 {
        EnterTerminalState(Error, "decoder worker unavailable");
        return;
      }
      Note(Began(activeDecoderGeneration), activeDecoderGeneration - 1);
      SetState(WaitingForFrames, "Waiting for projected frames");
    }

    method StreamStopped()
      requires Valid()
      modifies this, decoder
      ensures Valid() && history == old(history) + [Broke] && shown == old(shown)
      ensures old(terminalStateLatched) || old(!protocolActive) ==> state == old(state)
      ensures old(!terminalStateLatched) && old(protocolActive) ==>
                state == if videoChannelOpen then WaitingForFrames else WaitingForChannel
      ensures terminalStateLatched == old(terminalStateLatched)
    {
      hide RenderedLive, BegunInOrder, Running, VideoDecoder.Valid;
      Note(Broke, decoder.nextGeneration);
      if !protocolActive || terminalStateLatched || !enabled { return; }
      activeDecoderGeneration := 0;
      decoder.End();
      SetState(if videoChannelOpen then WaitingForFrames else WaitingForChannel,
               if videoChannelOpen then "Waiting for projected frames" else "Waiting for projected channel");
    }

    /** Compressed data of the running stream goes to the decoder; without one it is dropped. */
    method VideoFrameData()
      requires Valid()
      modifies decoder
      ensures Valid() && unchanged(this)
    {
      hide RenderedLive, BegunInOrder, Running, VideoDecoder.Valid;
      if !protocolActive || terminalStateLatched || !enabled || activeDecoderGeneration == 0 { return; }
      decoder.DecodeFrame(activeDecoderGeneration);
    }

    // ---- The decoder's signals ----

    /** A picture waits whose size is not the one the cluster display was opened with. */
    predicate WrongSize()
      reads decoder
    {
      role == Cluster && decoder.latestFrame.Some?
      && (decoder.latestFrame.value.width != expectedWidth || decoder.latestFrame.value.height != expectedHeight)
    }

    /** What the delivery of the oldest signal does to the stream. */
    ghost function DeliveryMarks(): seq<Mark>
      requires decoder.signals != []
      reads this, decoder
    {
      var signal := decoder.signals[0];
      if terminalStateLatched || signal.generation == 0 || signal.generation != activeDecoderGeneration then []
      else
        match signal
        case FrameReady(g) => if WrongSize() then [Broke] else [Rendered(g)]
        case StreamError(_) => [Broke]
        case StreamEnded(_) => []
    }

    /** The decoder's oldest signal reaches the session. A signal of any stream but the running
        one changes nothing. */
    method DeliverSignal()
      requires Valid() && decoder.signals != []
      modifies this, decoder
      ensures Valid()
      ensures var signal := old(decoder.signals)[0];
              !(signal.generation == old(activeDecoderGeneration) && signal.generation != 0) || signal.StreamEnded? ==>
                unchanged(this)
      ensures old(terminalStateLatched) ==> unchanged(this)
      ensures history == old(history) + old(DeliveryMarks())
    {
      hide RenderedLive, BegunInOrder, Running;
      assert decoder.signals[0].generation <= decoder.streamGeneration <= decoder.nextGeneration;
      assert decoder.latestFrame.Some? ==> decoder.latestFrame.value.stream == decoder.streamGeneration;
      hide VideoDecoder.Valid;
      var signal := decoder.TakeSignal();
      match signal
      case FrameReady(generation) => OnFrameReady(generation);
      case StreamError(generation) => OnStreamError(generation);
      case StreamEnded(_) =>
    }

    method OnFrameReady(generation: nat)
      requires Valid() && generation <= decoder.streamGeneration <= decoder.nextGeneration
      requires decoder.latestFrame.Some? ==> decoder.latestFrame.value.stream == decoder.streamGeneration
      modifies this, decoder
      ensures Valid()
      ensures old(terminalStateLatched) || generation != old(activeDecoderGeneration) || generation == 0 ==> unchanged(this)
      ensures !old(terminalStateLatched) && generation == old(activeDecoderGeneration) && generation != 0 ==>
                if old(WrongSize()) then
                  state == Error && history == old(history) + [Broke] && shown == old(shown)
                else
                  && state == Rendering && history == old(history) + [Rendered(generation)]
                  && shown == old(shown) + match old(decoder.latestFrame)
                                           case None => []
                                           case Some(picture) => [Shown(picture, generation)]
    {
      hide RenderedLive, BegunInOrder, Running, VideoDecoder.Valid;
      if !protocolActive || terminalStateLatched || generation == 0 || generation != activeDecoderGeneration { return; }
      var frame := decoder.TakeLatestFrame();
      if frame.Some? {
        if role == Cluster && (frame.value.width != expectedWidth || frame.value.height != expectedHeight) {
          EnterTerminalState(Error, "Projected frame geometry mismatch");
          return;
        }
        shown := shown + [Shown(frame.value, activeDecoderGeneration)];
      }
      Note(Rendered(generation), decoder.nextGeneration);
      SetState(Rendering, "Rendering projected display");
    }

    method OnStreamError(generation: nat)
      requires Valid()
      modifies this, decoder
      ensures Valid()
      ensures old(terminalStateLatched) || generation != old(activeDecoderGeneration) || generation == 0 ==> unchanged(this)
      ensures !old(terminalStateLatched) && generation == old(activeDecoderGeneration) && generation != 0 ==>
                state == Error && history == old(history) + [Broke] && shown == old(shown)
    {
      hide RenderedLive, BegunInOrder, Running, VideoDecoder.Valid;
      if !protocolActive || terminalStateLatched || generation == 0 || generation != activeDecoderGeneration { return; }
      EnterTerminalState(Error, "decoder error");
    }
  }

  // ---- Whole runs ----

  datatype Event =
    | BeginProtocol | EndProtocol
    | Opened(channelId: int) | Closed(channelId: int) | Refused(channelId: int)
    | Started | Stopped | Media
    | Take | Finish(outcome: Outcome) | Deliver

  /** The marks an event leaves in the history. */
  ghost function Marks(s: ProjectedDisplaySession, e: Event): seq<Mark>
    reads s, s.decoder
  {
    match e
    case BeginProtocol => [Broke] + if s.enabled && !s.decoder.hasWorker then [Broke] else []
    case EndProtocol => [Broke]
    case Opened(channelId) => if channelId == s.videoChannelId then [Broke] else []
    case Closed(channelId) => if channelId == s.videoChannelId then [Broke] else []
    case Refused(channelId) =>
      if s.protocolActive && !s.terminalStateLatched && (channelId == s.videoChannelId || channelId == s.inputChannelId) then [Broke]
      else []
    case Started =>
      if s.terminalStateLatched || !s.protocolActive then []
      else if s.decoder.hasWorker then [Began(s.decoder.nextGeneration + 1)]
      else [Broke]
    case Stopped => [Broke]
    case Deliver => if s.decoder.signals == [] then [] else s.DeliveryMarks()
    case _ => []
  }

  /** The event ends whatever stream was running. */
  predicate Ends(e: Event, videoChannelId: int) {
    e.Stopped? || e.BeginProtocol? || e.EndProtocol? || (e.Opened? && e.channelId == videoChannelId)
    || (e.Closed? && e.channelId == videoChannelId)
  }

  /** Only a beginning makes a stream run. */
  lemma {:induction false} StillNothing(history: seq<Mark>, marks: seq<Mark>)
    requires Running(history) == 0 || (marks != [] && marks[0] == Broke)
    requires forall m :: m in marks ==> !m.Began?
    ensures Running(history + marks) == 0
    decreases |marks|
  {
    if marks == [] {
      assert history + marks == history;
    } else {
      RunningAfter(history, marks[0]);
      assert history + marks == (history + [marks[0]]) + marks[1..];
      StillNothing(history + [marks[0]], marks[1..]);
    }
  }

  method Step(s: ProjectedDisplaySession, e: Event)
    requires s.Valid()
    modifies s, s.decoder
    ensures s.Valid() && s.history == old(s.history) + old(Marks(s, e))
    ensures old(s.terminalStateLatched) && !e.BeginProtocol? && !e.EndProtocol? ==> s.terminalStateLatched && s.state == old(s.state)
    ensures s.state == Rendering && old(s.state) != Rendering ==> e.Deliver?
    ensures Ends(e, s.videoChannelId) || (!e.Started? && old(s.activeDecoderGeneration) == 0) ==> s.activeDecoderGeneration == 0
  {
    hide RenderedLive, BegunInOrder, Running, VideoDecoder.Valid, ProjectedDisplaySession.Valid, Marks;
    RunningIsActive(s);
    EndingMarks(s, e);
    Act(s, e);
    RunningIsActive(s);
    if Ends(e, s.videoChannelId) || (!e.Started? && old(s.activeDecoderGeneration) == 0) {
      StillNothing(old(s.history), old(Marks(s, e)));
    }
  }

  lemma RunningIsActive(s: ProjectedDisplaySession)
    requires s.Valid()
    ensures s.activeDecoderGeneration == Running(s.history)
  {
    hide RenderedLive, BegunInOrder, Running, VideoDecoder.Valid;
  }

  lemma EndingMarks(s: ProjectedDisplaySession, e: Event)
    ensures !e.Started? ==> forall m :: m in Marks(s, e) ==> !m.Began?
    ensures Ends(e, s.videoChannelId) ==> Marks(s, e) != [] && Marks(s, e)[0] == Broke && !e.Started?
  {
  }

  method Act(s: ProjectedDisplaySession, e: Event)
    requires s.Valid()
    modifies s, s.decoder
    ensures s.Valid() && s.history == old(s.history) + old(Marks(s, e))
    ensures old(s.terminalStateLatched) && !e.BeginProtocol? && !e.EndProtocol? ==> s.terminalStateLatched && s.state == old(s.state)
    ensures s.state == Rendering && old(s.state) != Rendering ==> e.Deliver?
  {
    hide RenderedLive, BegunInOrder, Running, VideoDecoder.Valid;
    match e
    case BeginProtocol => s.BeginProtocolSession();
    case EndProtocol => s.EndProtocolSession();
    case Opened(channelId) => s.NoteChannelOpened(channelId);
    case Closed(channelId) => s.NoteChannelClosed(channelId);
    case Refused(channelId) => s.NoteChannelRejected(channelId);
    case Started => s.StreamStarted();
    case Stopped => s.StreamStopped();
    case Media => s.VideoFrameData();
    case Take => if s.decoder.inFlight == None && s.decoder.queue != [] { s.decoder.WorkerTake(); }
    case Finish(outcome) => if s.decoder.inFlight.Some? { s.decoder.WorkerFinish(outcome); }
    case Deliver => if s.decoder.signals != [] { s.DeliverSignal(); }
  }

  /** In every interleaving of protocol events, worker steps and signal deliveries: rendering
      means an active protocol session with a running stream, everything shown came from that
      stream's own data, once a stream has ended nothing renders until another one starts, and a
      terminal state outlasts all but the next session begin or end. */
  method Run(s: ProjectedDisplaySession, events: seq<Event>)
    requires s.Valid()
    modifies s, s.decoder
    ensures s.Valid()
    ensures s.state == Rendering ==>
              s.protocolActive && s.activeDecoderGeneration != 0 && s.activeDecoderGeneration == Running(s.history)
    ensures forall k :: k in s.shown ==> k.picture.stream == k.generation
    ensures forall k :: 0 <= k < |events| && Ends(events[k], s.videoChannelId) && NoneStarts(events, k + 1, |events|) ==>
              s.activeDecoderGeneration == 0 && s.state != Rendering
    ensures old(s.terminalStateLatched) && (forall e :: e in events ==> !e.BeginProtocol? && !e.EndProtocol?) ==>
              s.terminalStateLatched && s.state == old(s.state)
  {
    var i := 0;
    while i < |events|
      invariant 0 <= i <= |events| && s.Valid()
      invariant forall k :: 0 <= k < i && Ends(events[k], s.videoChannelId) && NoneStarts(events, k + 1, i) ==>
                  s.activeDecoderGeneration == 0
      invariant old(s.terminalStateLatched) && (forall e :: e in events ==> !e.BeginProtocol? && !e.EndProtocol?) ==>
                  s.terminalStateLatched && s.state == old(s.state)
    {
      assert events[i] in events;
      Step(s, events[i]);
      i := i + 1;
    }
  }

  /** No stream starts from event `from` on, before event `to`. */
  predicate NoneStarts(events: seq<Event>, from: nat, to: nat)
    requires to <= |events|
  {
    forall j :: from <= j < to ==> !events[j].Started?
  }
}
