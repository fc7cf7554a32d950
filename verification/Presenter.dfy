/**
 * EVRCustomPresenter: samples circulate between pool, mixer, scheduler, frame-step queue and display, and
 * come back through the sample-free callback. Each public entry is one step under the object lock.
 */
module Presenter {
  import opened Common
  import opened Media
  import opened FrameStep
  import opened SamplePools

  datatype RenderState = RENDER_STATE_STARTED | RENDER_STATE_STOPPED | RENDER_STATE_PAUSED | RENDER_STATE_SHUTDOWN

  /**
   * What RenegotiateMediaType meets: a type the mixer proposes, whether the presenter supports it, whether it
   * can be adjusted, whether the mixer would take it, whether its samples can be made, whether the mixer does take it.
   */
  datatype Proposal = Proposal(mediaType: nat, supported: bool, adjusted: bool, acceptable: bool, created: bool,
    accepted: bool)

  /** The type that is set when these proposals are gone through, and whether one of them was found good. */
  function Negotiate(proposals: seq<Proposal>, current: Option<nat>, shutdown: bool): (Option<nat>, bool) {
    if proposals == [] then (current, false) else
    var p := proposals[0];
    if !(p.supported && p.adjusted && p.acceptable) then Negotiate(proposals[1..], current, shutdown)
    else if shutdown || !(p.created || current == Some(p.mediaType)) || !p.accepted
    then Negotiate(proposals[1..], None, shutdown)
    else (Some(p.mediaType), true)
  }

  /** The steps up to the mixer's test accept it, and it is set. */
  predicate Tried(p: Proposal) {
    p.supported && p.adjusted && p.acceptable
  }

  /** Proposal i can be set and is accepted; samples are not needed if it is the type that has been set all along. */
  predicate Takes(proposals: seq<Proposal>, current: Option<nat>, i: nat)
    requires i < |proposals|
  {
    && Tried(proposals[i]) && proposals[i].accepted
    && (proposals[i].created
        || (current == Some(proposals[i].mediaType) && forall j :: 0 <= j < i ==> !Tried(proposals[j])))
  }

  lemma TakesRest(proposals: seq<Proposal>, current: Option<nat>, i: nat)
    requires 0 < i < |proposals|
    ensures Takes(proposals, current, i)
       <==> Takes(proposals[1..], if Tried(proposals[0]) then None else current, i - 1)
  {
    var rest := proposals[1..];
    if forall j :: 0 <= j < i - 1 ==> !Tried(rest[j]) {
      forall j | 0 < j < i ensures !Tried(proposals[j]) {
        assert proposals[j] == rest[j - 1];
      }
    } else {
      var j :| 0 <= j < i - 1 && Tried(rest[j]);
      assert Tried(proposals[j + 1]);
    }
  }

  /** The type that is set is the first that takes; without one, it is gone if any was tried, and else as it was. */
  lemma {:induction false} FirstThatTakes(proposals: seq<Proposal>, current: Option<nat>, shutdown: bool)
    returns (i: nat)
    ensures var (mediaType, found) := Negotiate(proposals, current, shutdown);
      if found then
        && i < |proposals| && !shutdown && Takes(proposals, current, i) && mediaType == Some(proposals[i].mediaType)
        && forall j: nat :: j < i ==> !Takes(proposals, current, j)
      else
        && (shutdown || forall j: nat :: j < |proposals| ==> !Takes(proposals, current, j))
        && mediaType == if exists p :: p in proposals && Tried(p) then None else current
  {
    i := 0;
    if proposals != [] && !(Takes(proposals, current, 0) && !shutdown) {
      var rest, left := proposals[1..], if Tried(proposals[0]) then None else current;
      var k := FirstThatTakes(rest, left, shutdown);
      i := k + 1;
      forall j: nat | 0 < j < |proposals| ensures Takes(proposals, current, j) <==> Takes(rest, left, j - 1) {
        TakesRest(proposals, current, j);
      }
      assert proposals == [proposals[0]] + rest;
    }
  }

  /** What the mixer's ProcessOutput answers. */
  datatype Reply = Output | NeedMoreInput | TypeNotSet(proposals: seq<Proposal>) | StreamChange | OtherFailure

  /** What CheckDeviceState finds. */
  datatype Device = Works | WasReset | Fails

  /** Events for the EVR from the delivery of samples. */
  datatype Notice = EC_ERRORABORT | EC_DISPLAY_CHANGED

  /** A sample given to the scheduler: to present now or in time, as a repaint or as a new frame. */
  datatype Delivery = Delivery(sample: Sample, now: bool, repaint: bool)

  /** The new frames among the samples delivered. */
  ghost function NewFrames(log: seq<Delivery>): seq<Sample> {
    if log == [] then [] else
    NewFrames(log[..|log| - 1]) + if log[|log| - 1].repaint then [] else [log[|log| - 1].sample]
  }

  /** The repaints among them. */
  ghost function OldFrames(log: seq<Delivery>): seq<Sample> {
    if log == [] then [] else
    OldFrames(log[..|log| - 1]) + if log[|log| - 1].repaint then [log[|log| - 1].sample] else []
  }

  lemma OneDelivery(log: seq<Delivery>, d: Delivery)
    ensures NewFrames(log + [d]) == NewFrames(log) + if d.repaint then [] else [d.sample]
    ensures OldFrames(log + [d]) == OldFrames(log) + if d.repaint then [d.sample] else []
  {
    assert (log + [d])[..|log|] == log;
  }

  /**
   * What can happen while stepping: a request, frames from the mixer, a repaint, and a sample let go of or
   * reported free.
   */
  datatype Move = MoreSteps(c: nat) | MoreFrames(n: nat) | PaintAgain | LastReference(s: Sample) | ComesBack(s: Sample)

  /** What these moves do to the frame step: requests, and samples that come back. */
  function ControlsOf(moves: seq<Move>): seq<Event> {
    if moves == [] then [] else ControlsOf(moves[..|moves| - 1]) + ControlOf(moves[|moves| - 1])
  }

  function ControlOf(move: Move): seq<Event> {
    match move
    case MoreSteps(c) => [Step(c)]
    case ComesBack(s) => [Free(s)]
    case _ => []
  }

  function StepsIn(moves: seq<Move>): nat {
    if moves == [] then 0 else StepsIn(moves[..|moves| - 1]) + StepsOf(moves[|moves| - 1])
  }

  function StepsOf(move: Move): nat {
    if move.MoreSteps? then move.c else 0
  }

  function FramesIn(moves: seq<Move>): nat {
    if moves == [] then 0 else FramesIn(moves[..|moves| - 1]) + FramesOf(moves[|moves| - 1])
  }

  function FramesOf(move: Move): nat {
    if move.MoreFrames? then move.n else 0
  }

  function RepaintsIn(moves: seq<Move>): nat {
    if moves == [] then 0 else RepaintsIn(moves[..|moves| - 1]) + RepaintsOf(moves[|moves| - 1])
  }

  function RepaintsOf(move: Move): nat {
    if move.PaintAgain? then 1 else 0
  }

  lemma OneMove(moves: seq<Move>, i: nat)
    requires i < |moves|
    ensures ControlsOf(moves[..i + 1]) == ControlsOf(moves[..i]) + ControlOf(moves[i])
    ensures StepsIn(moves[..i + 1]) == StepsIn(moves[..i]) + StepsOf(moves[i])
    ensures FramesIn(moves[..i + 1]) == FramesIn(moves[..i]) + FramesOf(moves[i])
    ensures RepaintsIn(moves[..i + 1]) == RepaintsIn(moves[..i]) + RepaintsOf(moves[i])
  {
    assert moves[..i + 1][..i] == moves[..i] && moves[..i + 1][i] == moves[i];
  }

  /** The steps requested are those of the moves. */
  lemma {:induction false} RequestedIn(first: nat, moves: seq<Move>)
    ensures Requested([Step(first)] + ControlsOf(moves)) == first + StepsIn(moves)
  {
    if moves == [] {
      assert [Step(first)] + [] == [Step(first)] && [Step(first)][..0] == [];
    } else {
      var front, move := moves[..|moves| - 1], moves[|moves| - 1];
      var es := [Step(first)] + ControlsOf(front);
      RequestedIn(first, front);
      if ControlOf(move) == [] {
        assert [Step(first)] + ControlsOf(moves) == es;
      } else {
        assert [Step(first)] + ControlsOf(moves) == es + [ControlOf(move)[0]];
        assert (es + [ControlOf(move)[0]])[..|es|] == es;
      }
    }
  }

  lemma {:induction false} ControlsAreMoves(moves: seq<Move>)
    requires forall m :: m in moves ==> !m.MoreSteps?
    ensures forall e :: e in ControlsOf(moves) ==> !e.Step?
  {
    if moves != [] {
      ControlsAreMoves(moves[..|moves| - 1]);
    }
  }

  datatype Message = FlushSamples | InvalidateMediaType(proposals: seq<Proposal>) | ProcessInput | EndOfStream
                   | StepFrames(cSteps: nat) | CancelStep

  datatype ClockStep = Start(seek: bool) | Restart | Stop | Pause | SetRate(rate: real)

  /** The ways into the presenter, with SampleReleased for the last reference outside going away. */
  datatype Entry = Message(m: Message) | ClockStateSink(c: ClockStep) | Repaint | ReleaseServices
                 | InitServices(clock: bool, found: bool, configured: bool, sink: bool)
                 | SampleReleased(s: Sample) | SampleFreeStep(s: Sample) | SampleFree(s: Sample)

  // ----- What an entry does -----

  /** The presenter and its samples between two entries. */
  datatype Snapshot = Snapshot(
    state: RenderState, fs: FrameStep, rate: real, mediaType: Option<nat>, mixer: bool, notify: bool, ending: bool,
    initialized: bool, pending: nat, free: seq<Sample>, out: set<Sample>, held: set<Sample>,
    generation: nat, nextId: nat, token: nat)

  ghost predicate Sound(s: Snapshot) {
    && Accounted(s.free, s.initialized, s.pending, s.out, s.generation, s.nextId) && s.token == Token(s.generation)
    && (s.mediaType.Some? <==> s.initialized) && (s.mediaType.Some? ==> s.state != RENDER_STATE_SHUTDOWN)
    && s.held <= s.out && (forall x :: x in s.fs.samples ==> x in s.out)
    && s.fs.steps < TWO32
    && (s.fs.state == FRAMESTEP_NONE || Submitted(s.fs.state) ==> s.fs.steps == 0)
    && (s.fs.state == FRAMESTEP_SCHEDULED ==> s.fs.pSampleNoRef.Some?)
  }

  ghost predicate LastReferenceGone(s: Snapshot, x: Sample) {
    x in s.out && x !in s.held && x !in s.fs.samples
  }

  ghost predicate Stale(s: Snapshot, x: Sample) {
    Token(x.generation) != s.token
  }

  function Cancelled(fs: FrameStep): FrameStep {
    FrameStep(FRAMESTEP_NONE, 0, fs.samples, None)
  }

  /** Taking frames from the mixer: clock and services stay as they are, and samples only grow stale. */
  ghost predicate Worked(a: Snapshot, b: Snapshot) {
    b.state == a.state && b.rate == a.rate && b.mixer == a.mixer && a.generation <= b.generation && a.nextId <= b.nextId
  }

  /** What a message leads to. */
  ghost predicate FollowsMessage(m: Message, a: Snapshot, b: Snapshot) {
    if a.state == RENDER_STATE_SHUTDOWN then b == a else
    match m
    case FlushSamples => b == a.(fs := a.fs.(samples := []))
    case InvalidateMediaType(proposals) =>
      && Worked(a, b) && (if a.mixer then b.mediaType == Negotiate(proposals, a.mediaType, false).0 else b == a)
      && (b.generation == a.generation ==> b == a)
    case ProcessInput => Worked(a, b) && (a.mediaType == None ==> b == a.(notify := true))
    case EndOfStream => b == a.(ending := a.notify || Current(a.out, a.generation) != {})
    case StepFrames(c) =>
      if a.state == RENDER_STATE_STARTED then
        b == a.(fs := b.fs, held := b.held) && b.fs.state != FRAMESTEP_WAITING_START
      else b == a.(fs := a.fs.(steps := (a.fs.steps + c) % TWO32, state := FRAMESTEP_WAITING_START))
    case CancelStep => b == a.(fs := Cancelled(a.fs))
  }

  ghost predicate FollowsClock(c: ClockStep, a: Snapshot, b: Snapshot) {
    if a.state == RENDER_STATE_SHUTDOWN then b == a else
    match c
    case Start(seek) => Worked(a.(state := RENDER_STATE_STARTED), b)
    case Restart => Worked(a.(state := RENDER_STATE_STARTED), b)
    case Stop =>
      var flushed := a.fs.(samples := []);
      if a.state == RENDER_STATE_STOPPED then b == a
      else
        b == a.(state := RENDER_STATE_STOPPED,
                fs := if a.fs.state == FRAMESTEP_NONE then flushed else Cancelled(flushed))
    case Pause => b == a.(state := RENDER_STATE_PAUSED)
    case SetRate(rate) =>
      b == a.(rate := rate, fs := if a.rate == 0.0 && rate != 0.0 then Cancelled(a.fs).(samples := []) else a.fs)
  }

  /** What an entry leads to. */
  ghost predicate Follows(e: Entry, a: Snapshot, b: Snapshot) {
    match e
    case Message(m) => FollowsMessage(m, a, b)
    case ClockStateSink(c) => FollowsClock(c, a, b)
    case Repaint => Worked(a, b) && (a.state == RENDER_STATE_SHUTDOWN ==> b == a)
    case InitServices(clock, found, configured, sink) =>
      if a.state in {RENDER_STATE_STARTED, RENDER_STATE_PAUSED} then b == a
      else b == a.(mixer := found, state := if found && configured && sink then RENDER_STATE_STOPPED else a.state)
    case ReleaseServices =>
      && b.state == RENDER_STATE_SHUTDOWN && !b.mixer && b.mediaType == None && b.generation == a.generation + 1
      && b.free == [] && b.out == a.out && b.held == a.held && b.fs == a.fs.(samples := [])
    case SampleReleased(s) => b == a.(held := a.held - {s})
    case SampleFreeStep(s) =>
      b == if a.fs.state == FRAMESTEP_SCHEDULED && a.fs.pSampleNoRef == Some(s)
           then a.(fs := a.fs.(state := FRAMESTEP_COMPLETE, pSampleNoRef := None)) else a
    case SampleFree(s) =>
      if !LastReferenceGone(a, s) || (s.generation < a.generation && (a.generation - s.generation) % TWO32 == 0) then
        b == a
      else if Stale(a, s) then b == a.(out := a.out - {s})
      else Worked(a, b)
  }

  class EVRCustomPresenter {
    const m_SamplePool: SamplePool
    var m_RenderState: RenderState
    var m_FrameStep: FrameStep
    var m_TokenCounter: nat
    var m_bSampleNotify: bool
    var m_bRepaint: bool
    var m_bPrerolled: bool
    var m_bEndStreaming: bool
    var m_fRate: real
    var m_pClock: bool     // is there a clock
    var m_pMixer: bool     // is there a mixer
    var m_pMediaType: Option<nat>

    var mixer: seq<Reply>  // the mixer's answers to come; after them it needs more input
    var device: seq<Device>  // what the device's state will be found to be; after these it works
    var passed: seq<bool>  // has the sample's time passed; after these it has not

    var generation: nat    // how often the token has been counted up
    var nextId: nat        // samples made so far
    var out: set<Sample>   // outside the pool: in use, or released and not yet reported free
    var held: set<Sample>  // with the scheduler or on display
    ghost var shown: seq<Delivery>    // every sample given to the scheduler
    ghost var discarded: seq<Sample>  // every frame thrown away while stepping
    ghost var notices: seq<Notice>

    constructor ()
      ensures Inv() && fresh(m_SamplePool) && m_RenderState == RENDER_STATE_SHUTDOWN
      ensures device == [] && passed == [] && mixer == [] && m_FrameStep == FrameStep(FRAMESTEP_NONE, 0, [], None)
      ensures !m_bSampleNotify && !m_bRepaint && !m_bPrerolled && !m_bEndStreaming && m_fRate == 1.0
      ensures !m_pClock && !m_pMixer && m_pMediaType == None
    {
      m_SamplePool := new SamplePool();
      m_RenderState := RENDER_STATE_SHUTDOWN;
      m_FrameStep := FrameStep(FRAMESTEP_NONE, 0, [], None);
      m_TokenCounter := 0;
      m_bSampleNotify, m_bRepaint, m_bPrerolled, m_bEndStreaming := false, false, false, false;
      m_fRate := 1.0;
      m_pClock, m_pMixer, m_pMediaType := false, false, None;
      mixer, device, passed := [], [], [];
      generation, nextId := 0, 0;
      out, held, shown, discarded, notices := {}, {}, [], [], [];
    }

    /** Pool and samples agree, and the token is that of the current generation. */
    ghost predicate PoolInv()
      reads `out, `generation, `nextId, `m_TokenCounter, m_SamplePool
    {
      && Accounted(m_SamplePool.m_VideoSampleQueue, m_SamplePool.m_bInitialized, m_SamplePool.m_cPending,
                   out, generation, nextId)
      && m_TokenCounter == Token(generation)
    }

    /** There is a media type exactly when there is a pool, and none after shutdown. */
    ghost predicate TypeInv()
      reads `m_pMediaType, `m_RenderState, m_SamplePool
    {
      && (m_pMediaType.Some? <==> m_SamplePool.m_bInitialized)
      && (m_pMediaType.Some? ==> m_RenderState != RENDER_STATE_SHUTDOWN)
    }

    /** What is queued for a step or held elsewhere is out; a submitted frame leaves no steps to go. */
    ghost predicate StepInv()
      reads `held, `out, `m_FrameStep
    {
      && held <= out && (forall s :: s in m_FrameStep.samples ==> s in out)
      && m_FrameStep.steps < TWO32
      && (m_FrameStep.state == FRAMESTEP_NONE || Submitted(m_FrameStep.state) ==> m_FrameStep.steps == 0)
      && (m_FrameStep.state == FRAMESTEP_SCHEDULED ==> m_FrameStep.pSampleNoRef.Some?)
    }

    ghost predicate Inv()
      reads this, m_SamplePool
    {
      PoolInv() && TypeInv() && StepInv()
    }

    ghost function Now(): Snapshot
      reads this, m_SamplePool
    {
      Snapshot(m_RenderState, m_FrameStep, m_fRate, m_pMediaType, m_pMixer, m_bSampleNotify, m_bEndStreaming,
        m_SamplePool.m_bInitialized, m_SamplePool.m_cPending, m_SamplePool.m_VideoSampleQueue, out, held,
        generation, nextId, m_TokenCounter)
    }

    /** Without a hitch: the clock runs, and the mixer has only frames to give. */
    ghost predicate Steady()
      reads `m_fRate, `device, `m_RenderState, `mixer
    {
      && Smooth() && m_RenderState == RENDER_STATE_STARTED
      && forall i :: 0 <= i < |mixer| ==> mixer[i] == Output
    }

    /** Repaints asked for and not yet done. */
    ghost function Pending(): nat
      reads `m_bRepaint
    {
      if m_bRepaint then 1 else 0
    }

    /** Nothing is left that the presenter could take from the mixer. */
    ghost predicate Idle()
      reads `mixer, `m_bSampleNotify, `m_pMixer, m_SamplePool
    {
      || mixer == [] || !m_bSampleNotify || !m_pMixer
      || !m_SamplePool.m_bInitialized || m_SamplePool.m_VideoSampleQueue == []
    }

    ghost function FreeSet(): set<Sample>
      reads m_SamplePool
    {
      set s | s in m_SamplePool.m_VideoSampleQueue
    }

    /**
     * Since the progress was this, these events have happened. Each of the frames the mixer had waiting then is
     * among them or still there, and a frame was repainted only where that had been asked for.
     */
    ghost predicate Moved(was: Progress, waiting: nat, asked: nat, es: seq<Event>)
      reads `m_FrameStep, `discarded, `shown, `mixer, `m_bRepaint
    {
      && Prog() == HappenAll(was, es)
      && |Frames(es)| + |Repaints(es)| + |mixer| == waiting
      && |Repaints(es)| + Pending() <= asked
    }

    /** A step has been asked for, and waits for the clock. */
    predicate Waits()
      reads `m_FrameStep
    {
      m_FrameStep.state == FRAMESTEP_WAITING_START
    }

    ghost function Prog(): Progress
      reads `m_FrameStep, `discarded, `shown
    {
      Progress(m_FrameStep, discarded, NewFrames(shown), OldFrames(shown))
    }

    /** Not scrubbing, and the device takes every sample. */
    predicate Smooth()
      reads `m_fRate, `device
    {
      m_fRate != 0.0 && device == []
    }

    predicate IsActive()
      reads this
    {
      m_RenderState == RENDER_STATE_STARTED || m_RenderState == RENDER_STATE_PAUSED
    }

    predicate IsScrubbing()
      reads this
    {
      m_fRate == 0.0
    }

    // ----- Delivery -----

    /** DeliverSample: the scheduler gets the sample, to present now or in time, unless device or scheduler fail. */
    method DeliverSample(pSample: Sample, bRepaint: bool) returns (hr: HResult)
      requires StepInv() && pSample in out
      modifies `device, `held, `shown, `notices
      ensures StepInv() && |device| <= |old(device)|
      ensures hr == if old(device) == [] || old(device)[0] != Fails then S_OK else E_FAIL
      ensures shown == old(shown) + if hr != S_OK then [] else
                [Delivery(pSample, m_RenderState != RENDER_STATE_STARTED || m_fRate == 0.0 || bRepaint, bRepaint)]
      ensures held == old(held) + if hr == S_OK then {pSample} else {}
      ensures NewFrames(shown) == old(NewFrames(shown)) + if hr == S_OK && !bRepaint then [pSample] else []
      ensures OldFrames(shown) == old(OldFrames(shown)) + if hr == S_OK && bRepaint then [pSample] else []
      ensures notices == old(notices) + if hr != S_OK then [EC_ERRORABORT]
                                        else if old(device) != [] && old(device)[0] == WasReset
                                        then [EC_DISPLAY_CHANGED] else []
      ensures device == old(if device == [] then [] else device[1..])
    {
      hide NewFrames, OldFrames;
      var bPresentNow := m_RenderState != RENDER_STATE_STARTED || IsScrubbing() || bRepaint;
      var state := Works;
      if device != [] {
        state := device[0];
        device := device[1..];
      }
      if state == Fails {
        notices := notices + [EC_ERRORABORT];
        return E_FAIL;
      }
      OneDelivery(shown, Delivery(pSample, bPresentNow, bRepaint));
      held := held + {pSample};
      shown := shown + [Delivery(pSample, bPresentNow, bRepaint)];
      if state == WasReset {
        notices := notices + [EC_DISPLAY_CHANGED];
      }
      return S_OK;
    }

    method IsSampleTimePassed() returns (b: bool)
      modifies `passed
      ensures b == (old(passed) != [] && old(passed)[0]) && passed == old(if passed == [] then [] else passed[1..])
    {
      b := false;
      if passed != [] {
        b := passed[0];
        passed := passed[1..];
      }
    }

    /** While scrubbing, a frame whose time has passed is thrown away. */
    predicate TooLate()
      reads this
    {
      IsScrubbing() && m_pClock && passed != [] && passed[0]
    }

    method DeliverFrameStepSample(pSample: Sample) returns (hr: HResult)
      requires StepInv() && pSample in out && m_FrameStep.state != FRAMESTEP_NONE
      modifies `m_FrameStep, `passed, `device, `held, `shown, `notices, `discarded
      ensures Waits() == old(Waits())
      ensures StepInv()
      ensures m_FrameStep.samples == old(m_FrameStep.samples)
        || m_FrameStep.samples == old(m_FrameStep.samples) + [pSample]
      ensures m_FrameStep.state != FRAMESTEP_NONE
      ensures old(m_FrameStep.state) == FRAMESTEP_PENDING ==> m_FrameStep.samples == old(m_FrameStep.samples)
      ensures old(Smooth()) ==> Smooth() && hr == S_OK && Prog() == Feed(old(Prog()), pSample)
      ensures old(device) == [] ==> device == [] && hr == S_OK
      ensures old(device) == [] ==>
        Prog() == if old(TooLate()) then old(Prog()).(discarded := old(discarded) + [pSample])
                  else Feed(old(Prog()), pSample)
      ensures hr == S_OK || hr == E_FAIL
    {
      hide NewFrames, OldFrames;
      var past := false;
      if IsScrubbing() && m_pClock {
        past := IsSampleTimePassed();
      }
      if past {
        discarded := discarded + [pSample];
      } else if Submitted(m_FrameStep.state) {
        m_FrameStep := m_FrameStep.(samples := m_FrameStep.samples + [pSample]);
      } else {
        if m_FrameStep.steps > 0 {
          m_FrameStep := m_FrameStep.(steps := m_FrameStep.steps - 1);
        }
        if m_FrameStep.steps > 0 {
          discarded := discarded + [pSample];
        } else if m_FrameStep.state == FRAMESTEP_WAITING_START {
          m_FrameStep := m_FrameStep.(samples := m_FrameStep.samples + [pSample]);
        } else {
          hr := SubmitFrame(pSample);
          if Failed(hr) {
            return;
          }
        }
      }
      return S_OK;
    }

    /** The right frame, and the clock has started: it is delivered, and remembered if that worked. */
    method SubmitFrame(pSample: Sample) returns (hr: HResult)
      requires StepInv() && pSample in out && m_FrameStep.steps == 0
      modifies `m_FrameStep, `device, `held, `shown, `notices
      ensures StepInv() && (hr == S_OK || hr == E_FAIL)
      ensures m_FrameStep == if hr != S_OK then old(m_FrameStep)
                             else old(m_FrameStep).(state := FRAMESTEP_SCHEDULED, pSampleNoRef := Some(pSample))
      ensures old(device) == [] ==> device == [] && hr == S_OK
      ensures old(device) == [] ==>
        Prog() == old(Prog()).(fs := m_FrameStep, shown := old(NewFrames(shown)) + [pSample])
    {
      hide NewFrames, OldFrames;
      hr := DeliverSample(pSample, false);
      if Failed(hr) {
        return;
      }
      m_FrameStep := m_FrameStep.(pSampleNoRef := Some(pSample));
      m_FrameStep := m_FrameStep.(state := FRAMESTEP_SCHEDULED);
    }

    // ----- Frame stepping -----

    /** StartFrameStep: begin a step that waits for the clock, or hand on frames left over from a cancelled one. */
    method StartFrameStep() returns (hr: HResult)
      requires StepInv()
      modifies `m_FrameStep, `passed, `device, `held, `shown, `notices, `discarded
      ensures !Waits()
      ensures StepInv()
      ensures old(Smooth()) ==> Smooth() && hr == S_OK && Prog() == Started(old(Prog()))
      ensures old(m_FrameStep.state) !in {FRAMESTEP_NONE, FRAMESTEP_WAITING_START} ==> Prog() == old(Prog())
      ensures old(Smooth() && m_FrameStep.state == FRAMESTEP_NONE) ==>
        && m_FrameStep == old(m_FrameStep).(samples := []) && discarded == old(discarded)
        && NewFrames(shown) == old(NewFrames(shown) + m_FrameStep.samples)
    {
      hide NewFrames, OldFrames, Drain;
      if m_FrameStep.state == FRAMESTEP_WAITING_START {
        m_FrameStep := m_FrameStep.(state := FRAMESTEP_PENDING);
        hr := StepQueued();
      } else if m_FrameStep.state == FRAMESTEP_NONE {
        hr := DeliverQueued();
      } else {
        hr := S_OK;
      }
    }

    method StepQueued() returns (hr: HResult)
      requires StepInv() && m_FrameStep.state == FRAMESTEP_PENDING
      modifies `m_FrameStep, `passed, `device, `held, `shown, `notices, `discarded
      ensures !Waits()
      ensures StepInv()
      ensures old(Smooth()) ==> Smooth() && hr == S_OK && Prog() == Drain(old(Prog()))
    {
      while m_FrameStep.samples != [] && m_FrameStep.state == FRAMESTEP_PENDING
        invariant StepInv() && m_FrameStep.state != FRAMESTEP_NONE && !Waits()
        invariant old(Smooth()) ==> Smooth() && Drain(Prog()) == Drain(old(Prog()))
        decreases |m_FrameStep.samples|
      {
        var pSample := m_FrameStep.samples[0];
        m_FrameStep := m_FrameStep.(samples := m_FrameStep.samples[1..]);
        hr := DeliverFrameStepSample(pSample);
        if Failed(hr) {
          return;
        }
      }
      return S_OK;
    }

    method DeliverQueued() returns (hr: HResult)
      requires StepInv()
      modifies `m_FrameStep, `device, `held, `shown, `notices
      ensures Waits() == old(Waits())
      ensures StepInv()
      ensures old(Smooth()) ==> Smooth() && hr == S_OK
      ensures old(Smooth()) ==>
        Prog() == old(Prog()).(fs := old(m_FrameStep).(samples := []),
                               shown := old(NewFrames(shown) + m_FrameStep.samples))
    {
      hide NewFrames, OldFrames;
      while m_FrameStep.samples != []
        invariant StepInv()
        invariant old(Smooth()) ==>
          Smooth() && NewFrames(shown) + m_FrameStep.samples == old(NewFrames(shown) + m_FrameStep.samples)
        invariant OldFrames(shown) == old(OldFrames(shown))
        invariant m_FrameStep == old(m_FrameStep).(samples := m_FrameStep.samples)
        decreases |m_FrameStep.samples|
      {
        ghost var was := m_FrameStep.samples;
        var pSample := m_FrameStep.samples[0];
        m_FrameStep := m_FrameStep.(samples := m_FrameStep.samples[1..]);
        assert was == [pSample] + m_FrameStep.samples;
        hr := DeliverSample(pSample, false);
        if Failed(hr) {
          return;
        }
      }
      return S_OK;
    }

    /** PrepareFrameStep: a step request. */
    method PrepareFrameStep(cSteps: nat) returns (hr: HResult)
      requires StepInv()
      modifies `m_FrameStep, `passed, `device, `held, `shown, `notices, `discarded
      ensures Waits() == (m_RenderState != RENDER_STATE_STARTED)
      ensures StepInv()
      ensures m_RenderState == RENDER_STATE_STARTED && old(Smooth()) ==>
        Smooth() && hr == S_OK && Prog() == Request(old(Prog()), cSteps)
      ensures m_RenderState != RENDER_STATE_STARTED ==>
        m_FrameStep == old(m_FrameStep).(steps := (old(m_FrameStep.steps) + cSteps) % TWO32,
                                         state := FRAMESTEP_WAITING_START)
      ensures m_RenderState != RENDER_STATE_STARTED ==> held == old(held)
    {
      hide NewFrames, OldFrames, Drain;
      m_FrameStep := m_FrameStep.(steps := (m_FrameStep.steps + cSteps) % TWO32);
      m_FrameStep := m_FrameStep.(state := FRAMESTEP_WAITING_START);
      hr := S_OK;
      if m_RenderState == RENDER_STATE_STARTED {
        hr := StartFrameStep();
      }
    }

    method CompleteFrameStep()
      requires StepInv() && m_FrameStep.state == FRAMESTEP_SCHEDULED
      modifies `m_FrameStep
      ensures StepInv() && m_FrameStep == old(m_FrameStep).(state := FRAMESTEP_COMPLETE, pSampleNoRef := None)
    {
      m_FrameStep := m_FrameStep.(state := FRAMESTEP_COMPLETE);
      m_FrameStep := m_FrameStep.(pSampleNoRef := None);
    }

    /** CancelFrameStep; cancelled says whether EC_STEP_COMPLETE is sent. The queued frames stay. */
    method CancelFrameStep() returns (cancelled: bool)
      requires StepInv()
      modifies `m_FrameStep
      ensures StepInv() && m_FrameStep == FrameStep(FRAMESTEP_NONE, 0, old(m_FrameStep.samples), None)
      ensures cancelled == (old(m_FrameStep.state) !in {FRAMESTEP_NONE, FRAMESTEP_COMPLETE})
    {
      var oldState := m_FrameStep.state;
      m_FrameStep := FrameStep(FRAMESTEP_NONE, 0, m_FrameStep.samples, None);
      cancelled := oldState != FRAMESTEP_NONE && oldState != FRAMESTEP_COMPLETE;
    }

    // ----- Media types -----

    /** Flush: the scheduler drops what it has, and the frame-step queue is emptied. */
    method Flush()
      requires StepInv()
      modifies `m_bPrerolled, `m_FrameStep
      ensures StepInv() && !m_bPrerolled && m_FrameStep == old(m_FrameStep).(samples := [])
    {
      m_bPrerolled := false;
      m_FrameStep := m_FrameStep.(samples := []);
    }

    /** ReleaseResources: the samples that are out become stale, and the pool is emptied. */
    method ReleaseResources()
      requires PoolInv() && StepInv()
      modifies `m_TokenCounter, `generation, `m_bPrerolled, `m_FrameStep, m_SamplePool
      ensures PoolInv() && StepInv() && !m_SamplePool.m_bInitialized
      ensures m_SamplePool.m_VideoSampleQueue == [] && m_SamplePool.m_cPending == 0
      ensures generation == old(generation) + 1 && m_FrameStep == old(m_FrameStep).(samples := []) && !m_bPrerolled
    {
      AccountCleared(m_SamplePool.m_VideoSampleQueue, m_SamplePool.m_bInitialized, m_SamplePool.m_cPending,
                     out, generation, nextId);
      m_TokenCounter := (m_TokenCounter + 1) % TWO32;
      generation := generation + 1;
      Flush();
      m_SamplePool.Clear();
    }

    /** SetMediaType: clear the type, or make a new pool for a new one. */
    method SetMediaType(mediaType: Option<nat>, created: bool) returns (hr: HResult)
      requires PoolInv() && StepInv() && (mediaType.Some? ==> TypeInv())
      modifies `m_pMediaType, `m_TokenCounter, `generation, `nextId, `m_bPrerolled, `m_FrameStep, m_SamplePool
      ensures generation >= old(generation)
      ensures generation == old(generation) ==> m_SamplePool.m_VideoSampleQueue == old(m_SamplePool.m_VideoSampleQueue)
      ensures m_FrameStep == old(m_FrameStep) || m_FrameStep == old(m_FrameStep).(samples := [])
      ensures PoolInv() && TypeInv() && StepInv()
      ensures hr == if mediaType == None then S_OK
                    else if m_RenderState == RENDER_STATE_SHUTDOWN then MF_E_SHUTDOWN
                    else if created || old(m_pMediaType) == mediaType then S_OK else E_FAIL
      ensures m_pMediaType == if hr == S_OK then mediaType else None
      ensures mediaType == None ==> !m_SamplePool.m_bInitialized
      ensures hr == S_OK && mediaType.Some? && old(m_pMediaType) != mediaType ==>
        m_SamplePool.m_bInitialized && m_SamplePool.m_VideoSampleQueue == NewSamples(generation, old(nextId))
      ensures nextId >= old(nextId)
      ensures generation == old(generation) ==> Now() == old(Now()) && m_bPrerolled == old(m_bPrerolled)
      ensures generation > old(generation) ==> !m_bPrerolled && m_FrameStep == old(m_FrameStep).(samples := [])
      ensures generation == old(generation) +
        if mediaType == None || m_RenderState == RENDER_STATE_SHUTDOWN then 1
        else if old(m_pMediaType) == mediaType then 0 else if created then 1 else 2
      ensures mediaType == None ==> m_SamplePool.m_VideoSampleQueue == []
    {
      hide Accounted;
      if mediaType.None? {
        m_pMediaType := None;
        ReleaseResources();
        return S_OK;
      }
      if m_RenderState == RENDER_STATE_SHUTDOWN {
        ReleaseResources();
        return MF_E_SHUTDOWN;
      }
      if m_pMediaType == mediaType {
        return S_OK;
      }
      m_pMediaType := None;
      ReleaseResources();
      if !created {
        ReleaseResources();
        return E_FAIL;
      }
      AccountFilled(out, generation, nextId);
      hr := m_SamplePool.Initialize(NewSamples(generation, nextId));
      assert [] + NewSamples(generation, nextId) == NewSamples(generation, nextId);
      nextId := nextId + PRESENTER_BUFFER_COUNT;
      m_pMediaType := mediaType;
    }

    /** RenegotiateMediaType: the first proposal that passes every check of both sides. */
    method RenegotiateMediaType(proposals: seq<Proposal>) returns (hr: HResult)
      requires Inv()
      modifies `m_pMediaType, `m_TokenCounter, `generation, `nextId, `m_bPrerolled, `m_FrameStep, m_SamplePool
      ensures m_FrameStep == old(m_FrameStep) || m_FrameStep == old(m_FrameStep).(samples := [])
      ensures Inv()
      ensures m_pMixer ==>
        (m_pMediaType, hr == S_OK) == Negotiate(proposals, old(m_pMediaType), m_RenderState == RENDER_STATE_SHUTDOWN)
      ensures hr == S_OK ==> m_pMixer && m_pMediaType.Some?
      ensures hr != S_FALSE && hr != MF_E_NEED_MORE_INPUT && generation >= old(generation)
      ensures generation == old(generation) ==> m_SamplePool.m_VideoSampleQueue == old(m_SamplePool.m_VideoSampleQueue)
      ensures nextId >= old(nextId)
      ensures generation == old(generation) ==> Now() == old(Now())
      ensures !m_pMixer ==> Now() == old(Now())
    {
      hide Accounted;
      if !m_pMixer {
        return E_INVALIDREQUEST;
      }
      ghost var shutdown := m_RenderState == RENDER_STATE_SHUTDOWN;
      assert proposals[0..] == proposals;
      for i := 0 to |proposals|
        invariant Inv() && (m_FrameStep == old(m_FrameStep) || m_FrameStep == old(m_FrameStep).(samples := []))
        invariant Negotiate(proposals, old(m_pMediaType), shutdown) == Negotiate(proposals[i..], m_pMediaType, shutdown)
        invariant generation >= old(generation)
        invariant generation == old(generation) ==> Now() == old(Now())
        invariant nextId >= old(nextId)
      {
        assert proposals[i..][1..] == proposals[i + 1..];
        if proposals[i].supported && proposals[i].adjusted && proposals[i].acceptable {
          hr := SetMediaType(Some(proposals[i].mediaType), proposals[i].created);
          if hr == S_OK {
            if proposals[i].accepted {
              return;
            }
            hr := SetMediaType(None, false);
          }
        }
      }
      return MF_E_NO_MORE_TYPES;
    }

    // ----- The mixer -----

    /** The next frame is a plain one: stepping or not, it is no repaint and nothing stops it. */
    /**
     * The presenter can ask the mixer: the clock runs, or a repaint has been asked for, or no frame has been shown yet;
     * and there are a mixer and a free sample.
     */
    ghost predicate CanAsk()
      reads this, m_SamplePool
    {
      && (m_RenderState == RENDER_STATE_STARTED || m_bRepaint || !m_bPrerolled) && m_pMixer
      && m_SamplePool.m_bInitialized && m_SamplePool.m_VideoSampleQueue != []
    }

    ghost predicate NextIsOutput()
      reads this, m_SamplePool
    {
      CanAsk() && mixer != [] && mixer[0] == Output
    }

    method GetSample() returns (hr: HResult, pSample: Option<Sample>)
      requires Inv()
      modifies m_SamplePool, `out
      ensures Inv()
      ensures hr == if !old(m_SamplePool.m_bInitialized) then MF_E_NOT_INITIALIZED
                    else if old(m_SamplePool.m_VideoSampleQueue) == [] then MF_E_SAMPLEALLOCATOR_EMPTY else S_OK
      ensures hr == S_OK ==>
        && pSample == Some(old(m_SamplePool.m_VideoSampleQueue)[0]) && pSample.value in out
        && pSample.value !in held && pSample.value !in m_FrameStep.samples
        && Token(pSample.value.generation) == m_TokenCounter && pSample.value.generation == generation
        && FreeSet() == old(FreeSet()) - {pSample.value}
      ensures hr != S_OK ==> Now() == old(Now())
      ensures m_SamplePool.m_bInitialized == old(m_SamplePool.m_bInitialized)
    {
      ghost var free := m_SamplePool.m_VideoSampleQueue;
      if m_SamplePool.m_bInitialized && free != [] {
        AccountTaken(free, m_SamplePool.m_cPending, out, generation, nextId);
        TakenFromSet(free);
      }
      hr, pSample := m_SamplePool.GetSample();
      if hr == S_OK {
        out := out + {pSample.value};
      }
    }

    /** A sample of the current generation back to the pool: there is one, and the count does not wrap. */
    method ReturnSample(pSample: Sample) returns (hr: HResult)
      requires Inv() && pSample in out && pSample.generation == generation
      requires pSample !in held && pSample !in m_FrameStep.samples
      modifies m_SamplePool, `out
      ensures Inv() && hr == S_OK
      ensures out == old(out) - {pSample}
      ensures m_SamplePool.m_cPending == old(m_SamplePool.m_cPending) - 1
      ensures m_SamplePool.m_VideoSampleQueue == old(m_SamplePool.m_VideoSampleQueue) + [pSample]
    {
      AccountReturned(m_SamplePool.m_VideoSampleQueue, m_SamplePool.m_bInitialized, m_SamplePool.m_cPending,
                      out, generation, nextId, pSample);
      hr := m_SamplePool.ReturnSample(pSample);
      out := out - {pSample};
    }

    /**
     * ProcessOutput: one answer of the mixer, into a free sample. The event, if there is one, is the frame that
     * came; without a new generation it is what the pool has lost.
     */
    method ProcessOutput() returns (hr: HResult, ghost es: seq<Event>)
      requires Inv()
      modifies this, m_SamplePool
      ensures Waits() == old(Waits())
      ensures Inv() && m_RenderState == old(m_RenderState) && m_fRate == old(m_fRate)
      ensures m_bEndStreaming == old(m_bEndStreaming)
      ensures |mixer| <= |old(mixer)| && (hr == S_OK ==> |mixer| < |old(mixer)|)
      ensures old(NextIsOutput() && Smooth()) ==> hr == S_OK && Smooth()
      ensures old(NextIsOutput() && Smooth()) ==>
        Prog() == Passed(old(Prog()), old(m_SamplePool.m_VideoSampleQueue)[0], old(m_bRepaint))
      ensures old(!CanAsk()) ==> Now() == old(Now()) && mixer == old(mixer) && m_bRepaint == old(m_bRepaint)
      ensures old(!CanAsk()) ==> shown == old(shown) && discarded == old(discarded) && m_bPrerolled == old(m_bPrerolled)
      ensures old(!CanAsk()) ==> hr != S_OK && hr != MF_E_NEED_MORE_INPUT
      ensures old(CanAsk()) ==>
        var reply := old(if mixer == [] then NeedMoreInput else mixer[0]);
        && (reply != Output ==> Answered(reply, hr, m_pMixer, m_RenderState, old(m_pMediaType), m_pMediaType))
        && m_bSampleNotify == (old(m_bSampleNotify) && reply != NeedMoreInput)
        && (reply == Output ==> hr != MF_E_NEED_MORE_INPUT && m_bPrerolled == (old(m_bPrerolled) || !Failed(hr)))
        && mixer == old(if mixer == [] then [] else mixer[1..]) && !m_bRepaint
      ensures old(CanAsk() && mixer != [] && mixer[0] == Output && device == []
                  && (m_FrameStep.state == FRAMESTEP_NONE || m_bRepaint)) ==>
        && m_FrameStep == old(m_FrameStep) && discarded == old(discarded)
        && shown == old(shown + [Delivery(m_SamplePool.m_VideoSampleQueue[0],
                                          m_RenderState != RENDER_STATE_STARTED || m_fRate == 0.0 || m_bRepaint,
                                          m_bRepaint)])
      ensures Controls(es) == [] && generation >= old(generation)
      ensures generation == old(generation) ==> FreeSet() == old(FreeSet()) - Filled(es)
      ensures old(Steady()) ==>
        && Steady() && Moved(old(Prog()), old(|mixer|), old(Pending()), es)
        && (hr != S_OK || old(Idle()) ==> Idle())
      ensures m_pMixer == old(m_pMixer) && nextId >= old(nextId)
    {
      hide Accounted, Happen, HappenAll, Passed, Frames, Repaints, Controls, Answered;
      es := [];
      NoEvent(Prog());
      if m_RenderState != RENDER_STATE_STARTED && !m_bRepaint && m_bPrerolled {
        return S_FALSE, [];
      }
      if !m_pMixer {
        return E_INVALIDREQUEST, [];
      }
      var pSample;
      hr, pSample := GetSample();
      if hr == MF_E_SAMPLEALLOCATOR_EMPTY {
        return S_FALSE, [];
      }
      if Failed(hr) {
        return;
      }
      hr, es := Fill(pSample.value);
    }

    /** The mixer writes into the sample, if it can. */
    method Fill(pSample: Sample) returns (hr: HResult, ghost es: seq<Event>)
      requires Inv()
      requires pSample in out && pSample.generation == generation && pSample !in held && pSample !in m_FrameStep.samples
      modifies this, m_SamplePool
      ensures Waits() == old(Waits())
      ensures Inv() && m_RenderState == old(m_RenderState) && m_fRate == old(m_fRate)
      ensures m_bEndStreaming == old(m_bEndStreaming)
      ensures |mixer| <= |old(mixer)| && (hr == S_OK ==> |mixer| < |old(mixer)|) && hr != S_FALSE
      ensures old(mixer != [] && mixer[0] == Output && Smooth()) ==>
        hr == S_OK && Smooth() && Prog() == Passed(old(Prog()), pSample, old(m_bRepaint))
      ensures old(mixer != [] && mixer[0] == Output && device == []
                  && (m_FrameStep.state == FRAMESTEP_NONE || m_bRepaint)) ==>
        && m_FrameStep == old(m_FrameStep) && discarded == old(discarded)
        && shown == old(shown + [Delivery(pSample, m_RenderState != RENDER_STATE_STARTED || m_fRate == 0.0
                                                   || m_bRepaint, m_bRepaint)])
      ensures var reply := old(if mixer == [] then NeedMoreInput else mixer[0]);
        && (reply != Output ==> Answered(reply, hr, m_pMixer, m_RenderState, old(m_pMediaType), m_pMediaType))
        && m_bSampleNotify == (old(m_bSampleNotify) && reply != NeedMoreInput)
        && (reply == Output ==> hr != MF_E_NEED_MORE_INPUT && m_bPrerolled == (old(m_bPrerolled) || !Failed(hr)))
      ensures mixer == old(if mixer == [] then [] else mixer[1..]) && !m_bRepaint
      ensures Controls(es) == [] && Filled(es) == (if es == [] then {} else {pSample}) && generation >= old(generation)
      ensures generation == old(generation) ==> FreeSet() == old(FreeSet()) + if es == [] then {pSample} else {}
      ensures old(Steady()) ==>
        && Steady() && Moved(old(Prog()), old(|mixer|), old(Pending()), es)
        && (mixer == [] || (hr == S_OK && m_bSampleNotify == old(m_bSampleNotify)))
      ensures m_pMixer == old(m_pMixer) && nextId >= old(nextId)
    {
      hide Inv, Happen, HappenAll, Passed, Frames, Repaints, Controls, Filled, FreeSet, Prog, Answered;
      es := Outcome(pSample);
      NoEvent(Prog());
      PassedHappens(Prog(), pSample, m_bRepaint);
      ProgIsStep();
      hr := Mix(pSample);
      ProgIsStep();
    }

    lemma ProgIsStep()
      ensures Prog().fs == m_FrameStep
    {}

    /** What the mixer's next answer makes of this sample. */
    ghost function Outcome(pSample: Sample): seq<Event>
      reads `mixer, `m_bRepaint
    {
      if mixer == [] || mixer[0] != Output then [] else if m_bRepaint then [Repainted(pSample)] else [Frame(pSample)]
    }

    /** The mixer's ProcessOutput, and what follows from its answer. */
    method Mix(pSample: Sample) returns (hr: HResult)
      requires Inv()
      requires pSample in out && pSample.generation == generation && pSample !in held && pSample !in m_FrameStep.samples
      modifies this, m_SamplePool
      ensures Waits() == old(Waits())
      ensures Inv() && m_RenderState == old(m_RenderState) && m_fRate == old(m_fRate)
      ensures m_bEndStreaming == old(m_bEndStreaming)
      ensures mixer == old(if mixer == [] then [] else mixer[1..]) && !m_bRepaint && (hr == S_OK ==> old(mixer) != [])
      ensures hr != S_FALSE && generation >= old(generation)
      ensures generation == old(generation) ==>
        FreeSet() == old(FreeSet() + if Outcome(pSample) == [] then {pSample} else {})
      ensures old(Outcome(pSample)) != [] ==> m_bSampleNotify == old(m_bSampleNotify)
      ensures old(Outcome(pSample)) != [] && old(Smooth()) ==>
        hr == S_OK && Smooth() && Prog() == Passed(old(Prog()), pSample, old(m_bRepaint))
      ensures old(Outcome(pSample) != [] && device == [] && (m_FrameStep.state == FRAMESTEP_NONE || m_bRepaint)) ==>
        && m_FrameStep == old(m_FrameStep) && discarded == old(discarded)
        && shown == old(shown + [Delivery(pSample, m_RenderState != RENDER_STATE_STARTED || m_fRate == 0.0
                                                   || m_bRepaint, m_bRepaint)])
      ensures old(mixer) == [] ==> hr == MF_E_NEED_MORE_INPUT && Prog() == old(Prog()) && device == old(device)
      ensures var reply := old(if mixer == [] then NeedMoreInput else mixer[0]);
        && (reply != Output ==> Answered(reply, hr, m_pMixer, m_RenderState, old(m_pMediaType), m_pMediaType))
        && m_bSampleNotify == (old(m_bSampleNotify) && reply != NeedMoreInput)
        && (reply == Output ==> hr != MF_E_NEED_MORE_INPUT && m_bPrerolled == (old(m_bPrerolled) || !Failed(hr)))
      ensures m_pMixer == old(m_pMixer) && nextId >= old(nextId)
    {
      hide PoolInv, TypeInv, StepInv, Passed, NewFrames, OldFrames, Answered, FreeSet, Prog;
      var bRepaint := m_bRepaint;
      m_bRepaint := false;
      var reply := NeedMoreInput;
      if mixer != [] {
        reply := mixer[0];
        mixer := mixer[1..];
      }
      if reply != Output {
        hr := MixerFailed(pSample, reply);
      } else {
        hr := Schedule(pSample, bRepaint);
      }
    }

    /** The mixer gave a frame: it goes to the step or to the scheduler. */
    method Schedule(pSample: Sample, bRepaint: bool) returns (hr: HResult)
      requires Inv() && pSample in out
      modifies `m_FrameStep, `passed, `device, `held, `shown, `notices, `discarded, `m_bPrerolled
      ensures Waits() == old(Waits())
      ensures Inv() && (hr == S_OK || hr == E_FAIL)
      ensures old(Smooth()) ==> hr == S_OK && Smooth() && Prog() == Passed(old(Prog()), pSample, bRepaint)
      ensures old(device) == [] && (old(m_FrameStep.state) == FRAMESTEP_NONE || bRepaint) ==>
        && m_FrameStep == old(m_FrameStep) && discarded == old(discarded)
        && shown == old(shown) + [Delivery(pSample, m_RenderState != RENDER_STATE_STARTED || m_fRate == 0.0 || bRepaint,
                                           bRepaint)]
      ensures m_bPrerolled == (old(m_bPrerolled) || !Failed(hr))
    {
      hide NewFrames, OldFrames, PoolInv, TypeInv;
      if m_FrameStep.state == FRAMESTEP_NONE || bRepaint {
        hr := DeliverSample(pSample, bRepaint);
      } else {
        hr := DeliverFrameStepSample(pSample);
      }
      if !Failed(hr) {
        m_bPrerolled := true;
      }
    }

    /** The mixer gave nothing: the sample goes back, and known errors are dealt with. */
    method MixerFailed(pSample: Sample, reply: Reply) returns (hr: HResult)
      requires Inv() && reply != Output
      requires pSample in out && pSample.generation == generation && pSample !in held && pSample !in m_FrameStep.samples
      modifies `m_pMediaType, `m_TokenCounter, `generation, `nextId, `m_bPrerolled, `m_bSampleNotify, `m_FrameStep,
               `out, m_SamplePool
      ensures Waits() == old(Waits())
      ensures Inv() && hr != S_FALSE && (hr == S_OK ==> reply.TypeNotSet?) && generation >= old(generation)
      ensures generation == old(generation) ==> FreeSet() == old(FreeSet()) + {pSample}
      ensures reply == NeedMoreInput ==> hr == MF_E_NEED_MORE_INPUT && m_FrameStep == old(m_FrameStep)
      ensures m_bSampleNotify == (old(m_bSampleNotify) && reply != NeedMoreInput)
      ensures Answered(reply, hr, m_pMixer, m_RenderState, old(m_pMediaType), m_pMediaType)
      ensures nextId >= old(nextId)
    {
      hide Accounted;
      hr := ReturnSample(pSample);
      assert FreeSet() == old(FreeSet()) + {pSample};
      match reply {
        case Output =>
        case TypeNotSet(proposals) =>
          hr := RenegotiateMediaType(proposals);
        case StreamChange =>
          hr := SetMediaType(None, false);
          hr := MF_E_STREAM_CHANGE;
        case NeedMoreInput =>
          m_bSampleNotify := false;
          hr := MF_E_NEED_MORE_INPUT;
        case OtherFailure =>
          hr := E_FAIL;
      }
    }

    /**
     * ProcessOutputLoop: as many frames as there are free samples and mixer output. Nothing is left for it to do
     * when the mixer answers with frames only.
     */
    method ProcessOutputLoop() returns (ghost es: seq<Event>)
      requires Inv()
      modifies this, m_SamplePool
      ensures Waits() == old(Waits())
      ensures Inv() && m_RenderState == old(m_RenderState) && m_fRate == old(m_fRate)
      ensures m_bEndStreaming == (old(m_bEndStreaming) && (m_bSampleNotify || Current(out, generation) != {}))
      ensures Controls(es) == [] && generation >= old(generation)
      ensures generation == old(generation) ==> FreeSet() == old(FreeSet()) - Filled(es)
      ensures old(Steady()) ==> Steady() && Idle() && Moved(old(Prog()), old(|mixer|), old(Pending()), es)
      ensures m_pMixer == old(m_pMixer) && nextId >= old(nextId)
    {
      hide PoolInv, TypeInv, StepInv, Steady, Idle, Filled, HappenAll, Frames, Repaints, Controls;
      var hr := S_OK;
      es := [];
      NoEvent(Prog());
      while hr == S_OK
        invariant old(Steady()) ==>
          && Steady() && Moved(old(Prog()), old(|mixer|), old(Pending()), es)
          && (hr != S_OK ==> Idle())
        invariant Inv() && m_RenderState == old(m_RenderState) && m_fRate == old(m_fRate) && Waits() == old(Waits())
        invariant m_bEndStreaming == old(m_bEndStreaming)
        invariant hr == S_OK ==> m_bSampleNotify == old(m_bSampleNotify)
        invariant hr != S_OK && !m_bSampleNotify ==> hr == MF_E_NEED_MORE_INPUT
        invariant Controls(es) == [] && generation >= old(generation)
        invariant m_pMixer == old(m_pMixer) && nextId >= old(nextId)
        invariant generation == old(generation) ==> FreeSet() == old(FreeSet()) - Filled(es)
        decreases if hr == S_OK then |mixer| + 1 else 0
      {
        if !m_bSampleNotify {
          NothingNew();
          hr := MF_E_NEED_MORE_INPUT;
          break;
        }
        ghost var more;
        hr, more := ProcessOutput();
        MoreEvents(old(Prog()), es, more);
        es := es + more;
      }
      if hr == MF_E_NEED_MORE_INPUT {
        CheckEndOfStream();
      }
    }

    lemma NothingNew()
      requires !m_bSampleNotify
      ensures Idle()
    {}

    /** CheckEndOfStream: EC_COMPLETE goes out only when no sample of the current generation is out. */
    method CheckEndOfStream()
      requires Inv()
      modifies `m_bEndStreaming
      ensures Inv()
      ensures m_bEndStreaming == (old(m_bEndStreaming) && (m_bSampleNotify || Current(out, generation) != {}))
    {
      if !m_bEndStreaming {
        return;
      }
      if m_bSampleNotify {
        return;
      }
      if m_SamplePool.AreSamplesPending() {
        return;
      }
      m_bEndStreaming := false;
    }

    method ProcessInputNotify() returns (ghost es: seq<Event>)
      requires Inv()
      modifies this, m_SamplePool
      ensures Waits() == old(Waits())
      ensures Inv() && m_RenderState == old(m_RenderState) && m_fRate == old(m_fRate)
      ensures Controls(es) == []
      ensures old(Steady()) ==> Steady() && Idle() && Moved(old(Prog()), old(|mixer|), old(Pending()), es)
      ensures m_pMixer == old(m_pMixer) && nextId >= old(nextId)
      ensures generation >= old(generation) && (old(m_pMediaType) == None ==> Now() == old(Now()).(notify := true))
    {
      hide Accounted, HappenAll, Frames, Repaints, Controls;
      m_bSampleNotify := true;
      es := [];
      NoEvent(Prog());
      if m_pMediaType.Some? {
        es := ProcessOutputLoop();
      }
    }

    // ----- The clock -----

    /**
     * OnClockStart: a step that waits begins when the clock starts from the stopped state. It goes on waiting
     * when the clock starts from the paused state, which counts as active; a start at a new position then empties
     * the queue.
     */
    method OnClockStart(seek: bool) returns (hr: HResult, ghost es: seq<Event>)
      requires Inv()
      modifies this, m_SamplePool
      ensures hr == S_OK ==>
        Waits() == (old(m_RenderState) in {RENDER_STATE_STARTED, RENDER_STATE_PAUSED} && old(Waits()))
      ensures Inv()
      ensures m_RenderState ==
        if old(m_RenderState) == RENDER_STATE_SHUTDOWN then RENDER_STATE_SHUTDOWN else RENDER_STATE_STARTED
      ensures old(Willing()) ==>
        var begun := if old(m_RenderState) !in {RENDER_STATE_STARTED, RENDER_STATE_PAUSED} then Started(old(Prog()))
                     else if seek then old(Prog()).(fs := old(m_FrameStep).(samples := [])) else old(Prog());
        hr == S_OK && Steady() && Idle() && Controls(es) == [] && Moved(begun, old(|mixer|), old(Pending()), es)
      ensures m_pMixer == old(m_pMixer) && nextId >= old(nextId)
      ensures old(m_RenderState) == RENDER_STATE_SHUTDOWN ==> Now() == old(Now())
      ensures m_fRate == old(m_fRate) && generation >= old(generation)
    {
      hide Started, HappenAll, Frames, Repaints, Controls, PoolInv, StepInv, Moved;
      es := [];
      if m_RenderState == RENDER_STATE_SHUTDOWN {
        return MF_E_SHUTDOWN, [];
      }
      if IsActive() {
        m_RenderState := RENDER_STATE_STARTED;
        if seek {
          Flush();
        }
      } else {
        m_RenderState := RENDER_STATE_STARTED;
        hr := StartFrameStep();
        if Failed(hr) {
          return;
        }
      }
      es := ProcessOutputLoop();
      return S_OK, es;
    }

    /** The clock can start, and then nothing is in the way. */
    ghost predicate Willing()
      reads `m_fRate, `device, `m_RenderState, `mixer
    {
      && Smooth() && m_RenderState != RENDER_STATE_SHUTDOWN
      && forall i :: 0 <= i < |mixer| ==> mixer[i] == Output
    }

    method OnClockRestart() returns (hr: HResult, ghost es: seq<Event>)
      requires Inv()
      modifies this, m_SamplePool
      ensures hr == S_OK ==> !Waits()
      ensures Inv()
      ensures m_RenderState ==
        if old(m_RenderState) == RENDER_STATE_SHUTDOWN then RENDER_STATE_SHUTDOWN else RENDER_STATE_STARTED
      ensures old(Willing()) ==>
        && hr == S_OK && Steady() && Idle() && Controls(es) == []
        && Moved(Started(old(Prog())), old(|mixer|), old(Pending()), es)
      ensures m_pMixer == old(m_pMixer) && nextId >= old(nextId)
      ensures old(m_RenderState) == RENDER_STATE_SHUTDOWN ==> Now() == old(Now())
      ensures m_fRate == old(m_fRate) && generation >= old(generation)
    {
      hide Started, HappenAll, Frames, Repaints, Controls, PoolInv, StepInv, Moved;
      es := [];
      if m_RenderState == RENDER_STATE_SHUTDOWN {
        return MF_E_SHUTDOWN, [];
      }
      m_RenderState := RENDER_STATE_STARTED;
      hr := StartFrameStep();
      if Failed(hr) {
        return;
      }
      es := ProcessOutputLoop();
      return S_OK, es;
    }

    method OnClockStop() returns (hr: HResult)
      requires Inv()
      modifies `m_RenderState, `m_bPrerolled, `m_FrameStep
      ensures Inv()
      ensures old(m_RenderState) != RENDER_STATE_SHUTDOWN ==> m_RenderState == RENDER_STATE_STOPPED
      ensures old(m_RenderState) !in {RENDER_STATE_SHUTDOWN, RENDER_STATE_STOPPED} ==>
        m_FrameStep == FrameStep(FRAMESTEP_NONE, 0, [],
          if old(m_FrameStep.state) == FRAMESTEP_NONE then old(m_FrameStep.pSampleNoRef) else None)
        && !m_bPrerolled
      ensures old(m_RenderState) in {RENDER_STATE_SHUTDOWN, RENDER_STATE_STOPPED} ==>
        m_RenderState == old(m_RenderState) && m_FrameStep == old(m_FrameStep)
    {
      if m_RenderState == RENDER_STATE_SHUTDOWN {
        return MF_E_SHUTDOWN;
      }
      if m_RenderState != RENDER_STATE_STOPPED {
        m_RenderState := RENDER_STATE_STOPPED;
        Flush();
        if m_FrameStep.state != FRAMESTEP_NONE {
          var cancelled := CancelFrameStep();
        }
      }
      return S_OK;
    }

    method OnClockPause() returns (hr: HResult)
      requires Inv()
      modifies `m_RenderState
      ensures Inv()
      ensures m_RenderState ==
        if old(m_RenderState) == RENDER_STATE_SHUTDOWN then RENDER_STATE_SHUTDOWN else RENDER_STATE_PAUSED
    {
      if m_RenderState == RENDER_STATE_SHUTDOWN {
        return MF_E_SHUTDOWN;
      }
      m_RenderState := RENDER_STATE_PAUSED;
      return S_OK;
    }

    /** OnClockSetRate: leaving scrubbing cancels the step and drops its queue. */
    method OnClockSetRate(fRate: real) returns (hr: HResult)
      requires Inv()
      modifies `m_FrameStep, `m_fRate
      ensures Inv()
      ensures m_RenderState != RENDER_STATE_SHUTDOWN ==> m_fRate == fRate
      ensures m_FrameStep == if m_RenderState != RENDER_STATE_SHUTDOWN && old(m_fRate) == 0.0 && fRate != 0.0
        then FrameStep(FRAMESTEP_NONE, 0, [], None) else old(m_FrameStep)
      ensures m_RenderState == RENDER_STATE_SHUTDOWN ==> m_fRate == old(m_fRate)
    {
      if m_RenderState == RENDER_STATE_SHUTDOWN {
        return MF_E_SHUTDOWN;
      }
      if m_fRate == 0.0 && fRate != 0.0 {
        var cancelled := CancelFrameStep();
        m_FrameStep := m_FrameStep.(samples := []);
      }
      m_fRate := fRate;
      return S_OK;
    }

    /** RepaintVideo: the request stays until there is a free sample for it. */
    method RepaintVideo() returns (hr: HResult, ghost es: seq<Event>)
      requires Inv()
      modifies this, m_SamplePool
      ensures Inv() && Controls(es) == []
      ensures old(Steady()) ==>
        && Steady() && Moved(old(Prog()), old(|mixer|), old(Pending()) + 1, es) && (old(Idle()) ==> Idle())
      ensures old(m_RenderState == RENDER_STATE_SHUTDOWN || !m_bPrerolled) ==>
        Now() == old(Now()) && m_bRepaint == old(m_bRepaint) && shown == old(shown)
      ensures old(m_RenderState != RENDER_STATE_SHUTDOWN && m_bPrerolled) ==>
        m_bRepaint == !old(m_pMixer && m_SamplePool.m_bInitialized && m_SamplePool.m_VideoSampleQueue != [])
      ensures old(m_RenderState != RENDER_STATE_SHUTDOWN && m_bPrerolled && m_pMixer && m_SamplePool.m_bInitialized
                  && m_SamplePool.m_VideoSampleQueue != [] && mixer != [] && mixer[0] == Output && device == []) ==>
        shown == old(shown + [Delivery(m_SamplePool.m_VideoSampleQueue[0], true, true)])
      ensures m_pMixer == old(m_pMixer) && nextId >= old(nextId)
      ensures old(m_RenderState) == RENDER_STATE_SHUTDOWN ==> Now() == old(Now())
      ensures m_RenderState == old(m_RenderState) && m_fRate == old(m_fRate) && generation >= old(generation)
    {
      hide HappenAll, Frames, Repaints, Controls;
      es := [];
      NoEvent(Prog());
      if m_RenderState == RENDER_STATE_SHUTDOWN {
        return MF_E_SHUTDOWN, [];
      }
      if m_bPrerolled {
        m_bRepaint := true;
        var hr2;
        hr2, es := ProcessOutput();
      }
      return S_OK, es;
    }

    // ----- Services -----

    /** InitServicePointers: what the lookup finds; a mixer that cannot be configured is not reported as a failure. */
    method InitServicePointers(clock: bool, foundMixer: bool, configured: bool, sink: bool) returns (hr: HResult)
      requires Inv()
      modifies `m_RenderState, `m_pClock, `m_pMixer
      ensures Inv()
      ensures var active := old(m_RenderState) in {RENDER_STATE_STARTED, RENDER_STATE_PAUSED};
        && m_RenderState == (if !active && foundMixer && configured && sink then RENDER_STATE_STOPPED
                             else old(m_RenderState))
        && m_pMixer == (if active then old(m_pMixer) else foundMixer)
        && m_pClock == (if active then old(m_pClock) else clock)
        && hr == (if active then E_INVALIDREQUEST else if !foundMixer then E_FAIL
                  else if configured && !sink then E_FAIL else S_OK)
    {
      if IsActive() {
        return E_INVALIDREQUEST;
      }
      m_pClock := clock;
      m_pMixer := foundMixer;
      if !foundMixer {
        return E_FAIL;
      }
      if !configured {
        return S_OK;
      }
      if !sink {
        return E_FAIL;
      }
      m_RenderState := RENDER_STATE_STOPPED;
      return S_OK;
    }

    /** ReleaseServicePointers, as one step. */
    method ReleaseServicePointers()
      requires Inv()
      modifies this, m_SamplePool
      ensures Inv() && m_RenderState == RENDER_STATE_SHUTDOWN && !m_pMixer && !m_SamplePool.m_bInitialized
      ensures Current(out, generation) == {}
      ensures generation == old(generation) + 1 && m_SamplePool.m_VideoSampleQueue == [] && m_pMediaType == None
      ensures out == old(out) && held == old(held) && m_FrameStep == old(m_FrameStep).(samples := [])
    {
      m_RenderState := RENDER_STATE_SHUTDOWN;
      Flush();
      var hr := SetMediaType(None, false);
      m_pClock, m_pMixer := false, false;
    }

    // ----- The sample-free callback -----

    /** The first part of OnSampleFree, outside the lock: the step's sample has been shown. */
    method OnSampleFreeStep(pSample: Sample)
      requires Inv()
      modifies `m_FrameStep
      ensures Inv()
      ensures m_FrameStep ==
        if old(m_FrameStep.state) == FRAMESTEP_SCHEDULED && old(m_FrameStep.pSampleNoRef) == Some(pSample)
        then old(m_FrameStep).(state := FRAMESTEP_COMPLETE, pSampleNoRef := None) else old(m_FrameStep)
    {
      if m_FrameStep.state == FRAMESTEP_SCHEDULED {
        if m_FrameStep.pSampleNoRef == Some(pSample) {
          CompleteFrameStep();
        }
      }
    }

    /**
     * The second part: a sample of the current generation goes back to the pool, from which then only the frames
     * that have come since are missing; a stale one does not get there.
     */
    method OnSampleFree(pSample: Sample) returns (hr: HResult, ghost es: seq<Event>)
      requires Inv() && Released(pSample) && InTokenRange(pSample)
      modifies this, m_SamplePool
      ensures Inv() && hr == S_OK && Controls(es) == []
      ensures pSample.generation != old(generation) ==>
        && es == [] && generation == old(generation) && out == old(out) - {pSample}
        && m_SamplePool.m_VideoSampleQueue == old(m_SamplePool.m_VideoSampleQueue)
        && m_SamplePool.m_cPending == old(m_SamplePool.m_cPending)
      ensures pSample.generation == old(generation) == generation ==>
        FreeSet() == old(FreeSet()) + {pSample} - Filled(es)
      ensures old(Steady()) ==>
        && Steady() && Moved(old(Prog()), old(|mixer|), old(Pending()), es) && (old(Idle()) ==> Idle())
      ensures m_pMixer == old(m_pMixer) && nextId >= old(nextId)
      ensures m_RenderState == old(m_RenderState) && m_fRate == old(m_fRate) && generation >= old(generation)
      ensures pSample.generation != old(generation) ==> Now() == old(Now()).(out := old(out) - {pSample})
    {
      hide HappenAll, Frames, Repaints, Controls, Filled;
      es := [];
      NoEvent(Prog());
      if Token(pSample.generation) == m_TokenCounter {
        TokenTells(pSample.generation, generation);
        hr := ReturnSample(pSample);
        assert FreeSet() == old(FreeSet()) + {pSample};
        es := ProcessOutputLoop();
      } else {
        hr := S_OK;
        AccountDisposed(m_SamplePool.m_VideoSampleQueue, m_SamplePool.m_bInitialized, m_SamplePool.m_cPending,
                        out, generation, nextId, pSample);
        out := out - {pSample};
      }
    }

    /** The last reference to the sample is gone. */
    predicate Released(pSample: Sample)
      reads this
    {
      pSample in out && pSample !in held && pSample !in m_FrameStep.samples
    }

    /** The sample is not a multiple of 2^32 generations old. */
    predicate InTokenRange(pSample: Sample)
      reads this
    {
      pSample.generation < generation ==> (generation - pSample.generation) % TWO32 != 0
    }

    // ----- Stepping, from the first request on -----

    /**
     * Step requests, frames from the mixer, repaints and samples that come back, in any order. As long as the
     * requests come in time, the presenter discards, shows and queues exactly the frames it should for the number
     * of steps these moves request; whenever they come, it does so for each run of steps. Every frame the mixer
     * had to give is among them, has been repainted, or waits there for a free sample; there are no more repaints
     * than were asked for.
     */
    method StepThrough(first: nat, moves: seq<Move>) returns (ghost es: seq<Event>)
      requires Inv() && Smooth() && m_RenderState == RENDER_STATE_STARTED && m_FrameStep.steps == 0
      requires forall i :: 0 <= i < |mixer| ==> mixer[i] == Output
      modifies this, m_SamplePool
      ensures Inv() && Prog() == HappenAll(old(Prog()), es)
      ensures es != [] && es[0] == Step(first) && Controls(es) == [Step(first)] + ControlsOf(moves)
      ensures Requested(es) == first + StepsIn(moves)
      ensures |Frames(es)| + |Repaints(es)| + |mixer| == old(|mixer|) + FramesIn(moves)
      ensures |Repaints(es)| + Pending() <= old(Pending()) + RepaintsIn(moves)
      ensures old(Idle()) ==> Idle()
      ensures InTime(|old(m_FrameStep.samples)|, es) ==>
        StandsAt(old(Prog()), Prog(), first + StepsIn(moves), old(m_FrameStep.samples) + Frames(es))
      ensures InRange(old(m_FrameStep.samples), es) ==>
        Stands(old(Prog()), Prog(), TallyOf(old(m_FrameStep.samples), es))
    {
      hide Inv, Idle, StandsAt, Requested, Frames, Repaints, Controls, InTime, HappenAll, StepsIn, FramesIn, RepaintsIn,
        ControlsOf, After, Stands, TallyOf, InRange;
      ghost var was, waiting, asked := Prog(), |mixer|, Pending();
      es := Moves(first, moves);
      AfterAll(was, waiting, asked, first, moves, es);
      if InTime(|was.fs.samples|, es) {
        StepsExact(was, es);
      }
      if InRange(was.fs.samples, es) {
        RunsExact(was, es);
      }
    }

    /**
     * Plain playback: frames from the mixer, repaints and samples that come back, in any order, and no step asked
     * for. Every frame that is taken is shown, in order, and none is thrown away or kept back.
     */
    method PlayThrough(moves: seq<Move>) returns (ghost es: seq<Event>)
      requires Inv() && Steady() && m_FrameStep.state == FRAMESTEP_NONE
      requires forall m :: m in moves ==> !m.MoreSteps?
      modifies this, m_SamplePool
      ensures Inv() && Steady() && (old(Idle()) ==> Idle())
      ensures m_FrameStep == old(m_FrameStep) && discarded == old(discarded)
      ensures NewFrames(shown) == old(NewFrames(shown)) + Frames(es)
      ensures OldFrames(shown) == old(OldFrames(shown)) + Repaints(es)
      ensures |Frames(es)| + |Repaints(es)| + |mixer| == old(|mixer|) + FramesIn(moves)
      ensures |Repaints(es)| + Pending() <= old(Pending()) + RepaintsIn(moves)
    {
      hide Inv, Steady, Idle, Moved, Controls, Frames, Repaints, HappenAll, ControlsOf, FramesIn, RepaintsIn, Pending,
        NewFrames, OldFrames;
      ghost var was, waiting, asked := Prog(), |mixer|, Pending();
      es := [];
      NothingMoved();
      assert moves[..0] == [] && moves[..|moves|] == moves;
      for i := 0 to |moves|
        invariant Inv() && Steady() && (old(Idle()) ==> Idle())
        invariant Moved(was, waiting + FramesIn(moves[..i]), asked + RepaintsIn(moves[..i]), es)
        invariant Controls(es) == ControlsOf(moves[..i])
      {
        ghost var more := MakeMove(moves[i], was, waiting + FramesIn(moves[..i]), asked + RepaintsIn(moves[..i]), es);
        OneMove(moves, i);
        EventsMore(es, more);
        es := es + more;
      }
      HasMoved(was, waiting + FramesIn(moves), asked + RepaintsIn(moves), es);
      ControlsAreMoves(moves);
      PlaybackShows(was, es);
    }

    lemma NothingMoved()
      ensures Moved(Prog(), |mixer|, Pending(), []) && Controls([]) == ControlsOf([]) == []
      ensures FramesIn([]) == RepaintsIn([]) == 0
    {
      NoEvent(Prog());
    }

    method Moves(first: nat, moves: seq<Move>) returns (ghost es: seq<Event>)
      requires Inv() && Smooth() && m_RenderState == RENDER_STATE_STARTED && m_FrameStep.steps == 0
      requires forall i :: 0 <= i < |mixer| ==> mixer[i] == Output
      modifies this, m_SamplePool
      ensures Inv() && Steady() && (old(Idle()) ==> Idle())
      ensures After(old(Prog()), old(|mixer|), old(Pending()), first, moves, es)
    {
      ghost var was, waiting, asked := Prog(), |mixer|, Pending();
      assert moves[..0] == [] && moves[..|moves|] == moves;
      hide Inv, Smooth, Idle, Prog, Controls, HappenAll, After, Pending;
      es := FirstMove(first);
      AfterNone(was, waiting, asked, first, es);
      hide Steady, Moved;
      for i := 0 to |moves|
        invariant Inv() && Steady() && (old(Idle()) ==> Idle())
        invariant After(was, waiting, asked, first, moves[..i], es)
      {
        es := GoOn(was, waiting, asked, first, moves, i, es);
      }
    }

    /** Since the progress was this, these moves have led to these events. */
    ghost predicate After(was: Progress, waiting: nat, asked: nat, first: nat, moves: seq<Move>, es: seq<Event>)
      reads `m_FrameStep, `discarded, `shown, `mixer, `m_bRepaint
    {
      && Moved(was, waiting + FramesIn(moves), asked + RepaintsIn(moves), es)
      && es != [] && es[0] == Step(first) && Controls(es) == [Step(first)] + ControlsOf(moves)
    }

    lemma AfterNone(was: Progress, waiting: nat, asked: nat, first: nat, es: seq<Event>)
      requires es == [Step(first)] && Controls(es) == [Step(first)] && Moved(was, waiting, asked, es)
      ensures After(was, waiting, asked, first, [], es)
    {
      hide Moved, Controls;
    }

    method GoOn(ghost was: Progress, ghost waiting: nat, ghost asked: nat, ghost first: nat, moves: seq<Move>, i: nat,
                ghost es: seq<Event>)
      returns (ghost es': seq<Event>)
      requires i < |moves| && Inv() && Steady() && After(was, waiting, asked, first, moves[..i], es)
      modifies this, m_SamplePool
      ensures Inv() && Steady() && (old(Idle()) ==> Idle()) && After(was, waiting, asked, first, moves[..i + 1], es')
    {
      hide Inv, Steady, Idle, Moved, Controls, ControlsOf, FramesIn, RepaintsIn, StepsIn, Prog, Pending, Frames,
        Repaints;
      ghost var more := MakeMove(moves[i], was, waiting + FramesIn(moves[..i]), asked + RepaintsIn(moves[..i]), es);
      OneMove(moves, i);
      EventsMore(es, more);
      es' := es + more;
    }

    lemma AfterAll(was: Progress, waiting: nat, asked: nat, first: nat, moves: seq<Move>, es: seq<Event>)
      requires After(was, waiting, asked, first, moves, es)
      ensures Prog() == HappenAll(was, es) && Requested(es) == first + StepsIn(moves)
      ensures |Frames(es)| + |Repaints(es)| + |mixer| == waiting + FramesIn(moves)
      ensures |Repaints(es)| + Pending() <= asked + RepaintsIn(moves)
      ensures es != [] && es[0] == Step(first) && Controls(es) == [Step(first)] + ControlsOf(moves)
    {
      hide Controls, ControlsOf, FramesIn, RepaintsIn, StepsIn, Frames, Repaints, Requested, HappenAll;
      RequestedByControls(es);
      RequestedIn(first, moves);
    }

    lemma HasMoved(was: Progress, waiting: nat, asked: nat, es: seq<Event>)
      requires Moved(was, waiting, asked, es)
      ensures Prog() == HappenAll(was, es)
      ensures |Frames(es)| + |Repaints(es)| + |mixer| == waiting && |Repaints(es)| + Pending() <= asked
    {}

    method FirstMove(first: nat) returns (ghost es: seq<Event>)
      requires Inv() && Smooth() && m_RenderState == RENDER_STATE_STARTED && m_FrameStep.steps == 0
      requires forall i :: 0 <= i < |mixer| ==> mixer[i] == Output
      modifies this, m_SamplePool
      ensures Inv() && Steady() && (old(Idle()) ==> Idle())
      ensures es == [Step(first)] && Controls(es) == [Step(first)]
        && Moved(old(Prog()), old(|mixer|), old(Pending()), es)
    {
      hide PoolInv, TypeInv, Feed, Request, Frames, Repaints, Controls, HappenAll;
      HappenSingle(Prog(), Step(first));
      es := [Step(first)];
      var hr := PrepareFrameStep(first);
    }

    /** A move, after these events: what it adds to them. */
    method MakeMove(move: Move, ghost was: Progress, ghost waiting: nat, ghost asked: nat, ghost es: seq<Event>)
      returns (ghost more: seq<Event>)
      requires Inv() && Steady() && Moved(was, waiting, asked, es)
      modifies this, m_SamplePool
      ensures Inv() && Steady() && (old(Idle()) ==> Idle()) && Controls(more) == ControlOf(move)
      ensures Moved(was, waiting + FramesOf(move), asked + RepaintsOf(move), es + more)
    {
      hide Inv, Steady, Idle, Moved, Controls, Frames, Repaints, HappenAll, Prog;
      ghost var now, there, pending := Prog(), |mixer|, Pending();
      HasMoved(was, waiting, asked, es);
      match move {
        case MoreSteps(c) => more := MoveSteps(c);
        case MoreFrames(n) => more := MoveFrames(n);
        case PaintAgain => more := MovePaint();
        case LastReference(s) => more := MoveAway(s);
        case ComesBack(s) => more := MoveBack(s);
      }
      HasMoved(now, there + FramesOf(move), pending + RepaintsOf(move), more);
      MoreEvents(was, es, more);
      NowMoved(was, waiting + FramesOf(move), asked + RepaintsOf(move), es + more);
    }

    lemma NowMoved(was: Progress, waiting: nat, asked: nat, es: seq<Event>)
      requires Prog() == HappenAll(was, es)
      requires |Frames(es)| + |Repaints(es)| + |mixer| == waiting && |Repaints(es)| + Pending() <= asked
      ensures Moved(was, waiting, asked, es)
    {}

    method MoveSteps(c: nat) returns (ghost es: seq<Event>)
      requires Inv() && Steady()
      modifies this, m_SamplePool
      ensures Inv() && Steady() && (old(Idle()) ==> Idle())
      ensures Controls(es) == [Step(c)] && Moved(old(Prog()), old(|mixer|), old(Pending()), es)
    {
      hide PoolInv, TypeInv, Feed, Request, Frames, Repaints, Controls, HappenAll;
      HappenSingle(Prog(), Step(c));
      es := [Step(c)];
      var hr := PrepareFrameStep(c);
    }

    method MoveFrames(n: nat) returns (ghost es: seq<Event>)
      requires Inv() && Steady()
      modifies this, m_SamplePool
      ensures Inv() && Steady() && (old(Idle()) ==> Idle())
      ensures Controls(es) == [] && Moved(old(Prog()), old(|mixer|) + n, old(Pending()), es)
    {
      hide PoolInv, TypeInv, StepInv, Frames, Repaints, Controls, HappenAll;
      mixer := mixer + seq(n, _ => Output);
      es := ProcessInputNotify();
    }

    method MovePaint() returns (ghost es: seq<Event>)
      requires Inv() && Steady()
      modifies this, m_SamplePool
      ensures Inv() && Steady() && (old(Idle()) ==> Idle())
      ensures Controls(es) == [] && Moved(old(Prog()), old(|mixer|), old(Pending()) + 1, es)
    {
      hide Inv, Steady, Idle, Moved;
      var hr;
      hr, es := RepaintVideo();
    }

    method MoveAway(s: Sample) returns (ghost es: seq<Event>)
      requires Inv() && Steady()
      modifies this, m_SamplePool
      ensures Inv() && Steady() && (old(Idle()) ==> Idle())
      ensures Controls(es) == [] && Moved(old(Prog()), old(|mixer|), old(Pending()), es)
      ensures held == old(held) - {s}
    {
      hide Inv, Frames, Repaints, Controls, HappenAll;
      es := [];
      NoEvent(Prog());
      LetGo(s);
    }

    /** The callback in its two parts; the second may bring frames. */
    method MoveBack(s: Sample) returns (ghost es: seq<Event>)
      requires Inv() && Steady()
      modifies this, m_SamplePool
      ensures Inv() && Steady() && (old(Idle()) ==> Idle())
      ensures Controls(es) == [Free(s)] && Moved(old(Prog()), old(|mixer|), old(Pending()), es)
    {
      hide PoolInv, TypeInv, StepInv, HappenAll, Frames, Repaints, Controls;
      HappenSingle(Prog(), Free(s));
      OnSampleFreeStep(s);
      es := [Free(s)];
      if Released(s) && InTokenRange(s) {
        ghost var more;
        var hr;
        hr, more := OnSampleFree(s);
        MoreEvents(old(Prog()), es, more);
        es := es + more;
      }
    }

    // ----- Every run -----

    /** ProcessMessage, for the messages that touch samples. */
    method ProcessMessage(message: Message) returns (hr: HResult)
      requires Inv()
      modifies this, m_SamplePool
      ensures Inv() && FollowsMessage(message, old(Now()), Now())
    {
      hide PoolInv, TypeInv, StepInv, Negotiate, Current;
      if m_RenderState == RENDER_STATE_SHUTDOWN {
        return MF_E_SHUTDOWN;
      }
      hr := S_OK;
      match message {
        case FlushSamples => Flush();
        case StepFrames(cSteps) => hr := PrepareFrameStep(cSteps);
        case CancelStep =>
          var cancelled := CancelFrameStep();
        case _ => hr := StreamMessage(message);
      }
    }

    /** The messages about the stream and its type. */
    method StreamMessage(message: Message) returns (hr: HResult)
      requires Inv() && m_RenderState != RENDER_STATE_SHUTDOWN
      requires message.InvalidateMediaType? || message.ProcessInput? || message.EndOfStream?
      modifies this, m_SamplePool
      ensures Inv() && FollowsMessage(message, old(Now()), Now())
    {
      hide PoolInv, TypeInv, StepInv, Negotiate, Current;
      hr := S_OK;
      match message {
        case InvalidateMediaType(proposals) => hr := RenegotiateMediaType(proposals);
        case ProcessInput =>
          ghost var es := ProcessInputNotify();
        case EndOfStream =>
          m_bEndStreaming := true;
          CheckEndOfStream();
      }
    }

    /** The scheduler or the display lets go of a sample. */
    method LetGo(pSample: Sample)
      requires Inv()
      modifies `held
      ensures Inv() && held == old(held) - {pSample}
    {
      held := held - {pSample};
    }

    method Clock(step: ClockStep) returns (hr: HResult)
      requires Inv()
      modifies this, m_SamplePool
      ensures Inv() && FollowsClock(step, old(Now()), Now())
    {
      hide Accounted;
      ghost var es;
      match step {
        case Start(seek) => hr, es := OnClockStart(seek);
        case Restart => hr, es := OnClockRestart();
        case Stop => hr := OnClockStop();
        case Pause => hr := OnClockPause();
        case SetRate(rate) => hr := OnClockSetRate(rate);
      }
    }

    method Do(e: Entry)
      requires Inv()
      modifies this, m_SamplePool
      ensures Inv() && Follows(e, old(Now()), Now())
    {
      hide Inv, FollowsMessage, FollowsClock;
      var hr;
      match e {
        case Message(m) => hr := ProcessMessage(m);
        case ClockStateSink(c) => hr := Clock(c);
        case Repaint =>
          ghost var es;
          hr, es := RepaintVideo();
        case InitServices(clock, found, configured, sink) => hr := InitServicePointers(clock, found, configured, sink);
        case ReleaseServices => ReleaseServicePointers();
        case _ => SampleCall(e);
      }
    }

    /** The entries that come with a sample. */
    method SampleCall(e: Entry)
      requires Inv() && (e.SampleReleased? || e.SampleFreeStep? || e.SampleFree?)
      modifies this, m_SamplePool
      ensures Inv() && Follows(e, old(Now()), Now())
    {
      hide Inv;
      match e {
        case SampleReleased(s) => LetGo(s);
        case SampleFreeStep(s) => OnSampleFreeStep(s);
        case SampleFree(s) => SampleFreed(s);
      }
    }

    method SampleFreed(s: Sample)
      requires Inv()
      modifies this, m_SamplePool
      ensures Inv() && Follows(SampleFree(s), old(Now()), Now())
    {
      if Released(s) && InTokenRange(s) {
        ghost var es;
        var hr;
        hr, es := OnSampleFree(s);
      }
    }

    lemma InvSound()
      requires Inv()
      ensures Sound(Now())
    {}

    /**
     * Whatever order the entries come in and whatever the mixer, the device and the clock answer: each entry
     * leads from one state to a next as it should, and every state keeps the pool accounted for.
     */
    method Run(entries: seq<(Entry, seq<Reply>, seq<Device>, seq<bool>)>) returns (ghost trace: seq<Snapshot>)
      requires Inv()
      modifies this, m_SamplePool
      ensures Inv() && |trace| == |entries| + 1 && trace[0] == old(Now()) && trace[|entries|] == Now()
      ensures forall i :: 0 <= i < |trace| ==> Sound(trace[i])
      ensures forall i :: 0 <= i < |entries| ==> Follows(entries[i].0, trace[i], trace[i + 1])
    {
      hide Inv, Sound, Follows, Now;
      InvSound();
      trace := [Now()];
      for i := 0 to |entries|
        invariant Inv() && |trace| == i + 1 && trace[0] == old(Now()) && trace[i] == Now()
        invariant forall k :: 0 <= k < |trace| ==> Sound(trace[k])
        invariant forall k :: 0 <= k < i ==> Follows(entries[k].0, trace[k], trace[k + 1])
      {
        Answers(entries[i].1, entries[i].2, entries[i].3);
        Do(entries[i].0);
        InvSound();
        trace := trace + [Now()];
      }
    }

    method Answers(replies: seq<Reply>, states: seq<Device>, late: seq<bool>)
      requires Inv()
      modifies `mixer, `device, `passed
      ensures Inv() && Now() == old(Now())
      ensures mixer == old(mixer) + replies && device == old(device) + states && passed == old(passed) + late
    {
      mixer, device, passed := mixer + replies, device + states, passed + late;
    }
  }

  /** The samples the mixer has filled in these events. */
  ghost function Filled(es: seq<Event>): set<Sample> {
    (set s | s in Frames(es)) + (set s | s in Repaints(es))
  }

  lemma NoEvent(p: Progress)
    ensures HappenAll(p, []) == p && Frames([]) == [] && Repaints([]) == [] && Controls([]) == [] && Filled([]) == {}
  {}

  lemma MoreEvents(p: Progress, es: seq<Event>, more: seq<Event>)
    ensures HappenAll(HappenAll(p, es), more) == HappenAll(p, es + more)
    ensures |Frames(es + more)| == |Frames(es)| + |Frames(more)|
    ensures |Repaints(es + more)| == |Repaints(es)| + |Repaints(more)|
    ensures Controls(es + more) == Controls(es) + Controls(more) && Filled(es + more) == Filled(es) + Filled(more)
  {
    hide HappenAll, Frames, Repaints, Controls;
    HappenMore(p, es, more);
    EventsMore(es, more);
  }

  lemma TakenFromSet(free: seq<Sample>)
    requires free != [] && forall i, j :: 0 <= i < j < |free| ==> free[i] != free[j]
    ensures (set s | s in free[1..]) == (set s | s in free) - {free[0]}
  {
    assert free == [free[0]] + free[1..];
  }

  /** What an answer without a frame leads to: the media type as it is, cleared, or that of a new negotiation. */
  ghost predicate Answered(reply: Reply, hr: HResult, mixer: bool, state: RenderState,
                           was: Option<nat>, now: Option<nat>) {
    match reply
    case Output => true
    case NeedMoreInput => hr == MF_E_NEED_MORE_INPUT && now == was
    case OtherFailure => hr == E_FAIL && now == was
    case StreamChange => hr == MF_E_STREAM_CHANGE && now == None
    case TypeNotSet(proposals) =>
      hr != MF_E_NEED_MORE_INPUT
      && if mixer then (now, hr == S_OK) == Negotiate(proposals, was, state == RENDER_STATE_SHUTDOWN) else now == was
  }

  /** What becomes of a frame from the mixer. */
  function Passed(p: Progress, s: Sample, repaint: bool): Progress {
    Happen(p, if repaint then Repainted(s) else Frame(s))
  }

  lemma PassedHappens(p: Progress, s: Sample, repaint: bool)
    ensures var e := if repaint then Repainted(s) else Frame(s);
      && Controls([e]) == [] && Filled([e]) == {s}
      && |Frames([e])| + |Repaints([e])| == 1 && |Repaints([e])| == (if repaint then 1 else 0)
      && Passed(p, s, repaint) == HappenAll(p, [e])
  {
    HappenSingle(p, if repaint then Repainted(s) else Frame(s));
    hide Happen;
  }
}
