/**
 * The event by which Scheduler::Flush waits for the thread: it resets itself when a wait takes it, the wait gives
 * up after five seconds, and it ends as well when the thread is gone. The scheduler's machine runs below,
 * unchanged; the calls of Flush post their messages to it and look at the event.
 */
module FlushEvent {
  import opened Common
  import opened Media
  import S = Scheduler

  /** A call of Flush: its number, and how many samples had been queued before it. */
  datatype Call = Call(id: nat, mark: nat)

  datatype Reason = Signalled | ThreadGone | TimedOut

  /** A call that has returned, and how many samples were done with by then. */
  datatype Return = Return(call: Call, reason: Reason, done: nat)

  /**
   * The scheduler with the events it has gone through; whether the thread is between emptying the queue and
   * SetEvent; the event; the calls that wait, and those that have returned.
   */
  datatype State = State(
    s: S.Snapshot, played: seq<S.Event>, due: bool, event: bool, waiting: seq<Call>, returned: seq<Return>)

  /** An event of the scheduler, or a look at the event by the k-th call that waits, whose time is up or not. */
  datatype Event = Of(event: S.Event) | Look(k: nat, timeout: bool)

  const START := State(S.INITIAL, [], false, false, [], [])
  const FLUSH := Of(S.Other(S.PostFlush))

  /** WaitForMultipleObjects on the event and the thread: the event comes first, and only taking it resets it. */
  function Looked(t: State, k: nat, timeout: bool): State {
    var gone := t.s.place == S.Exited;
    if k >= |t.waiting| || !(t.event || gone || timeout) then t else
    var reason := if t.event then Signalled else if gone then ThreadGone else TimedOut;
    t.(event := false, waiting := t.waiting[..k] + t.waiting[k + 1..],
       returned := t.returned + [Return(t.waiting[k], reason, |t.s.log|)])
  }

  function Next(t: State, e: Event, rate: real, quarter: nat): State
    requires rate != 0.0
  {
    match e
    case Look(k, timeout) => Looked(t, k, timeout)
    case Of(event) =>
      if t.due && event.Turn? then t.(due := false, event := true) else
      var s := S.Next(t.s, event, rate, quarter);
      t.(s := s, played := t.played + [event], due := t.due || s.flushesDone > t.s.flushesDone,
         waiting := t.waiting + if e == FLUSH then [Call(t.s.flushesPosted, |t.s.accepted|)] else [])
  }

  function After(t: State, events: seq<Event>, rate: real, quarter: nat): State
    requires rate != 0.0
    decreases |events|
  {
    if events == [] then t else After(Next(t, events[0], rate, quarter), events[1..], rate, quarter)
  }

  // ----- The scheduler below -----

  ghost predicate Traces(t: State, trace: seq<S.Snapshot>, rate: real, quarter: nat)
    requires rate != 0.0
  {
    S.IsRun(trace, t.played, rate, quarter) && |trace| == |t.played| + 1 && trace[|t.played|] == t.s
  }

  /** The scheduler's part of a run is a run of the scheduler: waiting and looking do not change what it does. */
  lemma {:induction false} Plays(t: State, events: seq<Event>, trace: seq<S.Snapshot>, rate: real, quarter: nat)
    returns (longer: seq<S.Snapshot>)
    requires rate != 0.0 && Traces(t, trace, rate, quarter)
    ensures Traces(After(t, events, rate, quarter), longer, rate, quarter)
    decreases |events|
  {
    longer := trace;
    if events != [] {
      hide S.Next, Looked;
      var next := Next(t, events[0], rate, quarter);
      if next.played != t.played {
        assert S.IsRun(trace, next.played, rate, quarter);
        longer := longer + [next.s];
      } else {
        LooksApart(t, events[0], rate, quarter);
      }
      longer := Plays(next, events[1..], longer, rate, quarter);
    }
  }

  lemma LooksApart(t: State, e: Event, rate: real, quarter: nat)
    requires rate != 0.0 && Next(t, e, rate, quarter).played == t.played
    ensures Next(t, e, rate, quarter).s == t.s
  {
    hide S.Next;
  }

  lemma SampleConserves(s: S.Snapshot, input: S.Input, rate: real, quarter: nat)
    requires rate != 0.0 && S.Conserved(s) && s.place == S.Working && s.held != []
    ensures var n := S.SampleNext(s, input, rate, quarter);
      S.Conserved(n) && |s.log| <= |n.log| && n.flushesDone == s.flushesDone
  {
    hide S.Lead, S.NextSleep, S.Samples;
    S.SamplesSnoc(s.log, S.Presented(s.held[0], input.stamp, input.now, input.presentOk));
  }

  lemma MessageConserves(s: S.Snapshot)
    requires S.Conserved(s) && s.place == S.Peeking && s.messages != []
    ensures var n := S.TakeNext(s);
      S.Conserved(n) && |s.log| <= |n.log| && (n.flushesDone > s.flushesDone ==> |n.log| == |n.accepted|)
  {
    hide S.AllDropped, S.Samples;
    S.SamplesAppend(s.log, S.AllDropped(s.queue));
  }

  lemma Conserves(s: S.Snapshot, event: S.Event, rate: real, quarter: nat)
    requires rate != 0.0 && S.Conserved(s)
    ensures var n := S.Next(s, event, rate, quarter);
      && S.Conserved(n) && |s.log| <= |n.log|
      && (n.flushesDone > s.flushesDone ==> |n.log| == |n.accepted|)
  {
    hide S.SampleNext, S.TakeNext, S.Samples;
    if event.Turn? {
      if s.place == S.Peeking && s.messages != [] {
        MessageConserves(s);
      } else if s.place == S.Working && s.held != [] {
        SampleConserves(s, event.input, rate, quarter);
      }
    }
  }

  /** The flushes asked for that are neither completed nor among the messages: there are none. */
  function Lost(s: S.Snapshot): int {
    s.flushesPosted - s.flushesDone - multiset(s.messages)[S.eFlush]
  }

  lemma OtherLosesNone(s: S.Snapshot, step: S.Step)
    ensures var n := S.OtherNext(s, step); n.flushesDone == s.flushesDone && Lost(n) == Lost(s)
  {}

  /** The thread completes at most one flush at a time. */
  lemma TurnLosesNone(s: S.Snapshot, input: S.Input, rate: real, quarter: nat)
    requires rate != 0.0
    ensures var n := S.TurnNext(s, input, rate, quarter);
      s.flushesDone <= n.flushesDone <= s.flushesDone + 1 && Lost(n) == Lost(s)
  {
    hide S.Lead, S.NextSleep, S.AllDropped;
    if s.place == S.Peeking && s.messages != [] {
      S.Taken(s.messages);
    }
  }

  /** What one event of the scheduler does to what matters here. */
  lemma Advances(s: S.Snapshot, event: S.Event, rate: real, quarter: nat)
    requires rate != 0.0 && S.Conserved(s)
    ensures var n := S.Next(s, event, rate, quarter);
      && S.Conserved(n) && |s.log| <= |n.log| && |s.accepted| <= |n.accepted|
      && n.flushesPosted == s.flushesPosted + (if event == S.Other(S.PostFlush) then 1 else 0)
      && s.flushesDone <= n.flushesDone <= s.flushesDone + 1
      && (n.flushesDone > s.flushesDone ==> event.Turn? && |n.log| == |n.accepted|)
      && Lost(n) == Lost(s)
  {
    hide S.OtherNext, S.TurnNext, S.Conserved, Lost;
    S.StepAccepts(s, event, rate, quarter);
    Conserves(s, event, rate, quarter);
    match event
    case Other(step) => OtherLosesNone(s, step);
    case Turn(input) => TurnLosesNone(s, input, rate, quarter);
  }

  // ----- When a signal can be relied on -----

  /** Every sample is conserved, and calls are numbered. */
  predicate Good(t: State) {
    && S.Conserved(t.s)
    && (forall c :: c in t.waiting ==> c.id < t.s.flushesPosted)
    && (forall r :: r in t.returned ==> r.call.id < t.s.flushesPosted)
  }

  lemma StaysGood(t: State, e: Event, rate: real, quarter: nat)
    requires rate != 0.0 && Good(t)
    ensures Good(Next(t, e, rate, quarter))
  {
    hide S.Next, S.Conserved;
    if e.Of? {
      Advances(t.s, e.event, rate, quarter);
    }
  }

  lemma {:induction false} ReachedGood(t: State, events: seq<Event>, rate: real, quarter: nat)
    requires rate != 0.0 && Good(t)
    ensures Good(After(t, events, rate, quarter))
    decreases |events|
  {
    if events != [] {
      hide Good, Next;
      StaysGood(t, events[0], rate, quarter);
      ReachedGood(Next(t, events[0], rate, quarter), events[1..], rate, quarter);
    }
  }

  /** A signal for this call, if there has been one, came when everything queued before the call was done with. */
  predicate Reliable(t: State, call: Call) {
    forall r :: r in t.returned && r.call.id == call.id && r.reason == Signalled ==> call.mark <= r.done
  }

  /** However a run goes on from a call of Flush in this state, its signal can be relied on. */
  ghost predicate MayRely(t: State, rate: real, quarter: nat)
    requires rate != 0.0
  {
    forall events: seq<Event> :: Reliable(
      After(Next(t, FLUSH, rate, quarter), events, rate, quarter), Call(t.s.flushesPosted, |t.s.accepted|))
  }

  /** No signal of an earlier flush is there or about to come while samples are still to be done with. */
  predicate NoStaleSignal(t: State) {
    t.event || t.due ==> t.s.queue == [] && t.s.held == []
  }

  /** What holds from the call on. */
  predicate Covered(t: State, call: Call) {
    && S.Conserved(t.s) && Reliable(t, call)
    && call.id < t.s.flushesPosted && call.mark <= |t.s.accepted|
    && (t.event || t.due ==> call.mark <= |t.s.log|)
  }

  lemma StaysCovered(t: State, e: Event, call: Call, rate: real, quarter: nat)
    requires rate != 0.0 && Covered(t, call)
    ensures Covered(Next(t, e, rate, quarter), call)
  {
    hide S.Next, S.Conserved;
    if e.Of? {
      Advances(t.s, e.event, rate, quarter);
    }
  }

  lemma {:induction false} ReachedCovered(t: State, events: seq<Event>, call: Call, rate: real, quarter: nat)
    requires rate != 0.0 && Covered(t, call)
    ensures Reliable(After(t, events, rate, quarter), call)
    decreases |events|
  {
    if events != [] {
      hide Covered, Next;
      StaysCovered(t, events[0], call, rate, quarter);
      ReachedCovered(Next(t, events[0], rate, quarter), events[1..], call, rate, quarter);
    }
  }

  /**
   * The signal on which a call of Flush returns means that everything queued before the call is done with,
   * whatever happens, exactly if no stale signal is about when the call is made.
   */
  lemma SignalMeansDone(t: State, rate: real, quarter: nat)
    requires rate != 0.0 && Good(t)
    ensures MayRely(t, rate, quarter) <==> NoStaleSignal(t)
  {
    var call := Call(t.s.flushesPosted, |t.s.accepted|);
    var asked := Next(t, FLUSH, rate, quarter);
    if NoStaleSignal(t) {
      assert Covered(asked, call);
      forall events: seq<Event> ensures Reliable(After(asked, events, rate, quarter), call) {
        ReachedCovered(asked, events, call, rate, quarter);
      }
    } else {
      ReturnsEarly(t, rate, quarter);
    }
  }

  /** With a stale signal the call returns before its own flush. */
  lemma ReturnsEarly(t: State, rate: real, quarter: nat)
    requires rate != 0.0 && S.Conserved(t.s) && !NoStaleSignal(t)
    ensures !MayRely(t, rate, quarter)
  {
    var call := Call(t.s.flushesPosted, |t.s.accepted|);
    var asked := Next(t, FLUSH, rate, quarter);
    var look := Look(|t.waiting|, false);
    var events := if t.event then [look] else [Of(S.Turn(S.Input(false, None, None, true))), look];
    var ready := if t.event then asked else Next(asked, events[0], rate, quarter);
    var end := Next(ready, look, rate, quarter);
    assert After(ready, [look], rate, quarter) == end;
    assert t.event || events[1..] == [look];
    assert After(asked, events, rate, quarter) == end;
    var r := Return(call, Signalled, |t.s.log|);
    assert end.returned == t.returned + [r];
    assert r in end.returned && r.done < call.mark;
    assert !Reliable(end, call);
  }

  // ----- Calls one at a time -----

  predicate AllSignalled(t: State) {
    forall r :: r in t.returned ==> r.reason == Signalled
  }

  /** Without timeouts each flush under way, and each signal, has a call of its own that waits for it. */
  predicate Awaited(t: State) {
    AllSignalled(t) ==>
      multiset(t.s.messages)[S.eFlush] + (if t.due then 1 else 0) + (if t.event then 1 else 0) <= |t.waiting|
  }

  lemma StaysAwaited(t: State, e: Event, rate: real, quarter: nat)
    requires rate != 0.0 && S.Conserved(t.s) && Awaited(t)
    ensures Awaited(Next(t, e, rate, quarter))
  {
    hide S.Next, S.Conserved;
    var next := Next(t, e, rate, quarter);
    assert t.returned <= next.returned;
    assert AllSignalled(next) ==> AllSignalled(t) by {
      forall r | r in t.returned ensures r in next.returned {}
    }
    if e.Of? {
      Advances(t.s, e.event, rate, quarter);
    } else if next.returned != t.returned {
      assert next.returned[|t.returned|] in next.returned;
    }
  }

  lemma {:induction false} ReachedAwaited(t: State, events: seq<Event>, rate: real, quarter: nat)
    requires rate != 0.0 && Good(t) && Awaited(t)
    ensures Awaited(After(t, events, rate, quarter))
    decreases |events|
  {
    if events != [] {
      hide Awaited, Next, S.Conserved;
      StaysGood(t, events[0], rate, quarter);
      StaysAwaited(t, events[0], rate, quarter);
      ReachedAwaited(Next(t, events[0], rate, quarter), events[1..], rate, quarter);
    }
  }

  /** As long as no call has given up, a call made while none waits can rely on its signal. */
  lemma OneAtATime(events: seq<Event>, rate: real, quarter: nat)
    requires rate != 0.0
    requires var t := After(START, events, rate, quarter); AllSignalled(t) && t.waiting == []
    ensures MayRely(After(START, events, rate, quarter), rate, quarter)
  {
    ReachedGood(START, events, rate, quarter);
    ReachedAwaited(START, events, rate, quarter);
    SignalMeansDone(After(START, events, rate, quarter), rate, quarter);
  }

  lemma Onward(t: State, events: seq<Event>, i: nat, rate: real, quarter: nat)
    requires rate != 0.0 && i < |events|
    ensures After(t, events[i..], rate, quarter)
         == After(Next(t, events[i], rate, quarter), events[i + 1..], rate, quarter)
  {
    assert events[i..][1..] == events[i + 1..];
  }

  /** A flush gives up before the thread has had its turn; then a sample is queued, and the next flush is called. */
  function Late(x: Sample, input: S.Input): seq<Event> {
    var turn := Of(S.Turn(input));
    [FLUSH, Look(0, true), turn, turn, turn, Of(S.Other(S.Queue(x))), FLUSH, Look(0, false)]
  }

  lemma TimesOut(x: Sample, input: S.Input, rate: real, quarter: nat)
    requires rate != 0.0
    ensures var events := Late(x, input);
      After(START, events, rate, quarter) == After(GivenUp(), events[2..], rate, quarter)
  {
    var events := Late(x, input);
    var posted := Next(START, FLUSH, rate, quarter);
    Onward(START, events, 0, rate, quarter);
    Onward(posted, events, 1, rate, quarter);
    assert posted.played == [S.Other(S.PostFlush)];
    assert posted.s == S.INITIAL.(messages := [S.eFlush], flushesPosted := 1);
    assert Next(posted, events[1], rate, quarter) == GivenUp();
  }

  function GivenUp(): State {
    State(S.INITIAL.(messages := [S.eFlush], flushesPosted := 1), [S.Other(S.PostFlush)],
      false, false, [], [Return(Call(0, 0), TimedOut, 0)])
  }

  lemma TurnsStale(x: Sample, input: S.Input, rate: real, quarter: nat)
    requires rate != 0.0
    ensures var events := Late(x, input);
      After(GivenUp(), events[2..], rate, quarter) == After(Stale(input), events[5..], rate, quarter)
  {
    var events := Late(x, input);
    var peeking := Next(GivenUp(), events[2], rate, quarter);
    var flushed := Next(peeking, events[3], rate, quarter);
    Onward(GivenUp(), events, 2, rate, quarter);
    Onward(peeking, events, 3, rate, quarter);
    Onward(flushed, events, 4, rate, quarter);
    assert flushed.s.log == [];
    assert Next(flushed, events[4], rate, quarter) == Stale(input);
  }

  /** The state after the first five events: the flush is done, its call has given up, and its signal is there. */
  function Stale(input: S.Input): State {
    State(S.INITIAL.(place := S.Peeking, flushesPosted := 1, flushesDone := 1),
      [S.Other(S.PostFlush), S.Turn(input), S.Turn(input)], false, true, [], [Return(Call(0, 0), TimedOut, 0)])
  }

  /** The second flush returns on the signal of the first, while the sample is still queued. */
  lemma AfterATimeout(x: Sample, input: S.Input, rate: real, quarter: nat)
    requires rate != 0.0
    ensures var end := After(START, Late(x, input), rate, quarter);
      && end.returned == [Return(Call(0, 0), TimedOut, 0), Return(Call(1, 1), Signalled, 0)]
      && end.s.queue == [x] && end.s.log == []
  {
    var events := Late(x, input);
    TimesOut(x, input, rate, quarter);
    TurnsStale(x, input, rate, quarter);
    var queued := Next(Stale(input), events[5], rate, quarter);
    Onward(Stale(input), events, 5, rate, quarter);
    Onward(queued, events, 6, rate, quarter);
    Onward(Next(queued, FLUSH, rate, quarter), events, 7, rate, quarter);
  }
}
