/**
 * The scheduler of the presenter: producers queue samples and post messages, one thread waits, wakes and
 * presents. The thread's code is written out with a scheduling point before every step that other
 * threads can see; what the other threads do there, and what the clock says, comes from an arbitrary script.
 * What can be seen at those points is a run of a state machine, event by event as the script says, and
 * every state of it is safe.
 */
module Scheduler {
  import opened Common
  import opened Media

  datatype Message = eTerminate | eSchedule | eFlush

  datatype Wait = Infinite | Msec(n: nat)

  // ----- When a sample is due -----

  /** What ProcessSample asks for: the sample's time stamp, the clock's time, and whether presenting works. */
  datatype Input = Input(timeout: bool, stamp: Option<int>, now: Option<int>, presentOk: bool)

  /** The time until the sample is due, negative if it is late; what cannot be read counts as 0. */
  function Lead(input: Input, rate: real): int {
    var presentationTime := if input.stamp.Some? then input.stamp.value else 0;
    var timeNow := if input.stamp.Some? && input.now.Some? then input.now.value else 0;
    if rate < 0.0 then timeNow - presentationTime else presentationTime - timeNow
  }

  /** A sample whose time is more than three quarters of a frame away, with the clock going either way. */
  predicate TooEarly(input: Input, rate: real, quarter: nat) {
    input.stamp.Some? &&
    var now := if input.now.Some? then input.now.value else 0;
    if rate < 0.0 then now > input.stamp.value + 3 * quarter else now < input.stamp.value - 3 * quarter
  }

  lemma LeadTells(rate: real, quarter: nat)
    ensures forall input :: Lead(input, rate) > 3 * quarter <==> TooEarly(input, rate, quarter)
  {}

  /** While the clock runs on for ms milliseconds at this rate, the lead becomes what LeadAfter says. */
  lemma ClockMoves(stamp: int, now: int, later: int, timeout: bool, ok: bool, ms: nat, rate: real)
    requires later as real == now as real + 10000.0 * ms as real * rate
    ensures Lead(Input(timeout, Some(stamp), Some(later), ok), rate) as real
         == LeadAfter(Lead(Input(timeout, Some(stamp), Some(now), ok), rate), ms, rate)
  {
    if rate < 0.0 {
      NegativeRate(ms, rate);
    }
  }

  lemma NegativeRate(ms: nat, rate: real)
    requires rate < 0.0
    ensures 10000.0 * ms as real * Abs(rate) == -(10000.0 * ms as real * rate)
  {}

  function Abs(r: real): (a: real)
    ensures a >= 0.0 && (a == r || a == -r)
  {
    if r < 0.0 then -r else r
  }

  /** The sleep for a sample with this much lead: both conversions truncate. */
  function NextSleep(lead: int, quarter: nat, rate: real): (ms: nat)
    requires lead > 3 * quarter && rate != 0.0
  {
    (((lead - 3 * quarter) / 10000) as real / Abs(rate)).Floor
  }

  /** What is left of the lead after ms milliseconds, with the presentation clock running at rate. */
  function LeadAfter(lead: int, ms: nat, rate: real): real {
    lead as real - 10000.0 * ms as real * Abs(rate)
  }

  // Products are passed by name, which keeps these steps linear.

  lemma Positive(a: real, b: real, c: real)
    requires a > 0.0 && b > 0.0 && c == a * b
    ensures c > 0.0
  {}

  lemma ScaleLess(t: real, x: real, r: real, p: real, q: real)
    requires r > 0.0 && t < x && p == t * r && q == x * r
    ensures p < q
  {
    Positive(x - t, r, (x - t) * r);
  }

  lemma AddOne(t: real, r: real, p: real)
    requires p == t * r
    ensures (t + 1.0) * r == p + r
  {}

  lemma ScaledBetween(t: real, x: real, m: real, r: real, p: real)
    requires r > 0.0 && t <= x < t + 1.0 && x * r == m && p == t * r
    ensures p <= m < p + r
  {
    if t < x {
      ScaleLess(t, x, r, p, m);
    }
    AddOne(t, r, p);
    ScaleLess(x, t + 1.0, r, m, p + r);
  }

  /** A quotient truncated to t, scaled back. */
  lemma Truncated(t: real, m: real, r: real, p: real)
    requires r > 0.0 && t <= m / r < t + 1.0 && p == t * r
    ensures p <= m < p + r
  {
    var x := m / r;
    assert x * r == m;
    ScaledBetween(t, x, m, r, p);
  }

  lemma TenThousand(t: real, r: real)
    ensures 10000.0 * t * r == 10000.0 * (t * r)
  {}

  /**
   * Sleeping as long as told never passes the three-quarter-frame point, and stops short of it by less
   * than the two truncations account for.
   */
  lemma SleepBound(lead: int, quarter: nat, rate: real)
    requires lead > 3 * quarter && rate != 0.0
    ensures var after := LeadAfter(lead, NextSleep(lead, quarter, rate), rate);
      3.0 * quarter as real <= after < 3.0 * quarter as real + 10000.0 * (1.0 + Abs(rate))
  {
    var r := Abs(rate);
    var excess := lead - 3 * quarter;
    var ms := excess / 10000;
    var t := NextSleep(lead, quarter, rate);
    var slept := t as real * r;
    Truncated(t as real, ms as real, r, slept);
    TenThousand(t as real, r);
    assert LeadAfter(lead, t, rate) == lead as real - 10000.0 * slept;
    assert 10000.0 * ms as real <= excess as real < 10000.0 * ms as real + 10000.0;
    assert lead as real == excess as real + 3.0 * quarter as real;
  }

  /**
   * A sample that is put back for a sleep: when the sleep is over and the clock has run on, the sample is still at
   * least three quarters of a frame early, and at most by what the truncations cost earlier than that.
   */
  lemma WakesInTime(stamp: int, now: int, later: int, quarter: nat, rate: real)
    requires rate != 0.0
    requires if rate < 0.0 then now > stamp + 3 * quarter else now < stamp - 3 * quarter
    requires var lead := if rate < 0.0 then now - stamp else stamp - now;
      later as real == now as real + 10000.0 * NextSleep(lead, quarter, rate) as real * rate
    ensures var early := (if rate < 0.0 then later - stamp else stamp - later) as real;
      3.0 * quarter as real <= early < 3.0 * quarter as real + 10000.0 * (1.0 + Abs(rate))
  {
    var lead := if rate < 0.0 then now - stamp else stamp - now;
    SleepBound(lead, quarter, rate);
    hide Abs, NextSleep, LeadAfter;
    ClockMoves(stamp, now, later, false, true, NextSleep(lead, quarter, rate), rate);
  }

  // ----- What the other threads see -----

  /**
   * What became of a sample: the thread presented it, when its stamp and the clock read like this, and it worked or
   * not; or it was thrown away.
   */
  datatype Done = Presented(sample: Sample, stamp: Option<int>, now: Option<int>, ok: bool) | Dropped(sample: Sample)

  function Samples(log: seq<Done>): (s: seq<Sample>)
    ensures |s| == |log|
  {
    seq(|log|, i requires 0 <= i < |log| => log[i].sample)
  }

  function AllDropped(queue: seq<Sample>): (log: seq<Done>)
    ensures Samples(log) == queue
  {
    seq(|queue|, i requires 0 <= i < |queue| => Dropped(queue[i]))
  }

  /** Where the thread is: blocked in the wait, taking messages, processing samples, or gone. */
  datatype Place = Waiting | Peeking | Working | Exited

  datatype Snapshot = Snapshot(
    place: Place, lWait: Wait, bExitThread: bool,
    queue: seq<Sample>, held: seq<Sample>, messages: seq<Message>, posting: nat,
    accepted: seq<Sample>, log: seq<Done>, flushed: nat,
    flushesPosted: nat, flushesDone: nat, terminatesPosted: nat)

  /** Every sample ever queued is, in queueing order, done with, held by the thread, or still queued. */
  predicate Conserved(s: Snapshot) {
    s.accepted == Samples(s.log) + s.held + s.queue && |s.held| <= if s.place == Working then 1 else 0
  }

  /** A live thread that waits for messages only has nothing to do, or a message is there or on its way. */
  predicate NoLostWakeup(s: Snapshot) {
    s.place in {Waiting, Peeking} && !s.bExitThread && s.lWait == Infinite ==>
      s.queue == [] || eSchedule in s.messages || s.posting > 0
  }

  /**
   * What was queued before the last completed flush is done with, and nothing else was ever thrown away;
   * each flush asked for is completed or still in the message queue.
   */
  predicate FlushDone(log: seq<Done>, flushed: nat, messages: seq<Message>, flushesDone: nat, flushesPosted: nat) {
    && flushed <= |log|
    && (forall i :: 0 <= i < |log| && log[i].Dropped? ==> i < flushed)
    && flushesDone + multiset(messages)[eFlush] == flushesPosted
  }

  /**
   * The thread is to stop if it has been asked to by a message it has taken, and otherwise only when presenting a
   * sample has failed; it waits only as long as it is not, and is gone only if it is.
   */
  predicate ExitExplained(place: Place, bExitThread: bool, messages: seq<Message>, terminatesPosted: nat,
                          log: seq<Done>) {
    && multiset(messages)[eTerminate] <= terminatesPosted
    && (bExitThread ==> multiset(messages)[eTerminate] < terminatesPosted || Failure(log))
    && (multiset(messages)[eTerminate] < terminatesPosted ==> bExitThread)
    && (place == Waiting ==> !bExitThread) && (place == Exited ==> bExitThread)
  }

  predicate Failure(log: seq<Done>) {
    exists i :: 0 <= i < |log| && log[i].Presented? && !log[i].ok
  }

  /** Nothing is presented more than three quarters of a frame ahead of its time, with the clock going either way. */
  predicate Timely(log: seq<Done>, rate: real, quarter: nat) {
    forall i :: 0 <= i < |log| && log[i].Presented? && log[i].stamp.Some? && log[i].now.Some? ==>
      if rate < 0.0 then log[i].now.value <= log[i].stamp.value + 3 * quarter
      else log[i].now.value >= log[i].stamp.value - 3 * quarter
  }

  predicate Safe(s: Snapshot, rate: real, quarter: nat) {
    && Conserved(s) && NoLostWakeup(s) && Timely(s.log, rate, quarter)
    && FlushDone(s.log, s.flushed, s.messages, s.flushesDone, s.flushesPosted)
    && ExitExplained(s.place, s.bExitThread, s.messages, s.terminatesPosted, s.log)
  }

  /** What another thread can do between two steps of the scheduler thread. */
  datatype Step = Queue(sample: Sample) | PostSchedule | PostFlush | PostTerminate

  datatype Event = Other(step: Step) | Turn(input: Input)

  // ----- The machine -----

  function OtherNext(s: Snapshot, step: Step): Snapshot {
    match step
    case Queue(sample) => s.(queue := s.queue + [sample], accepted := s.accepted + [sample], posting := s.posting + 1)
    case PostSchedule => if s.posting > 0 then s.(messages := s.messages + [eSchedule], posting := s.posting - 1) else s
    case PostFlush => s.(messages := s.messages + [eFlush], flushesPosted := s.flushesPosted + 1)
    case PostTerminate => s.(messages := s.messages + [eTerminate], terminatesPosted := s.terminatesPosted + 1)
  }

  /** What the thread does when it is its turn: up to the next point where other threads can look. */
  function TurnNext(s: Snapshot, input: Input, rate: real, quarter: nat): Snapshot
    requires rate != 0.0
  {
    match s.place
    case Exited => s
    case Waiting =>
      if s.lWait.Msec? && input.timeout then s.(place := Working)
      else if s.messages == [] then s else s.(place := Peeking)
    case Peeking => if s.messages == [] then s.(place := if s.bExitThread then Exited else Waiting) else TakeNext(s)
    case Working =>
      if s.held != [] then SampleNext(s, input, rate, quarter)
      else if s.queue == [] then s.(lWait := Infinite, place := Peeking)
      else s.(held := [s.queue[0]], queue := s.queue[1..])
  }

  function TakeNext(s: Snapshot): Snapshot
    requires s.messages != []
  {
    var rest := s.(messages := s.messages[1..]);
    match s.messages[0]
    case eTerminate => rest.(bExitThread := true)
    case eSchedule => rest.(place := Working)
    case eFlush =>
      rest.(queue := [], log := s.log + AllDropped(s.queue), lWait := Infinite,
            flushed := |s.accepted|, flushesDone := s.flushesDone + 1)
  }

  /** The sample in the thread's hands is presented, or goes back to the front of the queue for a sleep. */
  function SampleNext(s: Snapshot, input: Input, rate: real, quarter: nat): Snapshot
    requires rate != 0.0 && s.held != []
  {
    var lead := Lead(input, rate);
    if lead > 3 * quarter then
      var ms := NextSleep(lead, quarter, rate);
      var back := s.(queue := [s.held[0]] + s.queue, held := []);
      if ms > 0 then back.(lWait := Msec(ms), place := Peeking) else back
    else
      var done := s.(log := s.log + [Presented(s.held[0], input.stamp, input.now, input.presentOk)], held := []);
      if input.presentOk then done else done.(lWait := Infinite, bExitThread := true, place := Peeking)
  }

  /**
   * The thread's turn with a sample in its hands: an unreadable stamp is presented, and otherwise the sample exactly
   * when its time has come, up to three quarters of a frame; if not, it goes back to the front of the queue.
   */
  lemma PresentedWhenDue(s: Snapshot, timeout: bool, stamp: int, now: int, ok: bool, rate: real, quarter: nat)
    requires rate != 0.0 && s.place == Working && s.held != []
    ensures forall clock :: TurnNext(s, Input(timeout, None, clock, ok), rate, quarter).log
                         == s.log + [Presented(s.held[0], None, clock, ok)]
    ensures var next := TurnNext(s, Input(timeout, Some(stamp), Some(now), ok), rate, quarter);
      var due := if rate < 0.0 then now <= stamp + 3 * quarter else now >= stamp - 3 * quarter;
      if due then next.log == s.log + [Presented(s.held[0], Some(stamp), Some(now), ok)] && next.queue == s.queue
      else
        var ms := NextSleep(if rate < 0.0 then now - stamp else stamp - now, quarter, rate);
        next.log == s.log && next.queue == [s.held[0]] + s.queue && (ms > 0 ==> next.lWait == Msec(ms))
  {
    hide NextSleep;
  }

  function Next(s: Snapshot, event: Event, rate: real, quarter: nat): Snapshot
    requires rate != 0.0
  {
    match event
    case Other(step) => OtherNext(s, step)
    case Turn(input) => TurnNext(s, input, rate, quarter)
  }

  const INITIAL := Snapshot(Waiting, Infinite, false, [], [], [], 0, [], [], 0, 0, 0, 0)

  /** A run: from the initial state, one event of the script after the other. */
  predicate IsRun(trace: seq<Snapshot>, script: seq<Event>, rate: real, quarter: nat)
    requires rate != 0.0
  {
    && |trace| <= |script| + 1
    && (trace != [] ==> trace[0] == INITIAL)
    && forall i :: 0 < i < |trace| ==> trace[i] == Next(trace[i - 1], script[i - 1], rate, quarter)
  }

  lemma RunGrows(trace: seq<Snapshot>, s: Snapshot, script: seq<Event>, rate: real, quarter: nat)
    requires rate != 0.0 && IsRun(trace, script, rate, quarter) && |trace| <= |script|
    requires s == if trace == [] then INITIAL else Next(trace[|trace| - 1], script[|trace| - 1], rate, quarter)
    ensures IsRun(trace + [s], script, rate, quarter)
  {
    hide Next;
  }

  /** The samples queued by these events, in order. */
  function Queued(events: seq<Event>): seq<Sample> {
    if events == [] then [] else
    var last := events[|events| - 1];
    Queued(events[..|events| - 1]) + if last.Other? && last.step.Queue? then [last.step.sample] else []
  }

  /** How often these events ask for this. */
  function Count(events: seq<Event>, step: Step): nat {
    if events == [] then 0 else
    Count(events[..|events| - 1], step) + if events[|events| - 1] == Other(step) then 1 else 0
  }

  lemma StepAccepts(s: Snapshot, event: Event, rate: real, quarter: nat)
    requires rate != 0.0
    ensures var next := Next(s, event, rate, quarter);
      && next.accepted == s.accepted + (if event.Other? && event.step.Queue? then [event.step.sample] else [])
      && next.flushesPosted == s.flushesPosted + (if event == Other(PostFlush) then 1 else 0)
      && next.terminatesPosted == s.terminatesPosted + (if event == Other(PostTerminate) then 1 else 0)
  {
    hide Lead, NextSleep, AllDropped;
  }

  /** Each state has accepted exactly what the script has queued up to there, and knows of every flush and stop. */
  lemma {:induction false} RunAccepts(trace: seq<Snapshot>, script: seq<Event>, rate: real, quarter: nat, i: nat)
    requires rate != 0.0 && IsRun(trace, script, rate, quarter) && i < |trace|
    ensures trace[i].accepted == Queued(script[..i])
    ensures trace[i].flushesPosted == Count(script[..i], PostFlush)
    ensures trace[i].terminatesPosted == Count(script[..i], PostTerminate)
  {
    if i > 0 {
      hide Next;
      RunAccepts(trace, script, rate, quarter, i - 1);
      assert script[..i][..i - 1] == script[..i - 1] && script[..i][i - 1] == script[i - 1];
      StepAccepts(trace[i - 1], script[i - 1], rate, quarter);
    }
  }

  lemma FailureStops(s: Snapshot, event: Event, rate: real, quarter: nat)
    requires rate != 0.0 && (Failure(s.log) ==> s.bExitThread)
    ensures var n := Next(s, event, rate, quarter);
      (Failure(n.log) ==> n.bExitThread) && (s.bExitThread ==> n.bExitThread)
  {
    hide Lead, NextSleep, Failure;
    if event.Turn? && s.place == Peeking && s.messages != [] {
      FailureNotAdded(s.log, AllDropped(s.queue));
    } else if event.Turn? && s.place == Working && s.held != [] && event.input.presentOk {
      FailureNotAdded(s.log, [Presented(s.held[0], event.input.stamp, event.input.now, true)]);
    }
  }

  lemma FailureNotAdded(log: seq<Done>, more: seq<Done>)
    requires forall d :: d in more && d.Presented? ==> d.ok
    ensures Failure(log + more) ==> Failure(log)
  {
    if Failure(log + more) {
      assert forall k :: |log| <= k < |log + more| ==> (log + more)[k] in more;
      var i :| 0 <= i < |log + more| && (log + more)[i].Presented? && !(log + more)[i].ok;
      assert i < |log|;
      assert log[i] == (log + more)[i];
    }
  }

  /** In every state of a run, a sample whose presenting failed means that the thread is to stop. */
  lemma {:induction false} FailedStops(trace: seq<Snapshot>, script: seq<Event>, rate: real, quarter: nat, i: nat)
    requires rate != 0.0 && IsRun(trace, script, rate, quarter) && i < |trace|
    ensures Failure(trace[i].log) ==> trace[i].bExitThread
  {
    if i > 0 {
      hide Next, Failure;
      FailedStops(trace, script, rate, quarter, i - 1);
      FailureStops(trace[i - 1], script[i - 1], rate, quarter);
    }
  }

  /** A thread that is to stop, with no more messages, is gone after its turn; one that is gone stays so. */
  lemma StopsAtOnce(s: Snapshot, input: Input, rate: real, quarter: nat)
    requires rate != 0.0
    ensures s.place == Peeking && s.messages == [] ==>
      TurnNext(s, input, rate, quarter).place == if s.bExitThread then Exited else Waiting
    ensures s.place == Exited ==> TurnNext(s, input, rate, quarter) == s
  {
    hide SampleNext, TakeNext;
  }

  /** The state after some turns of the thread in which nobody else does anything. */
  function Turns(s: Snapshot, inputs: seq<Input>, rate: real, quarter: nat): Snapshot
    requires rate != 0.0
  {
    if inputs == [] then s else
    TurnNext(Turns(s, inputs[..|inputs| - 1], rate, quarter), inputs[|inputs| - 1], rate, quarter)
  }

  /** A sample that is due is presented: when the sleep is over, in the third turn of the thread. */
  lemma DueIsPresented(s: Snapshot, a: Input, b: Input, c: Input, rate: real, quarter: nat)
    requires rate != 0.0 && s.place == Waiting && s.held == [] && s.queue != []
    requires s.lWait.Msec? && a.timeout && !TooEarly(c, rate, quarter)
    ensures Turns(s, [a, b, c], rate, quarter).log
         == s.log + [Presented(s.queue[0], c.stamp, c.now, c.presentOk)]
  {
    ThreeTurns(s, a, b, c, rate, quarter);
    InHand(s.(place := Working), b, c, rate, quarter);
    hide TooEarly, TakeNext, SampleNext, Turns;
  }

  /** On a message to schedule it is presented in the fourth. */
  lemma ScheduledIsPresented(s: Snapshot, a: Input, b: Input, c: Input, d: Input, rate: real, quarter: nat)
    requires rate != 0.0 && s.place == Waiting && s.held == [] && s.queue != []
    requires !(s.lWait.Msec? && a.timeout) && s.messages != [] && s.messages[0] == eSchedule
    requires !TooEarly(d, rate, quarter)
    ensures Turns(s, [a, b, c, d], rate, quarter).log
         == s.log + [Presented(s.queue[0], d.stamp, d.now, d.presentOk)]
  {
    ThreeTurns(s, a, b, c, rate, quarter);
    OneTurn(s, [a, b, c], d, rate, quarter);
    assert [a, b, c] + [d] == [a, b, c, d];
    InHand(s.(place := Working, messages := s.messages[1..]), c, d, rate, quarter);
    hide TooEarly, SampleNext;
  }

  /** The thread at work takes the first sample and, if that is due, presents it. */
  lemma InHand(s: Snapshot, a: Input, b: Input, rate: real, quarter: nat)
    requires rate != 0.0 && s.place == Working && s.held == [] && s.queue != [] && !TooEarly(b, rate, quarter)
    ensures TurnNext(TurnNext(s, a, rate, quarter), b, rate, quarter).log
         == s.log + [Presented(s.queue[0], b.stamp, b.now, b.presentOk)]
  {
    LeadTells(rate, quarter);
    hide Lead, TooEarly, NextSleep, TakeNext;
  }

  lemma ThreeTurns(s: Snapshot, a: Input, b: Input, c: Input, rate: real, quarter: nat)
    requires rate != 0.0
    ensures Turns(s, [a, b, c], rate, quarter)
         == TurnNext(TurnNext(TurnNext(s, a, rate, quarter), b, rate, quarter), c, rate, quarter)
  {
    hide TurnNext;
    OneTurn(s, [], a, rate, quarter);
    OneTurn(s, [a], b, rate, quarter);
    OneTurn(s, [a, b], c, rate, quarter);
    assert [] + [a] == [a] && [a] + [b] == [a, b] && [a, b] + [c] == [a, b, c];
  }

  lemma OneTurn(s: Snapshot, inputs: seq<Input>, input: Input, rate: real, quarter: nat)
    requires rate != 0.0
    ensures Turns(s, inputs + [input], rate, quarter) == TurnNext(Turns(s, inputs, rate, quarter), input, rate, quarter)
    ensures Turns(s, [], rate, quarter) == s
  {
    hide TurnNext;
    assert (inputs + [input])[..|inputs|] == inputs;
  }

  class Scheduler {
    const m_fRate: real
    const m_PerFrame_1_4th: nat
    var m_ScheduledSamples: seq<Sample>
    var messages: seq<Message>  // the thread's message queue
    var posting: nat            // producers between Queue and PostThreadMessage
    var script: seq<Event>      // what happens from here on
    var lWait: Wait
    var bExitThread: bool

    ghost var place: Place
    ghost var held: seq<Sample>
    ghost var accepted: seq<Sample>  // every sample ever queued
    ghost var log: seq<Done>
    ghost var flushed: nat           // samples queued before the last completed flush
    ghost var flushesPosted: nat
    ghost var flushesDone: nat
    ghost var terminatesPosted: nat
    ghost var trace: seq<Snapshot>   // every state other threads have seen
    ghost const start: seq<Event>    // the script from the beginning

    constructor (rate: real, quarter: nat, script: seq<Event>)
      requires rate != 0.0
      ensures Inv() && Snap() == INITIAL && start == this.script == script && trace == [] && Arrived()
      ensures m_fRate == rate && m_PerFrame_1_4th == quarter
    {
      m_fRate := rate;
      m_PerFrame_1_4th := quarter;
      m_ScheduledSamples, messages, posting := [], [], 0;
      this.script, start := script, script;
      lWait, bExitThread, place := Infinite, false, Waiting;
      held, accepted, log, flushed, trace := [], [], [], 0, [];
      flushesPosted, flushesDone, terminatesPosted := 0, 0, 0;
    }

    ghost function Snap(): Snapshot
      reads this
    {
      Snapshot(place, lWait, bExitThread, m_ScheduledSamples, held, messages, posting, accepted, log, flushed,
        flushesPosted, flushesDone, terminatesPosted)
    }

    ghost predicate Inv()
      reads this
    {
      && m_fRate != 0.0
      && Safe(Snap(), m_fRate, m_PerFrame_1_4th)
      && forall i :: 0 <= i < |trace| ==> Safe(trace[i], m_fRate, m_PerFrame_1_4th)
    }

    /** The states seen so far are a run, and the rest of the script is still to come. */
    ghost predicate Followed()
      reads `trace, `script
    {
      && m_fRate != 0.0 && IsRun(trace, start, m_fRate, m_PerFrame_1_4th)
      && |script| <= |start| && script == start[|start| - |script|..]
    }

    /** What the event after the last state seen leads to. */
    ghost function Ahead(): Snapshot
      reads `trace
    {
      if trace == [] || |trace| > |start| || m_fRate == 0.0 then INITIAL
      else Next(trace[|trace| - 1], start[|trace| - 1], m_fRate, m_PerFrame_1_4th)
    }

    ghost predicate InTurn()
      reads `trace, `script
    {
      Followed() && |trace| + |script| == |start|
    }

    /** The thread has done what its turn asks for: the state is the next of the run. */
    ghost predicate Arrived()
      reads this
    {
      InTurn() && Snap() == Ahead()
    }

    /** It is the thread's turn, with this input, in the last state seen. */
    ghost predicate Turned(input: Input)
      reads this
    {
      && InTurn() && trace != [] && trace[|trace| - 1] == Snap()
      && start[|trace| - 1] == Turn(input)
      && Ahead() == TurnNext(Snap(), input, m_fRate, m_PerFrame_1_4th)
    }

    /** All that is left of the turn is to go back to the messages, for good if there was an error. */
    ghost predicate Finishing(hr: bool)
      reads this
    {
      InTurn() && Snap().(place := Peeking, bExitThread := bExitThread || !hr) == Ahead()
    }

    /** The last state seen is this one. */
    ghost predicate Seen()
      reads this
    {
      Followed() && |trace| + |script| == |start| + 1 && trace[|trace| - 1] == Snap()
    }

    /** The script has come to its end, and every state has been seen. */
    ghost predicate Ended()
      reads this
    {
      Seen() && script == []
    }

    /** All that is left of the turn is to go back to the wait, or to leave. */
    ghost predicate Leaving()
      reads this
    {
      InTurn() && Snap().(place := if bExitThread then Exited else Waiting) == Ahead()
    }

    /** A producer's Queue; its PostThreadMessage is still to come. */
    method Accept(sample: Sample)
      requires Inv()
      modifies `m_ScheduledSamples, `posting, `accepted
      ensures Inv() && posting == old(posting) + 1
      ensures m_ScheduledSamples == old(m_ScheduledSamples) + [sample] && accepted == old(accepted) + [sample]
    {
      hide FlushDone, ExitExplained, Timely;
      m_ScheduledSamples := m_ScheduledSamples + [sample];
      accepted := accepted + [sample];
      posting := posting + 1;
    }

    method PostAfterQueue()
      requires Inv()
      modifies `messages, `posting
      ensures Inv()
      ensures if old(posting) > 0 then posting == old(posting) - 1 && messages == old(messages) + [eSchedule]
              else posting == 0 && messages == old(messages)
    {
      hide Samples, Timely, Failure;
      if posting > 0 {
        messages := messages + [eSchedule];
        posting := posting - 1;
      }
    }

    method PostFlushMessage()
      requires Inv()
      modifies `messages, `flushesPosted
      ensures Inv() && messages == old(messages) + [eFlush] && flushesPosted == old(flushesPosted) + 1
    {
      hide Samples, Timely, Failure;
      messages := messages + [eFlush];
      flushesPosted := flushesPosted + 1;
    }

    method PostTerminateMessage()
      requires Inv()
      modifies `messages, `terminatesPosted
      ensures Inv() && messages == old(messages) + [eTerminate] && terminatesPosted == old(terminatesPosted) + 1
    {
      hide Samples, Timely, Failure;
      messages := messages + [eTerminate];
      terminatesPosted := terminatesPosted + 1;
    }

    /** One step of another thread: a producer's Queue or its PostThreadMessage, or a post by Flush or StopScheduler. */
    method OtherStep(step: Step)
      requires Inv()
      modifies `m_ScheduledSamples, `messages, `posting, `accepted, `trace, `flushesPosted, `terminatesPosted
      ensures Inv()
      ensures Snap() == OtherNext(old(Snap()), step) && trace == old(trace) + [Snap()]
    {
      hide Safe;
      match step {
        case Queue(sample) => Accept(sample);
        case PostSchedule => PostAfterQueue();
        case PostFlush => PostFlushMessage();
        case PostTerminate => PostTerminateMessage();
      }
      trace := trace + [Snap()];
    }

    /** One more state seen. */
    ghost method See()
      requires Inv() && Arrived()
      modifies `trace
      ensures Inv() && Seen() && trace == old(trace) + [Snap()]
    {
      hide Safe, Next, IsRun;
      RunGrows(trace, Snap(), start, m_fRate, m_PerFrame_1_4th);
      trace := trace + [Snap()];
    }

    /** The next event of the script. */
    method TakeEvent() returns (event: Event)
      requires Seen() && script != []
      modifies `script
      ensures InTurn() && trace != [] && script == old(script)[1..]
      ensures event == old(script)[0] == start[|trace| - 1]
    {
      hide IsRun, Snap;
      event := script[0];
      assert event == start[|trace| - 1];
      script := script[1..];
    }

    /** An event is followed: what another thread does is seen at once. */
    method Follow() returns (event: Event)
      requires Inv() && Seen() && script != []
      modifies `m_ScheduledSamples, `messages, `posting, `accepted, `trace, `flushesPosted, `terminatesPosted, `script
      ensures Inv() && script == old(script)[1..] && event == old(script)[0]
      ensures trace != [] && if event.Turn? then Turned(event.input) else Seen()
    {
      hide Safe, OtherNext, TurnNext, IsRun;
      event := TakeEvent();
      if event.Other? {
        ghost var was := trace;
        OtherStep(event.step);
        RunGrows(was, Snap(), start, m_fRate, m_PerFrame_1_4th);
      }
    }

    /**
     * A scheduling point: the other threads do what the script says until it is this thread's turn. The
     * observation ends where the script does.
     */
    method Yield() returns (go: bool, input: Input)
      requires Inv() && Arrived()
      modifies `m_ScheduledSamples, `messages, `posting, `accepted, `trace, `flushesPosted, `terminatesPosted, `script
      ensures Inv() && trace != []
      ensures if go then |script| < |old(script)| && Turn(input) in old(script) && Turned(input) else Ended()
    {
      hide Inv, Seen, Arrived, Turned;
      See();
      input := Input(false, None, None, true);
      while script != []
        invariant Inv() && Seen() && trace != [] && |script| <= |old(script)|
        invariant forall e :: e in script ==> e in old(script)
        decreases |script|
      {
        var event := Follow();
        if event.Turn? {
          return true, event.input;
        }
      }
      return false, input;
    }

    /** The thread takes the first sample in its hands; nothing on an empty queue. */
    method Dequeue(ghost input: Input) returns (pSample: Option<Sample>)
      requires Inv() && place == Working && held == [] && Turned(input)
      modifies `m_ScheduledSamples, `held
      ensures Inv() && if pSample.None? then Turned(input) else Arrived()
      ensures if old(m_ScheduledSamples) == [] then pSample == None && m_ScheduledSamples == [] && held == []
              else pSample == Some(old(m_ScheduledSamples)[0]) && held == [pSample.value]
    {
      hide IsRun, SampleNext, TakeNext;
      if m_ScheduledSamples == [] {
        return None;
      }
      pSample := Some(m_ScheduledSamples[0]);
      m_ScheduledSamples := m_ScheduledSamples[1..];
      held := [pSample.value];
      assert old(m_ScheduledSamples) == held + m_ScheduledSamples;
    }

    /**
     * ProcessSample: on what the clock says, the sample is presented if it is due, and otherwise put back
     * with the time to sleep.
     */
    method ProcessSample(pSample: Sample) returns (live: bool, hr: bool, nextSleep: nat, ghost input: Input)
      requires Inv() && place == Working && held == [pSample] && Arrived()
      modifies `m_ScheduledSamples, `messages, `posting, `accepted, `trace, `flushesPosted, `terminatesPosted, `script,
               `held, `log
      ensures Inv() && |script| <= |old(script)| && trace != []
      ensures if live then held == [] && Turn(input) in old(script) else Ended()
      ensures live ==> InTurn() && WaitSet(nextSleep, hr)
      ensures live && TooEarly(input, m_fRate, m_PerFrame_1_4th) ==>
        && m_ScheduledSamples != [] && m_ScheduledSamples[0] == pSample && log == old(log)
        && hr && nextSleep == NextSleep(Lead(input, m_fRate), m_PerFrame_1_4th, m_fRate)
      ensures live && !TooEarly(input, m_fRate, m_PerFrame_1_4th) ==>
        && log == old(log) + [Presented(pSample, input.stamp, input.now, hr)]
        && hr == input.presentOk && nextSleep == 0
    {
      LeadTells(m_fRate, m_PerFrame_1_4th);
      hide IsRun, Lead, NextSleep, TakeNext, Safe, TooEarly;
      var go, turn := Yield();
      input := turn;
      if !go {
        return false, true, 0, input;
      }
      var lead := Lead(turn, m_fRate);
      if lead > 3 * m_PerFrame_1_4th {
        nextSleep := NextSleep(lead, m_PerFrame_1_4th, m_fRate);
        PutBack(pSample);
        return true, true, nextSleep, input;
      }
      PresentSample(pSample, turn);
      return true, turn.presentOk, 0, input;
    }

    /** The turn's outcome, but for the wait and what follows an error: with neither, the thread goes on. */
    ghost predicate WaitSet(wait: nat, hr: bool)
      reads this
    {
      if wait > 0 then Snap().(lWait := Msec(wait), place := Peeking) == Ahead()
      else if !hr then Snap().(lWait := Infinite, bExitThread := true, place := Peeking) == Ahead()
      else Snap() == Ahead()
    }

    /** PutBack: to the front of the queue. */
    method PutBack(pSample: Sample)
      requires Inv() && place == Working && held == [pSample]
      modifies `m_ScheduledSamples, `held
      ensures Inv() && held == [] && m_ScheduledSamples == [pSample] + old(m_ScheduledSamples)
    {
      m_ScheduledSamples := [pSample] + m_ScheduledSamples;
      held := [];
      assert Samples(log) + [pSample] + old(m_ScheduledSamples) == Samples(log) + ([pSample] + old(m_ScheduledSamples));
    }

    method PresentSample(pSample: Sample, ghost input: Input)
      requires Inv() && place == Working && held == [pSample] && Lead(input, m_fRate) <= 3 * m_PerFrame_1_4th
      modifies `held, `log
      ensures Inv() && held == []
      ensures log == old(log) + [Presented(pSample, input.stamp, input.now, input.presentOk)]
    {
      ghost var done := Presented(pSample, input.stamp, input.now, input.presentOk);
      SamplesSnoc(log, done);
      FailureStays(log, [done]);
      log := log + [done];
      held := [];
    }

    /** ProcessSamplesInQueue: the wait is infinite only if the queue was seen empty or an error occurred. */
    method ProcessSamplesInQueue() returns (live: bool, hr: bool)
      requires Inv() && place == Working && held == [] && Arrived()
      modifies `m_ScheduledSamples, `messages, `posting, `accepted, `trace, `flushesPosted, `terminatesPosted, `script,
               `held, `log, `lWait
      ensures Inv() && |script| <= |old(script)| && trace != []
      ensures if live then held == [] && Finishing(hr) else Ended()
      ensures live ==> lWait != Msec(0) && (lWait == Infinite ==> !hr || m_ScheduledSamples == [])
      ensures live && !hr ==> Failure(log)
    {
      hide Safe, Failure, Lead, NextSleep, Turned, InTurn, TurnNext;
      var wait := 0;
      hr := true;
      while true
        invariant Inv() && place == Working && held == [] && hr && wait == 0 && lWait == old(lWait)
        invariant Arrived() && |script| <= |old(script)|
        decreases |script|
      {
        var go, input := Yield();
        if !go {
          return false, hr;
        }
        var pSample := Dequeue(input);
        if pSample.None? {
          QueueSeenEmpty(input);
          break;
        }
        ghost var input';
        live, hr, wait, input' := ProcessSample(pSample.value);
        if !live {
          return;
        }
        if !hr {
          FailureLast(log);
          break;
        }
        if wait > 0 {
          break;
        }
      }
      live := true;
      SetWait(wait, hr);
    }

    /** With nothing in the queue the wait is all that is left to set. */
    lemma QueueSeenEmpty(input: Input)
      requires Turned(input) && place == Working && held == [] && m_ScheduledSamples == []
      ensures InTurn() && Snap().(lWait := Infinite, place := Peeking) == Ahead()
    {}

    method SetWait(wait: nat, ghost hr: bool)
      requires Inv() && place == Working && InTurn()
      requires Ahead() == Snap().(lWait := if wait == 0 then Infinite else Msec(wait), place := Peeking,
                                  bExitThread := bExitThread || !hr)
      modifies `lWait
      ensures Inv() && lWait == (if wait == 0 then Infinite else Msec(wait)) && Finishing(hr)
    {
      hide IsRun;
      lWait := if wait == 0 then Infinite else Msec(wait);
    }

    /** The thread goes on to another part of its code; no other thread looks before the next scheduling point. */
    ghost method MoveTo(p: Place)
      requires Inv() && place != Exited && p in {Working, Peeking} && InTurn() && Snap().(place := p) == Ahead()
      requires place == Working ==> held == []
      requires p == Working || place != Working || bExitThread || lWait != Infinite || m_ScheduledSamples == []
      modifies `place
      ensures Inv() && place == p && held == [] && Arrived()
    {
      hide IsRun;
      place := p;
    }

    lemma WakesUp(input: Input)
      requires Turned(input) && place == Waiting
      ensures InTurn()
      ensures Ahead() == if lWait.Msec? && input.timeout then Snap().(place := Working)
                         else if messages == [] then Snap() else Snap().(place := Peeking)
    {}

    /** eFlush: whatever is queued is thrown away, and the flush event is set. */
    method HandleFlush(ghost input: Input)
      requires Inv() && place == Peeking && messages != [] && messages[0] == eFlush && Turned(input)
      modifies `messages, `m_ScheduledSamples, `lWait, `log, `flushed, `flushesDone
      ensures Inv() && flushed == |accepted| == |log| && flushesDone == old(flushesDone) + 1 && Arrived()
    {
      hide Safe, IsRun, AllDropped;
      ClearScheduled();
    }

    method ClearScheduled()
      requires Inv() && place == Peeking && messages != [] && messages[0] == eFlush
      modifies `messages, `m_ScheduledSamples, `lWait, `log, `flushed, `flushesDone
      ensures Inv() && flushed == |accepted| == |log| && flushesDone == old(flushesDone) + 1
      ensures messages == old(messages)[1..] && m_ScheduledSamples == [] && lWait == Infinite
      ensures log == old(log) + AllDropped(old(m_ScheduledSamples))
    {
      hide Safe, AllDropped;
      FlushSafe(Snap(), m_fRate, m_PerFrame_1_4th);
      messages := messages[1..];
      log := log + AllDropped(m_ScheduledSamples);
      m_ScheduledSamples := [];
      lWait := Infinite;
      flushed := |accepted|;
      flushesDone := flushesDone + 1;
    }

    method HandleTerminate(ghost input: Input)
      requires Inv() && place == Peeking && messages != [] && messages[0] == eTerminate && Turned(input)
      modifies `messages, `bExitThread
      ensures Inv() && bExitThread && Arrived()
    {
      hide IsRun;
      Taken(messages);
      messages := messages[1..];
      bExitThread := true;
    }

    /** eSchedule: process as many samples as possible. */
    method HandleSchedule(ghost input: Input) returns (live: bool)
      requires Inv() && place == Peeking && messages != [] && messages[0] == eSchedule && Turned(input)
      modifies this
      ensures Inv() && trace != [] && |script| <= |old(script)|
      ensures if live then place == Peeking && Arrived() else Ended()
    {
      hide Safe, Turned, Arrived, Finishing, Seen;
      TakeSchedule(input);
      var hr;
      live, hr := ProcessSamplesInQueue();
      if live {
        FinishProcessing(hr);
      }
    }

    method TakeSchedule(ghost input: Input)
      requires Inv() && place == Peeking && messages != [] && messages[0] == eSchedule && Turned(input)
      modifies `messages, `place
      ensures Inv() && place == Working && held == [] && Arrived()
    {
      hide IsRun;
      Taken(messages);
      messages := messages[1..];
      place := Working;
    }

    method FinishProcessing(hr: bool)
      requires Inv() && place == Working && held == [] && Finishing(hr)
      requires lWait == Infinite ==> !hr || m_ScheduledSamples == []
      requires !hr ==> Failure(log)
      modifies `bExitThread, `place
      ensures Inv() && place == Peeking && Arrived()
    {
      hide IsRun;
      if !hr {
        bExitThread := true;
      }
      place := Peeking;
    }

    /** The inner loop: take messages until there are none. */
    method TakeMessages() returns (live: bool)
      requires Inv() && place == Peeking && Arrived()
      modifies this
      ensures Inv() && trace != [] && |script| <= |old(script)|
      ensures if live then place == Peeking && Leaving() else Ended()
    {
      hide Safe, Turned, Arrived, Leaving, Seen;
      while true
        invariant Inv() && place == Peeking && Arrived()
        invariant |script| <= |old(script)|
        decreases |script|
      {
        var go, input := Yield();
        if !go {
          return false;
        }
        if messages == [] {
          NothingLeft(input);
          return true;
        }
        match messages[0] {
          case eTerminate => HandleTerminate(input);
          case eFlush => HandleFlush(input);
          case eSchedule =>
            live := HandleSchedule(input);
            if !live {
              return;
            }
        }
      }
    }

    lemma NothingLeft(input: Input)
      requires Turned(input) && place == Peeking && messages == []
      ensures Leaving()
    {}

    method TimedOut(ghost input: Input) returns (live: bool)
      requires Inv() && place == Waiting && lWait.Msec? && input.timeout && Turned(input)
      modifies this
      ensures Inv() && trace != [] && |script| <= |old(script)|
      ensures if live then place == Peeking && Arrived() else Ended()
    {
      hide Safe, Turned, Arrived, Finishing, Seen;
      WakesUp(input);
      MoveTo(Working);
      var hr;
      live, hr := ProcessSamplesInQueue();
      if live {
        FinishProcessing(hr);
      }
    }

    /** StopScheduler, once the thread is gone: what is still queued is thrown away. */
    method Discard()
      requires Inv() && place == Exited
      modifies `m_ScheduledSamples, `log, `flushed
      ensures Inv() && held == [] && Samples(log) == accepted
    {
      FailureStays(log, AllDropped(m_ScheduledSamples));
      SamplesAppend(log, AllDropped(m_ScheduledSamples));
      log := log + AllDropped(m_ScheduledSamples);
      m_ScheduledSamples := [];
      flushed := |log|;
    }

    /** SchedulerThreadProcPrivate: every state that other threads see is safe, whatever they do. */
    method ThreadProc() returns (exited: bool)
      requires Inv() && place == Waiting && !bExitThread && Arrived()
      modifies this
      ensures Inv() && trace != []
      ensures if exited then place == Exited && Arrived() else Ended()
    {
      hide Safe, Turned, Arrived, Seen, IsRun;
      exited := false;
      while !bExitThread
        invariant Inv() && place == (if bExitThread then Exited else Waiting) && !exited && Arrived()
        invariant bExitThread ==> trace != []
        decreases |script|
      {
        var go, input := Yield();
        if !go {
          return;
        }
        WakesUp(input);
        if lWait.Msec? && input.timeout {
          var live := TimedOut(input);
          if !live {
            return;
          }
        } else if messages == [] {
          NothingYet();
          continue;
        } else {
          MoveTo(Peeking);
        }
        var live := TakeMessages();
        if !live {
          return;
        }
        BackToWait();
      }
      exited := true;
    }

    lemma NothingYet()
      requires InTurn() && Snap() == Ahead()
      ensures Arrived()
    {}

    ghost method BackToWait()
      requires Inv() && place == Peeking && Leaving()
      modifies `place
      ensures Inv() && place == (if bExitThread then Exited else Waiting) && trace == old(trace) && Arrived()
    {
      hide IsRun;
      place := if bExitThread then Exited else Waiting;
    }
  }

  /**
   * One run of the thread, against any behaviour of the other threads and the clock. What can be seen is a run
   * of the machine by the script, one state after each event, up to the end of the script or of the thread; all
   * these states are safe, and they have accepted exactly what the script queues.
   */
  method Observe(rate: real, quarter: nat, script: seq<Event>) returns (s: Scheduler, exited: bool)
    requires rate != 0.0
    ensures fresh(s) && |s.script| <= |script| && s.script == script[|script| - |s.script|..]
    ensures IsRun(s.trace, script, rate, quarter)
    ensures |s.trace| == |script| - |s.script| + if exited then 0 else 1
    ensures s.trace != [] && (!exited ==> s.script == [])
    ensures forall i :: 0 <= i < |s.trace| ==> Safe(s.trace[i], rate, quarter)
    ensures s.accepted == Queued(script[..|script| - |s.script|])
    ensures exited ==> s.held == [] && Samples(s.log) == s.accepted
  {
    s := new Scheduler(rate, quarter, script);
    exited := s.ThreadProc();
    Accepts(s, exited);
    if exited {
      s.Discard();
    }
  }

  /** What has been accepted in the end is what the script has queued up to there. */
  lemma Accepts(s: Scheduler, exited: bool)
    requires s.Followed() && s.trace != [] && if exited then s.Arrived() else s.Ended()
    ensures s.accepted == Queued(s.start[..|s.start| - |s.script|])
  {
    var n := |s.trace|;
    RunAccepts(s.trace, s.start, s.m_fRate, s.m_PerFrame_1_4th, n - 1);
    if exited {
      StepAccepts(s.trace[n - 1], s.start[n - 1], s.m_fRate, s.m_PerFrame_1_4th);
      assert s.start[..n][..n - 1] == s.start[..n - 1];
    }
  }

  lemma Taken(messages: seq<Message>)
    requires messages != []
    ensures multiset(messages) == multiset(messages[1..]) + multiset{messages[0]}
  {
    assert messages == [messages[0]] + messages[1..];
  }

  lemma FlushSafe(s: Snapshot, rate: real, quarter: nat)
    requires Safe(s, rate, quarter) && s.place == Peeking && s.messages != [] && s.messages[0] == eFlush
    ensures Safe(TakeNext(s), rate, quarter) && |s.accepted| == |s.log + AllDropped(s.queue)|
  {
    Taken(s.messages);
    FailureStays(s.log, AllDropped(s.queue));
    SamplesAppend(s.log, AllDropped(s.queue));
    hide Failure, Samples;
  }

  lemma FailureStays(log: seq<Done>, more: seq<Done>)
    ensures Failure(log) ==> Failure(log + more)
  {
    if Failure(log) {
      var i :| 0 <= i < |log| && log[i].Presented? && !log[i].ok;
      assert (log + more)[i] == log[i];
    }
  }

  lemma FailureLast(log: seq<Done>)
    requires log != [] && log[|log| - 1].Presented? && !log[|log| - 1].ok
    ensures Failure(log)
  {}

  lemma SamplesSnoc(log: seq<Done>, d: Done)
    ensures Samples(log + [d]) == Samples(log) + [d.sample]
  {}

  lemma SamplesAppend(log: seq<Done>, more: seq<Done>)
    ensures Samples(log + more) == Samples(log) + Samples(more)
  {}

  // ----- What the invariant means -----

  /** With the thread blocked on messages, none there and none coming, every sample queued has met its end. */
  lemma Quiescent(s: Snapshot, rate: real, quarter: nat)
    requires Safe(s, rate, quarter)
    requires s.place == Waiting && !s.bExitThread && s.lWait == Infinite && s.messages == [] && s.posting == 0
    ensures s.queue == [] && Samples(s.log) == s.accepted
  {}

  /** The places in the log of the samples that were presented. */
  ghost function PresentedAt(log: seq<Done>): (at: seq<nat>)
    ensures forall k :: 0 <= k < |at| ==> at[k] < |log| && log[at[k]].Presented?
    ensures forall j, k :: 0 <= j < k < |at| ==> at[j] < at[k]
    ensures forall i :: 0 <= i < |log| && log[i].Presented? ==> i in at
  {
    if log == [] then [] else
    var n := |log| - 1;
    var front := PresentedAt(log[..n]);
    if log[n].Presented? then front + [n] else front
  }

  /**
   * First in, first out, no sample twice: the k-th sample presented is the one queued at PresentedAt(log)[k],
   * and those places ascend.
   */
  lemma PresentedInOrder(s: Snapshot, j: nat, k: nat)
    requires Conserved(s) && j < k < |PresentedAt(s.log)|
    ensures var at := PresentedAt(s.log);
      && at[j] < at[k] < |s.accepted|
      && s.log[at[j]].sample == s.accepted[at[j]] && s.log[at[k]].sample == s.accepted[at[k]]
  {
    var at := PresentedAt(s.log);
    assert Samples(s.log)[at[j]] == s.log[at[j]].sample && Samples(s.log)[at[k]] == s.log[at[k]].sample;
  }

  /** The sample queued at place i is done with, held or still queued, and only one of these. */
  lemma OneFate(s: Snapshot, i: nat)
    requires Conserved(s) && i < |s.accepted|
    ensures var done, held := |s.log|, |s.log| + |s.held|;
      && (i < done ==> s.log[i].sample == s.accepted[i])
      && (done <= i < held ==> s.held == [s.accepted[i]])
      && (held <= i ==> i - held < |s.queue| && s.queue[i - held] == s.accepted[i])
      && |s.accepted| == held + |s.queue|
  {
    assert i < |s.log| ==> Samples(s.log)[i] == s.log[i].sample;
  }
}
