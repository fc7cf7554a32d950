/**
 * Frame stepping as a function: what becomes of each frame while step requests come in.
 */
module FrameStep {
  import opened Common
  import opened Media

  datatype FrameStepState = FRAMESTEP_NONE | FRAMESTEP_WAITING_START | FRAMESTEP_PENDING
                          | FRAMESTEP_SCHEDULED | FRAMESTEP_COMPLETE

  datatype FrameStep = FrameStep(state: FrameStepState, steps: nat, samples: seq<Sample>, pSampleNoRef: Option<Sample>)

  /** The frame-step record, the frames thrown away so far, the frames shown so far, and those shown as repaints. */
  datatype Progress = Progress(fs: FrameStep, discarded: seq<Sample>, shown: seq<Sample>, repainted: seq<Sample>)

  predicate Submitted(state: FrameStepState) {
    state in {FRAMESTEP_SCHEDULED, FRAMESTEP_COMPLETE}
  }

  /** DeliverFrameStepSample when not scrubbing and when delivery works. */
  function Feed(p: Progress, s: Sample): Progress {
    if Submitted(p.fs.state) then p.(fs := p.fs.(samples := p.fs.samples + [s])) else
    var fs := p.fs.(steps := if p.fs.steps > 0 then p.fs.steps - 1 else 0);
    if fs.steps > 0 then p.(fs := fs, discarded := p.discarded + [s])
    else if fs.state == FRAMESTEP_WAITING_START then p.(fs := fs.(samples := fs.samples + [s]))
    else p.(fs := fs.(state := FRAMESTEP_SCHEDULED, pSampleNoRef := Some(s)), shown := p.shown + [s])
  }

  /** The loop of StartFrameStep: frames come off the queue while the step is pending. */
  function Drain(p: Progress): Progress
    decreases |p.fs.samples|
  {
    if p.fs.samples == [] || p.fs.state != FRAMESTEP_PENDING then p else
    Drain(Feed(p.(fs := p.fs.(samples := p.fs.samples[1..])), p.fs.samples[0]))
  }

  /** A step request for c frames, with the clock running. */
  function Request(p: Progress, c: nat): Progress {
    Drain(p.(fs := p.fs.(steps := (p.fs.steps + c) % TWO32, state := FRAMESTEP_PENDING)))
  }

  /** The sample of the step has been on display: the step is complete. */
  function Complete(p: Progress, s: Sample): Progress {
    if p.fs.state == FRAMESTEP_SCHEDULED && p.fs.pSampleNoRef == Some(s)
    then p.(fs := p.fs.(state := FRAMESTEP_COMPLETE, pSampleNoRef := None))
    else p
  }

  /** A step request, a frame from the mixer, a frame repainted, and a sample that comes back. */
  datatype Event = Step(c: nat) | Frame(s: Sample) | Repainted(s: Sample) | Free(s: Sample)

  /** A frame from the mixer is shown, or goes to the step if there is one. */
  function Arrive(p: Progress, s: Sample): Progress {
    if p.fs.state == FRAMESTEP_NONE then p.(shown := p.shown + [s]) else Feed(p, s)
  }

  function Happen(p: Progress, e: Event): Progress {
    match e
    case Step(c) => Request(p, c)
    case Frame(s) => Arrive(p, s)
    case Repainted(s) => p.(repainted := p.repainted + [s])
    case Free(s) => Complete(p, s)
  }

  function HappenAll(p: Progress, es: seq<Event>): Progress {
    if es == [] then p else Happen(HappenAll(p, es[..|es| - 1]), es[|es| - 1])
  }

  function Requested(es: seq<Event>): nat {
    if es == [] then 0 else Requested(es[..|es| - 1]) + if es[|es| - 1].Step? then es[|es| - 1].c else 0
  }

  function Frames(es: seq<Event>): seq<Sample> {
    if es == [] then [] else Frames(es[..|es| - 1]) + if es[|es| - 1].Frame? then [es[|es| - 1].s] else []
  }

  function Repaints(es: seq<Event>): seq<Sample> {
    if es == [] then [] else Repaints(es[..|es| - 1]) + if es[|es| - 1].Repainted? then [es[|es| - 1].s] else []
  }

  /** What is done to the presenter from outside: the requests and the samples that come back, in order. */
  function Controls(es: seq<Event>): seq<Event> {
    if es == [] then [] else
    Controls(es[..|es| - 1]) + if es[|es| - 1].Step? || es[|es| - 1].Free? then [es[|es| - 1]] else []
  }

  // ----- Without a request -----

  /** Nobody asks for a step. */
  predicate NoRequests(es: seq<Event>) {
    forall e :: e in Controls(es) ==> !e.Step?
  }

  /** Plain playback: every frame is shown, in order, and none is thrown away or queued. */
  lemma {:induction false} PlaybackShows(p: Progress, es: seq<Event>)
    requires p.fs.state == FRAMESTEP_NONE && NoRequests(es)
    ensures HappenAll(p, es) == Progress(p.fs, p.discarded, p.shown + Frames(es), p.repainted + Repaints(es))
  {
    if es != [] {
      var front, e := es[..|es| - 1], es[|es| - 1];
      NoRequestsBefore(es);
      PlaybackShows(p, front);
      hide Feed, Request, Controls;
    }
  }

  lemma NoRequestsBefore(es: seq<Event>)
    requires es != [] && NoRequests(es)
    ensures NoRequests(es[..|es| - 1]) && !es[|es| - 1].Step?
  {
    var front, e := es[..|es| - 1], es[|es| - 1];
    forall c | c in Controls(front) ensures !c.Step? {
      assert c in Controls(es);
    }
    assert e.Step? ==> e in Controls(es);
  }

  // ----- A step that waits for the clock -----

  /** What a start of the clock does to a step, and to frames left over from a cancelled one. */
  function Started(p: Progress): Progress {
    match p.fs.state
    case FRAMESTEP_WAITING_START => Drain(p.(fs := p.fs.(state := FRAMESTEP_PENDING)))
    case FRAMESTEP_NONE => p.(fs := p.fs.(samples := []), shown := p.shown + p.fs.samples)
    case _ => p
  }

  /** The frames ss, as they come. */
  function Come(ss: seq<Sample>): (es: seq<Event>)
    ensures |es| == |ss|
  {
    seq(|ss|, i requires 0 <= i < |ss| => Frame(ss[i]))
  }

  /** Of the frames ss that came while the step waits all before its last are thrown away; it and the rest wait. */
  predicate WaitsAt(p: Progress, now: Progress, ss: seq<Sample>) {
    var target := Target(p.fs.steps);
    && now.fs.state == FRAMESTEP_WAITING_START && now.shown == p.shown && now.repainted == p.repainted
    && now.fs.pSampleNoRef == p.fs.pSampleNoRef
    && if |ss| < target then
         now.fs.steps == p.fs.steps - |ss| && now.fs.samples == [] && now.discarded == p.discarded + ss
       else
         && now.fs.steps == 0 && now.fs.samples == ss[target - 1..]
         && now.discarded == p.discarded + ss[..target - 1]
  }

  lemma OneMoreWaits(p: Progress, now: Progress, ss: seq<Sample>, s: Sample)
    requires WaitsAt(p, now, ss)
    ensures WaitsAt(p, Arrive(now, s), ss + [s])
  {
    var target := Target(p.fs.steps);
    if |ss| + 1 == target {
      assert (ss + [s])[target - 1..] == [s] && (ss + [s])[..target - 1] == ss;
    } else if |ss| >= target {
      assert (ss + [s])[target - 1..] == ss[target - 1..] + [s] && (ss + [s])[..target - 1] == ss[..target - 1];
    }
  }

  lemma {:induction false} WaitingFrames(p: Progress, ss: seq<Sample>)
    requires p.fs.state == FRAMESTEP_WAITING_START && p.fs.samples == []
    ensures WaitsAt(p, HappenAll(p, Come(ss)), ss)
  {
    if ss != [] {
      var front, last := ss[..|ss| - 1], ss[|ss| - 1];
      WaitingFrames(p, front);
      assert Come(ss)[..|ss| - 1] == Come(front) && Come(ss)[|ss| - 1] == Frame(last);
      assert ss == front + [last];
      hide WaitsAt, Arrive;
      OneMoreWaits(p, HappenAll(p, Come(front)), front, last);
    }
  }

  /** The clock starts: the frame at the front of the queue is the one asked for, if it has come. */
  lemma WaitEnds(p: Progress, now: Progress, ss: seq<Sample>)
    requires WaitsAt(p, now, ss)
    ensures StandsAt(p, Started(now), p.fs.steps, ss)
  {
    var target := Target(p.fs.steps);
    var begun := now.(fs := now.fs.(state := FRAMESTEP_PENDING));
    if |ss| >= target {
      var q := ss[target - 1..];
      assert q[1..] == ss[target..] && q[0] == ss[target - 1];
      var fed := Feed(begun.(fs := begun.fs.(samples := q[1..])), q[0]);
      assert Drain(begun) == Drain(fed) == fed;
    }
  }

  /**
   * A step asked for before the clock starts: when it does, the frames that have come stand as after a request with
   * the clock running.
   */
  lemma WaitingExact(p: Progress, ss: seq<Sample>)
    requires p.fs.state == FRAMESTEP_WAITING_START && p.fs.samples == []
    ensures StandsAt(p, Started(HappenAll(p, Come(ss))), p.fs.steps, ss)
  {
    WaitingFrames(p, ss);
    hide WaitsAt, StandsAt, Started, HappenAll;
    WaitEnds(p, HappenAll(p, Come(ss)), ss);
  }

  /** The frame a run of requests stops at: the n-th, the first even when nothing was asked for. */
  function Target(n: nat): nat {
    if n == 0 then 1 else n
  }

  /** The run starts with a request, and every other request comes before the frame asked for so far has been shown. */
  predicate InTime(queued: nat, es: seq<Event>) {
    && (es != [] ==> es[0].Step?)
    && Requested(es) < TWO32
    && forall i :: 0 < i < |es| && es[i].Step? ==> queued + |Frames(es[..i])| < Target(Requested(es[..i]))
  }

  /** Where a run that started with p stands, after n requested steps and the frames ss. */
  predicate StandsAt(p: Progress, now: Progress, n: nat, ss: seq<Sample>) {
    var target := Target(n);
    if |ss| < target then
      && now.fs.state == FRAMESTEP_PENDING && now.fs.samples == []
      && now.fs.steps == n - |ss|
      && now.discarded == p.discarded + ss && now.shown == p.shown
    else
      && Submitted(now.fs.state) && now.fs.steps == 0
      && (now.fs.state == FRAMESTEP_SCHEDULED ==> now.fs.pSampleNoRef == Some(ss[target - 1]))
      && now.fs.samples == ss[target..]
      && now.discarded == p.discarded + ss[..target - 1] && now.shown == p.shown + [ss[target - 1]]
  }

  lemma FeedStands(p: Progress, now: Progress, n: nat, ss: seq<Sample>, s: Sample)
    requires StandsAt(p, now, n, ss)
    ensures StandsAt(p, Arrive(now, s), n, ss + [s])
  {
    var target := Target(n);
    if |ss| + 1 == target {
      assert (ss + [s])[..target - 1] == ss && (ss + [s])[target..] == [];
    } else if |ss| >= target {
      assert (ss + [s])[..target - 1] == ss[..target - 1] && (ss + [s])[target..] == ss[target..] + [s];
    }
  }

  lemma {:induction false} DrainStands(p: Progress, now: Progress, n: nat, ss: seq<Sample>, q: seq<Sample>)
    requires now.fs.state == FRAMESTEP_PENDING && now.fs.samples == q
    requires |ss| < Target(n) && now.fs.steps == n - |ss|
    requires now.discarded == p.discarded + ss && now.shown == p.shown
    ensures StandsAt(p, Drain(now), n, ss + q)
    decreases |q|
  {
    if q == [] {
      assert ss + q == ss;
    } else {
      var next := Feed(now.(fs := now.fs.(samples := q[1..])), q[0]);
      assert ss + q == ss + [q[0]] + q[1..];
      if |ss| + 1 < Target(n) {
        DrainStands(p, next, n, ss + [q[0]], q[1..]);
      } else {
        assert (ss + q)[..|ss|] == ss && (ss + q)[|ss| + 1..] == q[1..];
      }
    }
  }

  lemma RequestedPrefix(es: seq<Event>, i: nat)
    requires i <= |es|
    ensures Requested(es[..i]) <= Requested(es)
  {
    if i == |es| {
      assert es[..i] == es;
    } else {
      var front := es[..|es| - 1];
      RequestedPrefix(front, i);
      assert front[..i] == es[..i];
    }
  }

  lemma InTimePrefix(queued: nat, es: seq<Event>)
    requires es != [] && InTime(queued, es)
    ensures InTime(queued, es[..|es| - 1])
  {
    var front := es[..|es| - 1];
    RequestedPrefix(es, |es| - 1);
    forall i | 0 < i < |front| && front[i].Step? ensures queued + |Frames(front[..i])| < Target(Requested(front[..i])) {
      assert front[..i] == es[..i];
    }
  }

  lemma CompleteStands(p: Progress, now: Progress, n: nat, ss: seq<Sample>, s: Sample)
    requires StandsAt(p, now, n, ss)
    ensures StandsAt(p, Complete(now, s), n, ss)
  {}

  lemma RepaintStands(p: Progress, now: Progress, n: nat, ss: seq<Sample>, s: Sample)
    requires StandsAt(p, now, n, ss)
    ensures StandsAt(p, Happen(now, Repainted(s)), n, ss)
  {}

  /** A request in time adds to the steps still to go. */
  lemma RequestInTime(p: Progress, now: Progress, n: nat, ss: seq<Sample>, c: nat)
    requires StandsAt(p, now, n, ss) && |ss| < Target(n) && n + c < TWO32
    ensures StandsAt(p, Request(now, c), n + c, ss)
  {}

  /** A request after the frame has been shown starts a new run with the frames queued since. */
  lemma RequestTooLate(p: Progress, now: Progress, n: nat, ss: seq<Sample>, c: nat)
    requires StandsAt(p, now, n, ss) && |ss| >= Target(n) && c < TWO32
    ensures StandsAt(now, Request(now, c), c, ss[Target(n)..])
  {
    FirstRequest(now, c);
  }

  lemma FirstRequest(p: Progress, c: nat)
    requires p.fs.steps == 0 && c < TWO32
    ensures StandsAt(p, Request(p, c), c, p.fs.samples)
  {
    var q := p.fs.samples;
    var now := p.(fs := p.fs.(steps := c, state := FRAMESTEP_PENDING));
    assert Request(p, c) == Drain(now);
    hide StandsAt, Drain, Request;
    DrainStands(p, now, c, [], q);
    assert [] + q == q;
  }

  lemma FirstStep(p: Progress, e: Event)
    requires p.fs.steps == 0 && e.Step? && e.c < TWO32
    ensures StandsAt(p, HappenAll(p, [e]), e.c, p.fs.samples)
  {
    hide Request, StandsAt;
    FirstRequest(p, e.c);
    assert [e][..0] == [];
  }

  /**
   * Step requests for n frames in all discard exactly the first n - 1 frames, taken from the frame-step
   * queue and then as they come, show the n-th, and queue the rest in order.
   */
  lemma {:induction false} StepsExact(p: Progress, es: seq<Event>)
    requires p.fs.steps == 0 && es != [] && InTime(|p.fs.samples|, es)
    ensures StandsAt(p, HappenAll(p, es), Requested(es), p.fs.samples + Frames(es))
  {
    hide Feed, Request, Complete, StandsAt, Happen;
    var q, k := p.fs.samples, |es| - 1;
    var front, e := es[..k], es[k];
    if k == 0 {
      assert front == [] && Frames(es) == [] && q + [] == q;
      FirstStep(p, e);
    } else {
      InTimePrefix(|q|, es);
      StepsExact(p, front);
      var now, n, ss := HappenAll(p, front), Requested(front), q + Frames(front);
      var more := if e.Frame? then [e.s] else [];
      if e.Step? {
        InTimeLast(|q|, es);
      }
      RunGoesOn(p, now, n, ss, e);
      assert q + (Frames(front) + more) == ss + more;
    }
  }

  /** One more event of a run in time. */
  lemma RunGoesOn(p: Progress, now: Progress, n: nat, ss: seq<Sample>, e: Event)
    requires StandsAt(p, now, n, ss) && (e.Step? ==> |ss| < Target(n) && n + e.c < TWO32)
    ensures StandsAt(p, Happen(now, e), n + (if e.Step? then e.c else 0), ss + if e.Frame? then [e.s] else [])
  {
    hide Feed, Request, Complete, StandsAt;
    assert ss + [] == ss;
    match e {
      case Frame(s) => FeedStands(p, now, n, ss, s);
      case Step(c) => RequestInTime(p, now, n, ss, c);
      case Free(s) => CompleteStands(p, now, n, ss, s);
      case Repainted(s) => RepaintStands(p, now, n, ss, s);
    }
  }

  lemma InTimeLast(queued: nat, es: seq<Event>)
    requires |es| > 1 && InTime(queued, es) && es[|es| - 1].Step?
    ensures var front := es[..|es| - 1];
      queued + |Frames(front)| < Target(Requested(front)) && Requested(front) + es[|es| - 1].c < TWO32
  {}

  // ----- Requests at any time -----

  /**
   * A run of steps is over when a request comes after its frame has been shown. The frames of the runs that are
   * over, the steps asked for in each, and the steps asked for and the frames met in the one that is not.
   */
  datatype Tally = Tally(done: seq<seq<Sample>>, asked: seq<nat>, n: nat, ss: seq<Sample>)

  function Count(t: Tally, e: Event): Tally {
    match e
    case Step(c) =>
      if |t.ss| < Target(t.n) then t.(n := t.n + c)
      else Tally(t.done + [t.ss[..Target(t.n)]], t.asked + [t.n], c, t.ss[Target(t.n)..])
    case Frame(s) => t.(ss := t.ss + [s])
    case _ => t
  }

  /** From a first request on, with these frames queued. */
  function TallyOf(queued: seq<Sample>, es: seq<Event>): Tally
    requires es != [] && es[0].Step?
  {
    if |es| == 1 then Tally([], [], es[0].c, queued) else
    Count(TallyOf(queued, es[..|es| - 1]), es[|es| - 1])
  }

  /** No run is asked for more steps than a DWORD counts. */
  predicate InRange(queued: seq<Sample>, es: seq<Event>)
    requires es != [] && es[0].Step?
  {
    TallyOf(queued, es).n < TWO32 && (|es| > 1 ==> InRange(queued, es[..|es| - 1]))
  }

  /** Of each run, all frames but the last. */
  function AllFronts(done: seq<seq<Sample>>): seq<Sample> {
    if done == [] then [] else
    var run := done[|done| - 1];
    AllFronts(done[..|done| - 1]) + if run == [] then [] else run[..|run| - 1]
  }

  /** Of each run, the last frame. */
  function AllLasts(done: seq<seq<Sample>>): seq<Sample> {
    if done == [] then [] else
    var run := done[|done| - 1];
    AllLasts(done[..|done| - 1]) + if run == [] then [] else [run[|run| - 1]]
  }

  function Flat(done: seq<seq<Sample>>): seq<Sample> {
    if done == [] then [] else Flat(done[..|done| - 1]) + done[|done| - 1]
  }

  function Sum(ns: seq<nat>): nat {
    if ns == [] then 0 else Sum(ns[..|ns| - 1]) + ns[|ns| - 1]
  }

  /** Of each run that is over the last frame was shown, the others discarded; the present run stands as it should. */
  predicate Stands(p: Progress, now: Progress, t: Tally) {
    var base := p.(discarded := p.discarded + AllFronts(t.done), shown := p.shown + AllLasts(t.done));
    StandsAt(base, now, t.n, t.ss)
  }

  lemma OneRunMore(done: seq<seq<Sample>>, run: seq<Sample>)
    requires run != []
    ensures AllFronts(done + [run]) == AllFronts(done) + run[..|run| - 1]
    ensures AllLasts(done + [run]) == AllLasts(done) + [run[|run| - 1]]
    ensures Flat(done + [run]) == Flat(done) + run
  {
    assert (done + [run])[..|done|] == done;
  }

  /** A late request closes the run. */
  lemma LateStands(p: Progress, now: Progress, t: Tally, c: nat)
    requires Stands(p, now, t) && |t.ss| >= Target(t.n) && c < TWO32
    ensures Stands(p, Request(now, c), Count(t, Step(c)))
  {
    var k := Target(t.n);
    var base := p.(discarded := p.discarded + AllFronts(t.done), shown := p.shown + AllLasts(t.done));
    RequestTooLate(base, now, t.n, t.ss, c);
    OneRunMore(t.done, t.ss[..k]);
    assert t.ss[..k][..k - 1] == t.ss[..k - 1];
    var done := t.done + [t.ss[..k]];
    assert now.discarded == p.discarded + AllFronts(done) && now.shown == p.shown + AllLasts(done);
    var next := p.(discarded := p.discarded + AllFronts(done), shown := p.shown + AllLasts(done));
    hide Request, AllFronts, AllLasts;
    SameBase(now, next, Request(now, c), c, t.ss[k..]);
  }

  lemma SameBase(p: Progress, q: Progress, now: Progress, n: nat, ss: seq<Sample>)
    requires StandsAt(p, now, n, ss) && p.discarded == q.discarded && p.shown == q.shown
    ensures StandsAt(q, now, n, ss)
  {}

  lemma CountStands(p: Progress, now: Progress, t: Tally, e: Event)
    requires Stands(p, now, t) && Count(t, e).n < TWO32
    ensures Stands(p, Happen(now, e), Count(t, e))
  {
    if e.Step? && |t.ss| >= Target(t.n) {
      LateStands(p, now, t, e.c);
    } else {
      var base := p.(discarded := p.discarded + AllFronts(t.done), shown := p.shown + AllLasts(t.done));
      hide StandsAt, Happen;
      RunGoesOn(base, now, t.n, t.ss, e);
      assert t.ss + [] == t.ss;
    }
  }

  /**
   * Whenever the requests come, the frames fall into runs: of each, all frames but the last have been discarded
   * and the last has been shown, and in the present run as many as have been asked for.
   */
  lemma {:induction false} RunsExact(p: Progress, es: seq<Event>)
    requires p.fs.steps == 0 && es != [] && es[0].Step? && InRange(p.fs.samples, es)
    ensures Stands(p, HappenAll(p, es), TallyOf(p.fs.samples, es))
  {
    var k := |es| - 1;
    if k == 0 {
      assert es == [es[0]];
      FirstStep(p, es[0]);
      hide StandsAt, HappenAll;
      var base := p.(discarded := p.discarded + [], shown := p.shown + []);
      assert base == p;
    } else {
      RunsExact(p, es[..k]);
      hide Happen, Stands, Count;
      CountStands(p, HappenAll(p, es[..k]), TallyOf(p.fs.samples, es[..k]), es[k]);
    }
  }

  /** The runs are these frames in order, each as long as asked for, and all requests are accounted for. */
  predicate Parts(t: Tally, frames: seq<Sample>, requested: nat) {
    && Flat(t.done) + t.ss == frames && Sum(t.asked) + t.n == requested
    && |t.done| == |t.asked| && forall i :: 0 <= i < |t.done| ==> |t.done[i]| == Target(t.asked[i])
  }

  lemma {:induction false} TallyParts(queued: seq<Sample>, es: seq<Event>)
    requires es != [] && es[0].Step?
    ensures Parts(TallyOf(queued, es), queued + Frames(es), Requested(es))
  {
    var k := |es| - 1;
    if k == 0 {
      assert es[..0] == [] && [] + queued == queued + [];
    } else {
      var front, e := es[..k], es[k];
      var more := if e.Frame? then [e.s] else [];
      TallyParts(queued, front);
      assert TallyOf(queued, es) == Count(TallyOf(queued, front), e);
      hide Parts, Count, TallyOf;
      CountParts(TallyOf(queued, front), e, queued + Frames(front), Requested(front));
      assert queued + Frames(front) + more == queued + (Frames(front) + more);
    }
  }

  lemma CountParts(t: Tally, e: Event, frames: seq<Sample>, requested: nat)
    requires Parts(t, frames, requested)
    ensures Parts(Count(t, e), frames + (if e.Frame? then [e.s] else []), requested + if e.Step? then e.c else 0)
  {
    if e.Step? && |t.ss| >= Target(t.n) {
      var k := Target(t.n);
      OneRunMore(t.done, t.ss[..k]);
      SumOne(t.asked, t.n);
      hide Flat, Sum, Target;
      Regroup(Flat(t.done), t.ss, k);
      assert frames + [] == frames;
    } else {
      hide Flat, Sum, Target;
      assert frames + [] == frames;
      if e.Frame? {
        assert Flat(t.done) + (t.ss + [e.s]) == Flat(t.done) + t.ss + [e.s];
      }
    }
  }

  lemma SumOne(ns: seq<nat>, n: nat)
    ensures Sum(ns + [n]) == Sum(ns) + n
  {
    assert (ns + [n])[..|ns|] == ns;
  }

  lemma Regroup(a: seq<Sample>, b: seq<Sample>, k: nat)
    requires k <= |b|
    ensures a + b[..k] + b[k..] == a + b
  {}

  lemma HappenOne(p: Progress, es: seq<Event>, e: Event)
    ensures HappenAll(p, es + [e]) == Happen(HappenAll(p, es), e)
  {
    assert (es + [e])[..|es|] == es;
  }

  lemma HappenSingle(p: Progress, e: Event)
    ensures HappenAll(p, [e]) == Happen(p, e)
    ensures Frames([e]) == (if e.Frame? then [e.s] else []) && Repaints([e]) == (if e.Repainted? then [e.s] else [])
    ensures Controls([e]) == if e.Step? || e.Free? then [e] else []
  {
    hide Happen;
    assert [e][..0] == [];
  }

  lemma RepaintedOne(p: Progress, e: Event)
    ensures Happen(p, e).repainted == p.repainted + if e.Repainted? then [e.s] else []
  {
    if e.Step? {
      DrainRepaintsNothing(p.(fs := p.fs.(steps := (p.fs.steps + e.c) % TWO32, state := FRAMESTEP_PENDING)));
    }
  }

  lemma {:induction false} DrainRepaintsNothing(p: Progress)
    ensures Drain(p).repainted == p.repainted
    decreases |p.fs.samples|
  {
    if p.fs.samples != [] && p.fs.state == FRAMESTEP_PENDING {
      DrainRepaintsNothing(Feed(p.(fs := p.fs.(samples := p.fs.samples[1..])), p.fs.samples[0]));
    }
  }

  /** Repaints go past the stepping: the record of them grows by just these. */
  lemma {:induction false} RepaintsApart(p: Progress, es: seq<Event>)
    ensures HappenAll(p, es).repainted == p.repainted + Repaints(es)
  {
    if es == [] {
      assert p.repainted + [] == p.repainted;
    } else {
      var front, e := es[..|es| - 1], es[|es| - 1];
      RepaintsApart(p, front);
      assert es == front + [e];
      HappenOne(p, front, e);
      RepaintsOne(front, e);
      RepaintedOne(HappenAll(p, front), e);
      hide Happen, HappenAll, Repaints;
      var more := if e.Repainted? then [e.s] else [];
      assert p.repainted + Repaints(front) + more == p.repainted + (Repaints(front) + more);
    }
  }

  lemma Snoc(a: seq<Event>, b: seq<Event>)
    requires b != []
    ensures a + b == (a + b[..|b| - 1]) + [b[|b| - 1]] && b == b[..|b| - 1] + [b[|b| - 1]]
  {}

  /** One series of events after another. */
  lemma {:induction false} HappenMore(p: Progress, a: seq<Event>, b: seq<Event>)
    ensures HappenAll(HappenAll(p, a), b) == HappenAll(p, a + b)
  {
    if b == [] {
      assert a + b == a;
    } else {
      var front, e := b[..|b| - 1], b[|b| - 1];
      HappenMore(p, a, front);
      hide HappenAll, Happen;
      Snoc(a, b);
      HappenOne(p, a + front, e);
      HappenOne(HappenAll(p, a), front, e);
    }
  }

  lemma FramesOne(es: seq<Event>, e: Event)
    ensures Frames(es + [e]) == Frames(es) + if e.Frame? then [e.s] else []
  {
    assert (es + [e])[..|es|] == es;
  }

  lemma RepaintsOne(es: seq<Event>, e: Event)
    ensures Repaints(es + [e]) == Repaints(es) + if e.Repainted? then [e.s] else []
  {
    assert (es + [e])[..|es|] == es;
  }

  lemma ControlsOne(es: seq<Event>, e: Event)
    ensures Controls(es + [e]) == Controls(es) + if e.Step? || e.Free? then [e] else []
  {
    assert (es + [e])[..|es|] == es;
  }

  lemma {:induction false} EventsMore(a: seq<Event>, b: seq<Event>)
    ensures Frames(a + b) == Frames(a) + Frames(b) && Repaints(a + b) == Repaints(a) + Repaints(b)
    ensures Controls(a + b) == Controls(a) + Controls(b)
  {
    if b == [] {
      assert a + b == a;
    } else {
      var front, e := b[..|b| - 1], b[|b| - 1];
      EventsMore(a, front);
      hide Frames, Repaints, Controls;
      Snoc(a, b);
      FramesOne(a + front, e);
      FramesOne(front, e);
      RepaintsOne(a + front, e);
      RepaintsOne(front, e);
      ControlsOne(a + front, e);
      ControlsOne(front, e);
    }
  }

  /** Only the requests among the controls count. */
  lemma {:induction false} RequestedByControls(es: seq<Event>)
    ensures Requested(es) == Requested(Controls(es))
  {
    if es != [] {
      var k := |es| - 1;
      RequestedByControls(es[..k]);
      var front := Controls(es[..k]);
      assert (front + [es[k]])[..|front|] == front && front + [] == front;
    }
  }
}
