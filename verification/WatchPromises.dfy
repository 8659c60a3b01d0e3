/**
 What a subscriber may rely on, over every run of the watcher's queue: the stream is level
 triggered, bounded, keeps failures in order, and begins with the subscription's snapshot.
 */
module WatchPromises {
  import opened Options
  import opened WatchQueue
  import opened WatchRuns

  /** The constructor's order: no poll before the construction-time health is recorded. */
  predicate Timely(steps: seq<Step>, established: bool) {
    steps == [] ||
    match steps[0]
    case Establish(_) => Timely(steps[1..], true)
    case PollNext(_) => established && Timely(steps[1..], established)
    case Producer(_) => Timely(steps[1..], established)
  }

  lemma TimelyStep(r: Run, step: Step)
    requires Invariant(r) && !r.late
    requires r.state.construction.None? ==> r.polls == 0
    requires step.PollNext? ==> r.state.construction.Some?
    ensures !Next(r, step).late
    ensures Next(r, step).state.construction.None? ==> Next(r, step).polls == 0
    ensures Next(r, step).state.construction.Some? <==> r.state.construction.Some? || step.Establish?
  {
    hide Invariant;
    StepMoves(r, step);
  }

  lemma {:induction false} TimelyRun(r: Run, steps: seq<Step>)
    requires Invariant(r) && !r.late
    requires r.state.construction.None? ==> r.polls == 0
    requires Timely(steps, r.state.construction.Some?)
    ensures !After(r, steps).late
    decreases steps
  {
    if steps != [] {
      hide Invariant, Next;
      TimelyStep(r, steps[0]);
      StepMoves(r, steps[0]);
      TimelyRun(Next(r, steps[0]), steps[1..]);
    }
  }

  lemma TimelyStart(config: ProxyConfig, steps: seq<Step>)
    requires Timely(steps, false)
    ensures var r := After(Start(config), steps); Invariant(r) && !r.late
  {
    EveryRun(config, []);
    EveryRun(config, steps);
    TimelyRun(Start(config), steps);
  }

  /**
   Level triggered: a consumer told that nothing is waiting already holds the configuration
   and the merged health as they are, and at the end of the stream that health says stopped.
   */
  lemma LevelTriggered(config: ProxyConfig, steps: seq<Step>, waker: Waker)
    requires Timely(steps, false)
    ensures var r := After(Start(config), steps);
            var poll := PollIn(r.state, waker).poll;
            && (poll.Pending? || poll.Finished? ==> r.lastSnapshot == Some(Stamp(r.state)))
            && (poll.Finished? ==> r.lastSnapshot.value.health.stopped)
            && (poll.Finished? <==> r.state.closed && !Owed(r.state) && r.state.queue == [])
  {
    TimelyStart(config, steps);
  }

  /** Undelivered items stay within one of the limit, and snapshots fold into at most two. */
  lemma QueueIsBounded(config: ProxyConfig, steps: seq<Step>)
    ensures var queue := After(Start(config), steps).state.queue;
            && |queue| <= MAX_QUEUED_CHANGES + 1
            && (|queue| == MAX_QUEUED_CHANGES + 1 ==> queue[MAX_QUEUED_CHANGES].Failed?)
            && (forall i, j :: 0 <= i < j < |queue| && queue[i].Snapshot? && queue[j].Snapshot? ==>
                  i == 0 && forall k :: j < k < |queue| ==> queue[k].Failed?)
            && (|queue| >= 2 ==> queue[|queue| - 1].Snapshot? || queue[|queue| - 2].Snapshot?)
  {
    EveryRun(config, steps);
    var queue := After(Start(config), steps).state.queue;
    assert |queue| <= LastSnapshot(queue) + 2;
  }

  /** Failures reach the consumer in the order raised, none twice, and every one has a fate. */
  lemma FailuresInOrder(config: ProxyConfig, steps: seq<Step>)
    ensures var r := After(Start(config), steps);
            && |r.raised| == |r.delivered| + |Failures(r.state.queue)| + r.overwritten + r.trimmedFailures
            && (exists kept: seq<nat> :: Kept(r.raised, kept, r.delivered + Failures(r.state.queue)))
  {
    EveryRun(config, steps);
    var r := After(Start(config), steps);
    assert Kept(r.raised, r.kept, r.delivered + Failures(r.state.queue));
  }

  // -------------------------------------------------------------------------- draining

  function Waiting(s: State): nat {
    |s.queue| + if s.dirty then 1 else 0
  }

  /** Each event taken leaves strictly less to take. */
  lemma PollMakesProgress(s: State, waker: Waker)
    ensures var polled := PollIn(s, waker);
            if polled.poll.Ready? then Waiting(polled.state) < Waiting(s)
            else polled.state == s.(waker := polled.state.waker) && Waiting(s) == 0
  {
  }

  /** Poll until nothing is ready, with no producer in between. */
  function Drained(r: Run, waker: Waker): (d: Run)
    decreases Waiting(r.state)
  {
    if PollIn(r.state, waker).poll.Ready? then Drained(AfterPoll(r, waker), waker) else r
  }

  /** A drain takes every queued failure in order and ends on the current state. */
  lemma {:induction false} DrainDelivers(r: Run, waker: Waker)
    requires Invariant(r) && !r.late
    ensures var d := Drained(r, waker);
            && !PollIn(d.state, waker).poll.Ready?
            && d.delivered == r.delivered + Failures(r.state.queue)
            && d.lastSnapshot == Some(Stamp(r.state))
            && Stamp(d.state) == Stamp(r.state)
            && d.state.closed == r.state.closed
            && d.polls <= r.polls + Waiting(r.state)
    decreases Waiting(r.state)
  {
    hide QueueShape, History, Episode, FirstItem, LastSnapshot, MergeDegraded;
    PollMakesProgress(r.state, waker);
    if PollIn(r.state, waker).poll.Ready? {
      PollKeepsInvariant(r, waker);
      PollKeepsKnown(r, waker);
      assert Stamp(AfterPoll(r, waker).state) == Stamp(r.state);
      DrainDelivers(AfterPoll(r, waker), waker);
    } else {
      assert Failures(r.state.queue) == [];
    }
  }

  // ------------------------------------------------------------------ the thread's guard

  /** What the guard does as the backend thread goes, after a panic or in the ordinary way. */
  function GuardDrop(panic: Option<Failure>): seq<Step> {
    if panic.Some? then [Producer(NoLive), Producer(Fail(panic.value)), Producer(Close)]
    else [Producer(Close)]
  }

  lemma GuardSteps(r: Run, panic: Option<Failure>)
    ensures After(r, GuardDrop(panic)) ==
            if panic.Some?
            then Next(Next(Next(r, Producer(NoLive)), Producer(Fail(panic.value))), Producer(Close))
            else Next(r, Producer(Close))
  {
    hide Next;
    if panic.Some? {
      var one := Next(r, Producer(NoLive));
      var two := Next(one, Producer(Fail(panic.value)));
      assert GuardDrop(panic)[1..] == [Producer(Fail(panic.value)), Producer(Close)];
      assert GuardDrop(panic)[1..][1..] == [Producer(Close)];
      assert After(two, [Producer(Close)]) == Next(two, Producer(Close));
    } else {
      assert GuardDrop(panic)[1..] == [];
    }
  }

  /** The state the guard leaves behind: closed, and after a panic its failure queued last. */
  lemma GuardState(r: Run, panic: Option<Failure>)
    ensures var g := After(r, GuardDrop(panic));
            && g.state.closed && g.late == r.late && g.state.current == r.state.current
            && (panic.Some? ==>
                  && g.state.queue != [] && g.state.queue[|g.state.queue| - 1] == Failed(panic.value)
                  && !MergedHealth(g.state).hasLiveNotifications)
  {
    hide After, MergeDegraded, FoldSnapshot;
    GuardSteps(r, panic);
    if panic.Some? {
      var one := Next(r, Producer(NoLive));
      NotLiveStays(one.state, panic.value);
    }
  }

  /** Once no route is live, neither a failure nor the end brings one back. */
  lemma NotLiveStays(s: State, error: Failure)
    requires AlreadyNotLive(s)
    ensures var g := CloseIn(FailIn(s, error).state).state;
            && !MergedHealth(g).hasLiveNotifications
            && g.queue != [] && g.queue[|g.queue| - 1] == Failed(error)
  {
    hide MergeDegraded;
  }

  /**
   However the thread goes, the consumer is told: the stream ends, on a snapshot that says
   stopped, and after a panic that also says no route is live and follows the panic's failure.
   */
  lemma GuardEndsTheStream(r: Run, panic: Option<Failure>, waker: Waker)
    requires Invariant(r) && !r.late
    ensures var d := Drained(After(r, GuardDrop(panic)), waker);
            && PollIn(d.state, waker).poll.Finished?
            && d.lastSnapshot.Some? && d.lastSnapshot.value.health.stopped
            && d.lastSnapshot.value.config == r.state.current
            && (panic.Some? ==>
                  && !d.lastSnapshot.value.health.hasLiveNotifications
                  && d.delivered != [] && d.delivered[|d.delivered| - 1] == panic.value)
  {
    hide Invariant, After, Drained, LastSnapshot;
    var g := After(r, GuardDrop(panic));
    GuardSteps(r, panic);
    RunKeepsInvariant(r, GuardDrop(panic));
    GuardState(r, panic);
    if panic.Some? {
      FailuresLast(g.state.queue);
    }
    DrainDelivers(g, waker);
  }
}
