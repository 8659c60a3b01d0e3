/**
 What an event says, read off the state and off the run: the configuration published last, and
 of the health exactly what was recorded and what was reported since.
 */
module WatchReports {
  import opened Options
  import opened WatchQueue
  import opened WatchRuns
  import opened WatchPromises

  /** Until the constructor has recorded a health, none is claimed. */
  function Recorded(s: State): WatchHealth {
    if s.construction.Some? then s.construction.value else WatchHealth([], false, None, false)
  }

  function Said(event: WatchEvent): WatchState {
    match event
    case SnapshotEvent(state) => state
    case ErrorEvent(_, state) => state
  }

  /** Every event, a failure's too, carries the state as it stands when it is handed over. */
  lemma EventsCarryTheState(s: State, waker: Waker)
    requires PollIn(s, waker).poll.Ready?
    ensures var event := PollIn(s, waker).poll.event;
            var said := Said(event);
            && said.config == s.current
            && said.health.stopped == s.closed
            && said.health.hasLiveNotifications == (Recorded(s).hasLiveNotifications && !s.runtimeNoLiveNotifications)
            && said.health.pollInterval == Recorded(s).pollInterval
            && Recorded(s).degraded <= said.health.degraded
            && (forall source :: source in said.health.degraded <==>
                  source in Recorded(s).degraded || source in s.runtimeDegraded)
            && (event.ErrorEvent? <==> s.queue != [] && s.queue[0].Failed?)
            && (event.ErrorEvent? ==> event.error == s.queue[0].error)
  {
    MergedDegradedMeaning(Recorded(s).degraded, s.runtimeDegraded);
  }

  // ------------------------------------------------------------------------- over whole runs

  /** The health of the first record, the only one that is kept. */
  function FirstRecord(steps: seq<Step>): Option<WatchHealth> {
    if steps == [] then None
    else if steps[0].Establish? then Some(steps[0].health)
    else FirstRecord(steps[1..])
  }

  /** The content of the configuration published last. */
  function LastContent(content: Content, steps: seq<Step>): Content {
    if steps == [] then content
    else if steps[0].Producer? && steps[0].report.Emit? then LastContent(steps[0].report.config.content, steps[1..])
    else LastContent(content, steps[1..])
  }

  /** The state agrees with what has been reported: the end, the last live route, one lost route. */
  predicate Agrees(s: State, ended: bool, noLive: bool, source: Source, lost: bool) {
    && (s.closed <==> ended)
    && (s.runtimeNoLiveNotifications ==> noLive)
    && (noLive ==> s.runtimeNoLiveNotifications || (s.construction.Some? && !s.construction.value.hasLiveNotifications))
    && (source in s.runtimeDegraded ==> lost)
    && (lost ==> source in s.runtimeDegraded || (s.construction.Some? && source in s.construction.value.degraded))
  }

  /** The state a step leaves, its history aside. */
  function Moved(s: State, step: Step): State {
    match step
    case Producer(report) => ReportIn(s, report).state
    case Establish(health) => EstablishIn(s, health)
    case PollNext(waker) => PollIn(s, waker).state
  }

  lemma NextMoves(r: Run, step: Step)
    ensures Next(r, step).state == Moved(r.state, step)
  {
    hide FoldSnapshot, Excess, Failures;
  }

  lemma PollKeepsReports(s: State, waker: Waker)
    ensures var n := PollIn(s, waker).state;
            n == s.(queue := n.queue, dropped := n.dropped, dirty := n.dirty, waker := n.waker)
  {
  }

  lemma StepAgrees(s: State, step: Step, ended: bool, noLive: bool, source: Source, lost: bool)
    requires Agrees(s, ended, noLive, source, lost)
    ensures Agrees(Moved(s, step), ended || step == Producer(Close), noLive || step == Producer(NoLive),
                   source, lost || step == Producer(Degrade(source)))
  {
    hide FoldSnapshot, Excess, PollIn;
    if step.PollNext? {
      PollKeepsReports(s, step.waker);
    }
  }

  lemma StepRecords(s: State, step: Step)
    ensures Moved(s, step).construction ==
            if s.construction.Some? then s.construction
            else if step.Establish? then Some(step.health) else None
    ensures Moved(s, step).current.content ==
            if step.Producer? && step.report.Emit? then step.report.config.content else s.current.content
  {
    hide FoldSnapshot, Excess, PollIn;
    if step.PollNext? {
      PollKeepsReports(s, step.waker);
    }
  }

  lemma {:induction false} RunAgrees(r: Run, steps: seq<Step>, ended: bool, noLive: bool, source: Source, lost: bool)
    requires Agrees(r.state, ended, noLive, source, lost)
    ensures var n := After(r, steps).state;
            && Agrees(n, ended || Producer(Close) in steps, noLive || Producer(NoLive) in steps,
                      source, lost || Producer(Degrade(source)) in steps)
            && n.construction == (if r.state.construction.Some? then r.state.construction else FirstRecord(steps))
            && n.current.content == LastContent(r.state.current.content, steps)
    decreases steps
  {
    if steps != [] {
      hide Agrees, Next, Moved;
      var step, rest := steps[0], steps[1..];
      assert steps == [step] + rest;
      NextMoves(r, step);
      StepAgrees(r.state, step, ended, noLive, source, lost);
      StepRecords(r.state, step);
      RunAgrees(Next(r, step), rest, ended || step == Producer(Close), noLive || step == Producer(NoLive),
                source, lost || step == Producer(Degrade(source)));
    }
  }

  /**
   After any run the merged health and the configuration are exactly what was recorded and
   reported, whatever was skipped, coalesced or polled on the way.
   */
  lemma NothingReportedIsForgotten(config: ProxyConfig, steps: seq<Step>, source: Source)
    ensures var s := After(Start(config), steps).state;
            var health, recorded := MergedHealth(s), FirstRecord(steps);
            && s.current.content == LastContent(config.content, steps)
            && (health.stopped <==> Producer(Close) in steps)
            && (health.hasLiveNotifications <==>
                  recorded.Some? && recorded.value.hasLiveNotifications && Producer(NoLive) !in steps)
            && health.pollInterval == (if recorded.Some? then recorded.value.pollInterval else None)
            && (source in health.degraded <==>
                  || (recorded.Some? && source in recorded.value.degraded)
                  || Producer(Degrade(source)) in steps)
  {
    hide After, Next;
    assert Agrees(Start(config).state, false, false, source, false);
    RunAgrees(Start(config), steps, false, false, source, false);
    var s := After(Start(config), steps).state;
    MergedDegradedMeaning(Construction(s).degraded, s.runtimeDegraded);
  }

  // ------------------------------------------------------------------------ nothing twice

  function SnapshotsIn(queue: seq<Queued>): nat {
    if queue == [] then 0 else (if queue[0].Snapshot? then 1 else 0) + SnapshotsIn(queue[1..])
  }

  /** The snapshots a consumer is given that polls until nothing is ready, no producer in between. */
  function SnapshotsTaken(s: State, waker: Waker): nat
    decreases Waiting(s)
  {
    var polled := PollIn(s, waker);
    if !polled.poll.Ready? then 0
    else
      PollMakesProgress(s, waker);
      (if polled.poll.event.SnapshotEvent? then 1 else 0) + SnapshotsTaken(polled.state, waker)
  }

  /**
   It is given the queued snapshots, and one more exactly when a health transition is unreported and
   none is queued: a snapshot that is delivered reports every transition before it.
   */
  lemma {:induction false} TransitionsShareASnapshot(s: State, waker: Waker)
    ensures SnapshotsTaken(s, waker) ==
            SnapshotsIn(s.queue) + if s.dirty && SnapshotsIn(s.queue) == 0 then 1 else 0
    decreases Waiting(s)
  {
    hide Stamp;
    if PollIn(s, waker).poll.Ready? {
      PollMakesProgress(s, waker);
      TransitionsShareASnapshot(PollIn(s, waker).state, waker);
    }
  }

  lemma {:induction false} NoSnapshotIn(queue: seq<Queued>)
    requires forall i :: 0 <= i < |queue| ==> queue[i].Failed?
    ensures SnapshotsIn(queue) == 0
  {
    if queue != [] {
      NoSnapshotIn(queue[1..]);
    }
  }

  lemma {:induction false} OneSnapshotLast(queue: seq<Queued>)
    requires queue != [] && queue[|queue| - 1].Snapshot?
    requires forall i :: 0 <= i < |queue| - 1 ==> queue[i].Failed?
    ensures SnapshotsIn(queue) == 1
  {
    if |queue| > 1 {
      OneSnapshotLast(queue[1..]);
    }
  }

  /** Shaped queues that end in a snapshot hold it, and at most one more, which is in front. */
  lemma FoldedSnapshots(queue: seq<Queued>)
    requires QueueShape(queue) && queue != [] && queue[|queue| - 1].Snapshot?
    ensures SnapshotsIn(queue) == if |queue| > 1 && queue[0].Snapshot? then 2 else 1
  {
    LastSnapshotIs(queue, |queue| - 1);
    if |queue| > 1 {
      OneSnapshotLast(queue[1..]);
    }
  }

  /**
   A published change is the new current configuration and leaves nothing unreported beside the
   snapshot queued last: it is told of once, or twice when a snapshot was in front already.
   */
  lemma ChangeIsToldOf(s: State, config: ProxyConfig, waker: Waker)
    requires QueueShape(s.queue) && s.current.content != config.content
    ensures var n := EmitIn(s, config).state;
            && n.current == config && !n.dirty
            && n.queue != [] && n.queue[|n.queue| - 1].Snapshot?
            && SnapshotsTaken(n, waker) == if |n.queue| > 1 && n.queue[0].Snapshot? then 2 else 1
  {
    hide QueueShape, SnapshotsTaken, SnapshotsIn, FoldSnapshot, Excess;
    var n := EmitIn(s, config).state;
    ReportKeepsShape(s, Emit(config));
    FoldKeepsShape(s.queue);
    TrimKeepsShape(FoldSnapshot(s.queue));
    FoldedSnapshots(n.queue);
    TransitionsShareASnapshot(n, waker);
  }
}
