/**
 Whole runs of the watcher's queue: the state together with the history of what was raised,
 delivered, overwritten and discarded, and what holds after every step of every run.
 */
module WatchRuns {
  import opened Options
  import opened WatchQueue

  /** A step of a run: a producer's section, a poll, or the constructor's health record. */
  datatype Step =
    | Producer(report: Report)
    | Establish(health: WatchHealth)
    | PollNext(waker: Waker)

  /**
   A state and its history. Failures are told apart by the order they were raised in: `kept`
   holds the positions in `raised` of the delivered failures and then of the queued ones.
   */
  datatype Run = Run(
    state: State,
    lastSnapshot: Option<WatchState>,
    raised: seq<Failure>,
    delivered: seq<Failure>,
    kept: seq<nat>,
    overwritten: nat,
    trimmedFailures: nat,
    trimmed: nat,
    trimmedAtDrain: nat,
    polls: nat,
    late: bool)

  function Start(config: ProxyConfig): Run {
    Run(Initial(config), None, [], [], [], 0, 0, 0, 0, 0, false)
  }

  function Failures(queue: seq<Queued>): (failures: seq<Failure>) {
    if queue == [] then []
    else (if queue[0].Failed? then [queue[0].error] else []) + Failures(queue[1..])
  }

  function Without<T>(items: seq<T>, at: nat, count: nat): seq<T> {
    if at + count <= |items| then items[..at] + items[at + count..] else items
  }

  function AfterEmit(r: Run, config: ProxyConfig): Run {
    var s := EmitIn(r.state, config).state;
    if r.state.current.content == config.content then r.(state := s)
    else
      var folded := FoldSnapshot(r.state.queue);
      var lost := |Failures(folded[..Excess(folded)])|;
      r.(state := s,
         kept := Without(r.kept, |r.delivered|, lost),
         trimmedFailures := r.trimmedFailures + lost,
         trimmed := r.trimmed + Excess(folded))
  }

  function AfterFail(r: Run, error: Failure): Run {
    var queue := r.state.queue;
    var coalesces := queue != [] && queue[|queue| - 1].Failed?;
    r.(state := FailIn(r.state, error).state,
       raised := r.raised + [error],
       kept := (if coalesces && r.kept != [] then r.kept[..|r.kept| - 1] else r.kept) + [|r.raised|],
       overwritten := r.overwritten + if coalesces then 1 else 0)
  }

  function AfterPoll(r: Run, waker: Waker): Run {
    var polled := PollIn(r.state, waker);
    var drained := r.state.queue != [] && polled.state.queue == [];
    r.(state := polled.state,
       polls := r.polls + 1,
       trimmedAtDrain := if drained then r.trimmed else r.trimmedAtDrain,
       lastSnapshot := match polled.poll
                       case Ready(SnapshotEvent(stamp)) => Some(stamp)
                       case _ => r.lastSnapshot,
       delivered := match polled.poll
                    case Ready(ErrorEvent(error, _)) => r.delivered + [error]
                    case _ => r.delivered)
  }

  function Next(r: Run, step: Step): Run {
    match step
    case Producer(Emit(config)) => AfterEmit(r, config)
    case Producer(Fail(error)) => AfterFail(r, error)
    case Producer(report) => r.(state := ReportIn(r.state, report).state)
    case PollNext(waker) => AfterPoll(r, waker)
    case Establish(health) =>
      r.(state := EstablishIn(r.state, health),
         late := r.late || (r.state.construction.None? && r.polls > 0))
  }

  function After(r: Run, steps: seq<Step>): Run
    decreases steps
  {
    if steps == [] then r else After(Next(r, steps[0]), steps[1..])
  }

  // ------------------------------------------------------------------ what always holds

  /**
   `known` is, in order and once each, what was raised at the positions `kept`, and the newest
   failure raised is the last of them.
   */
  predicate Kept(raised: seq<Failure>, kept: seq<nat>, known: seq<Failure>) {
    && |kept| == |known|
    && (forall i, j :: 0 <= i < j < |kept| ==> kept[i] < kept[j])
    && (forall i :: 0 <= i < |kept| ==> kept[i] < |raised| && raised[kept[i]] == known[i])
    && (raised != [] ==> kept != [] && kept[|kept| - 1] == |raised| - 1)
  }

  /** The failures the consumer has, then the ones it will be handed. */
  function Known(r: Run): seq<Failure> {
    r.delivered + Failures(r.state.queue)
  }

  /** No failure is unaccounted for. */
  predicate Conserved(r: Run) {
    |r.raised| == |Known(r)| + r.overwritten + r.trimmedFailures
  }

  predicate History(r: Run) {
    Kept(r.raised, r.kept, Known(r)) && Conserved(r)
  }

  /** Nothing is owed only when the last snapshot delivered is the state as it is now. */
  predicate Fresh(r: Run) {
    !Owed(r.state) ==> r.lastSnapshot == Some(Stamp(r.state))
  }

  /** The front is the subscription's snapshot until an entry is discarded, and never after. */
  predicate FirstItem(queue: seq<Queued>, trimmed: nat) {
    && Snapshot in queue
    && (if trimmed == 0 then queue[0].Snapshot?
        else |queue| >= MAX_QUEUED_CHANGES && queue[0].Failed?)
  }

  predicate Episode(r: Run) {
    r.trimmedAtDrain <= r.trimmed && r.state.dropped == r.trimmed - r.trimmedAtDrain
  }

  predicate Invariant(r: Run) {
    && QueueShape(r.state.queue)
    && ParkedOnlyWhenIdle(r.state)
    && History(r)
    && Episode(r)
    && (r.polls == 0 ==> FirstItem(r.state.queue, r.trimmed))
    && (r.late ==> r.polls > 0 && r.state.construction.Some?)
    && (!r.late ==> Fresh(r))
  }

  // ------------------------------------------------------------------------- list lemmas

  lemma ConcatIsAssociative<T>(a: seq<T>, b: seq<T>, c: seq<T>)
    ensures a + (b + c) == (a + b) + c
  {
  }

  lemma {:induction false} FailuresConcat(a: seq<Queued>, b: seq<Queued>)
    ensures Failures(a + b) == Failures(a) + Failures(b)
  {
    if a == [] {
      assert a + b == b;
    } else {
      FailuresConcat(a[1..], b);
      assert (a + b)[1..] == a[1..] + b && (a + b)[0] == a[0];
      var first := if a[0].Failed? then [a[0].error] else [];
      ConcatIsAssociative(first, Failures(a[1..]), Failures(b));
    }
  }

  lemma FailuresSplit(queue: seq<Queued>, at: nat)
    requires at <= |queue|
    ensures Failures(queue) == Failures(queue[..at]) + Failures(queue[at..])
  {
    FailuresConcat(queue[..at], queue[at..]);
    assert queue == queue[..at] + queue[at..];
  }

  lemma FailuresOfSnapshot(rest: seq<Queued>)
    ensures Failures([Snapshot] + rest) == Failures(rest) && Failures([Snapshot]) == []
  {
    assert ([Snapshot] + rest)[1..] == rest;
    assert [Snapshot][1..] == [];
  }

  /** A snapshot taken out leaves the failures as they were. */
  lemma FailuresWithout(queue: seq<Queued>, at: nat)
    requires at < |queue| && queue[at].Snapshot?
    ensures Failures(queue[..at] + queue[at + 1..]) == Failures(queue)
  {
    hide Failures;
    FailuresSplit(queue, at);
    FailuresConcat(queue[..at], queue[at + 1..]);
    FailuresOfSnapshot(queue[at + 1..]);
    assert queue[at..] == [Snapshot] + queue[at + 1..];
  }

  lemma FailuresFold(queue: seq<Queued>)
    ensures Failures(FoldSnapshot(queue)) == Failures(queue)
  {
    hide Failures, LastSnapshot;
    var at := LastSnapshot(queue);
    FailuresOfSnapshot([]);
    FailuresConcat(queue, [Snapshot]);
    if 0 < at {
      FailuresWithout(queue, at);
      FailuresConcat(queue[..at] + queue[at + 1..], [Snapshot]);
    }
  }

  lemma FailuresLast(queue: seq<Queued>)
    requires queue != [] && queue[|queue| - 1].Failed?
    ensures Failures(queue) == Failures(queue[..|queue| - 1]) + [queue[|queue| - 1].error]
  {
    FailuresSplit(queue, |queue| - 1);
    assert queue[|queue| - 1..] == [queue[|queue| - 1]];
  }

  lemma {:induction false} FailuresNonEmpty(queue: seq<Queued>, at: nat)
    requires at < |queue| && queue[at].Failed?
    ensures Failures(queue) != []
    decreases at
  {
    if at > 0 {
      FailuresNonEmpty(queue[1..], at - 1);
    }
  }

  lemma KeptAppend(raised: seq<Failure>, kept: seq<nat>, known: seq<Failure>, error: Failure)
    requires Kept(raised, kept, known)
    ensures Kept(raised + [error], kept + [|raised|], known + [error])
  {
  }

  lemma KeptReplaceLast(raised: seq<Failure>, kept: seq<nat>, known: seq<Failure>, error: Failure)
    requires Kept(raised, kept, known) && kept != []
    ensures Kept(raised + [error], kept[..|kept| - 1] + [|raised|], known[..|known| - 1] + [error])
  {
  }

  lemma KeptWithout(raised: seq<Failure>, kept: seq<nat>, known: seq<Failure>, at: nat, count: nat)
    requires Kept(raised, kept, known)
    requires at + count <= |known|
    requires 0 < count ==> at + count < |known|
    ensures Kept(raised, Without(kept, at, count), Without(known, at, count))
  {
    var k, w := Without(kept, at, count), Without(known, at, count);
    forall i | 0 <= i < |k|
      ensures k[i] == kept[if i < at then i else i + count] && w[i] == known[if i < at then i else i + count]
    {
    }
  }

  // ------------------------------------------------------------------------------- steps

  /** What one published change does to the queue. */
  lemma EmitQueue(queue: seq<Queued>)
    requires QueueShape(queue)
    ensures var folded := FoldSnapshot(queue);
            var kept := folded[Excess(folded)..];
            && QueueShape(kept) && kept[|kept| - 1].Snapshot? && Excess(folded) <= 1
            && Failures(folded) == Failures(queue)
            && (Excess(folded) > 0 ==> |kept| == MAX_QUEUED_CHANGES && kept[0].Failed?)
            && (Excess(folded) == 0 && queue != [] && Snapshot in queue ==> kept[0] == queue[0])
            && (queue != [] && Snapshot in queue ==> |queue| <= |folded|)
  {
    var folded := FoldSnapshot(queue);
    FoldKeepsShape(queue);
    TrimKeepsShape(folded);
    FailuresFold(queue);
    LastSnapshotIs(folded, |folded| - 1);
  }

  /** Trimming takes failures out between the delivered ones and the rest, and never the last. */
  lemma EmitFailures(queue: seq<Queued>, delivered: seq<Failure>)
    requires QueueShape(queue)
    ensures var folded := FoldSnapshot(queue);
            var lost := |Failures(folded[..Excess(folded)])|;
            var known := delivered + Failures(queue);
            && |delivered| + lost <= |known|
            && (0 < lost ==> |delivered| + lost < |known|)
            && delivered + Failures(folded[Excess(folded)..]) == Without(known, |delivered|, lost)
            && |Without(known, |delivered|, lost)| == |known| - lost
  {
    hide QueueShape, FoldSnapshot, Excess, Failures, Without;
    var folded := FoldSnapshot(queue);
    var excess := Excess(folded);
    EmitQueue(queue);
    FailuresSplit(folded, excess);
    if excess > 0 {
      FailuresNonEmpty(folded[excess..], 0);
    } else {
      assert Failures([]) == [] by { NoFailures(); }
    }
    WithoutMiddle(delivered, Failures(folded[..excess]), Failures(folded[excess..]));
  }

  lemma NoFailures()
    ensures Failures([]) == []
  {
  }

  lemma WithoutMiddle<T>(a: seq<T>, b: seq<T>, c: seq<T>)
    ensures Without(a + (b + c), |a|, |b|) == a + c
  {
  }

  lemma EmitKeepsHistory(r: Run, config: ProxyConfig)
    requires Invariant(r) && r.state.current.content != config.content
    ensures History(AfterEmit(r, config))
  {
    hide Kept, QueueShape, Failures, LastSnapshot, FoldSnapshot;
    var folded := FoldSnapshot(r.state.queue);
    EmitFailures(r.state.queue, r.delivered);
    KeptWithout(r.raised, r.kept, Known(r), |r.delivered|, |Failures(folded[..Excess(folded)])|);
  }

  lemma KeptLength(r: Run)
    requires History(r)
    ensures |r.kept| == |Known(r)|
  {
  }

  lemma EmitKeepsInvariant(r: Run, config: ProxyConfig)
    requires Invariant(r) && r.state.current.content != config.content
    ensures Invariant(AfterEmit(r, config))
  {
    hide History, QueueShape, LastSnapshot;
    EmitKeepsHistory(r, config);
    EmitQueue(r.state.queue);
    var next := AfterEmit(r, config).state;
    assert next.queue[|next.queue| - 1] == Snapshot;
  }

  /** A coalesced failure takes the place of the last known one; any other goes behind it. */
  lemma FailKnown(r: Run, error: Failure)
    ensures var queue, next := r.state.queue, AfterFail(r, error);
            var coalesces := queue != [] && queue[|queue| - 1].Failed?;
            && (coalesces ==> Known(r) != [])
            && Known(next) == (if coalesces then Known(r)[..|Known(r)| - 1] else Known(r)) + [error]
  {
    hide Failures;
    var queue := r.state.queue;
    var next := AfterFail(r, error).state.queue;
    if queue != [] && queue[|queue| - 1].Failed? {
      FailuresLast(queue);
      FailuresLast(next);
      assert next[..|queue| - 1] == queue[..|queue| - 1];
    } else {
      FailuresConcat(queue, [Failed(error)]);
      OneFailure(error);
    }
  }

  lemma OneFailure(error: Failure)
    ensures Failures([Failed(error)]) == [error]
  {
    assert Failures([Failed(error)][1..]) == [];
  }

  lemma FailKeepsHistory(r: Run, error: Failure)
    requires History(r)
    ensures History(AfterFail(r, error))
  {
    hide Kept, Known;
    var queue := r.state.queue;
    KeptLength(r);
    FailKnown(r, error);
    if queue != [] && queue[|queue| - 1].Failed? {
      KeptReplaceLast(r.raised, r.kept, Known(r), error);
    } else {
      KeptAppend(r.raised, r.kept, Known(r), error);
    }
  }

  lemma FailKeepsInvariant(r: Run, error: Failure)
    requires Invariant(r)
    ensures Invariant(AfterFail(r, error))
  {
    hide History, QueueShape, LastSnapshot;
    FailKeepsHistory(r, error);
    ReportKeepsShape(r.state, Fail(error));
    FailKeepsSnapshots(r.state.queue, AfterFail(r, error).state.queue);
  }

  /** A failure replaces a failure at the back or goes behind: every snapshot stays where it was. */
  lemma FailKeepsSnapshots(queue: seq<Queued>, next: seq<Queued>)
    requires |queue| <= |next| <= |queue| + 1
    requires forall i :: 0 <= i < |queue| && queue[i].Snapshot? ==> next[i].Snapshot?
    requires forall i :: 0 <= i < |next| && next[i].Snapshot? ==> i < |queue| && queue[i].Snapshot?
    ensures Snapshot in queue <==> Snapshot in next
  {
  }

  /** Handing over the front failure moves it from the queued to the delivered ones. */
  lemma PollKeepsKnown(r: Run, waker: Waker)
    ensures Known(AfterPoll(r, waker)) == Known(r)
  {
    hide LastSnapshot;
    var queue := r.state.queue;
    if queue != [] {
      assert Failures(queue) == (if queue[0].Failed? then [queue[0].error] else []) + Failures(queue[1..]);
      assert AfterPoll(r, waker).state.queue == queue[1..];
    }
  }

  lemma PollKeepsInvariant(r: Run, waker: Waker)
    requires Invariant(r)
    ensures Invariant(AfterPoll(r, waker))
  {
    hide Kept, QueueShape, LastSnapshot, Failures, Known;
    PollKeepsShape(r.state, waker);
    PollKeepsKnown(r, waker);
  }

  lemma HealthKeepsInvariant(r: Run, report: Report)
    requires Invariant(r) && !report.Emit? && !report.Fail?
    ensures Invariant(r.(state := ReportIn(r.state, report).state))
  {
  }

  lemma StepKeepsInvariant(r: Run, step: Step)
    requires Invariant(r)
    ensures Invariant(Next(r, step))
  {
    match step
    case Producer(Emit(config)) =>
      if r.state.current.content != config.content { EmitKeepsInvariant(r, config); }
    case Producer(Fail(error)) => FailKeepsInvariant(r, error);
    case Producer(report) => HealthKeepsInvariant(r, report);
    case PollNext(waker) => PollKeepsInvariant(r, waker);
    case Establish(health) =>
  }

  /** A step moves the state by its own section, whatever it records. */
  lemma StepMoves(r: Run, step: Step)
    requires Invariant(r)
    ensures Invariant(Next(r, step))
    ensures ParkedOnlyWhenIdle(r.state)
    ensures !Next(r, step).late ==> Fresh(Next(r, step))
    ensures Next(r, step).state ==
            match step
            case Producer(report) => ReportIn(r.state, report).state
            case Establish(health) => EstablishIn(r.state, health)
            case PollNext(waker) => PollIn(r.state, waker).state
  {
    hide History, QueueShape, Episode, FirstItem, LastSnapshot, FoldSnapshot, Failures;
    StepKeepsInvariant(r, step);
  }

  lemma {:induction false} RunKeepsInvariant(r: Run, steps: seq<Step>)
    requires Invariant(r)
    ensures Invariant(After(r, steps))
    decreases steps
  {
    if steps != [] {
      StepKeepsInvariant(r, steps[0]);
      RunKeepsInvariant(Next(r, steps[0]), steps[1..]);
    }
  }

  /** The invariant holds after every run of a new watcher. */
  lemma EveryRun(config: ProxyConfig, steps: seq<Step>)
    ensures Invariant(After(Start(config), steps))
  {
    assert LastSnapshot([Snapshot]) == 0;
    assert Snapshot in [Snapshot];
    RunKeepsInvariant(Start(config), steps);
  }
}
