/**
 The state that the platform watcher thread and the event stream share, and what each of
 its locked sections does to it. The sections are functions of the state, so that the
 class in WatchShared and the interleavings in WatchWake speak of the same steps.
 */
module WatchQueue {
  import opened Options

  const MAX_QUEUED_CHANGES: nat := 1024

  // What a snapshot is compared by, a failed re-read, and a configuration source.
  type Content(==)
  type Failure(==)
  type Source(==)

  // An executor's waker, as its identity.
  type Waker = nat

  /** A snapshot. The equality skip compares the content alone, never the capture time. */
  datatype ProxyConfig = ProxyConfig(content: Content, capturedAt: int)

  datatype WatchHealth = WatchHealth(
    degraded: seq<Source>,
    hasLiveNotifications: bool,
    pollInterval: Option<nat>,
    stopped: bool)

  datatype WatchState = WatchState(config: ProxyConfig, health: WatchHealth)

  datatype WatchEvent =
    | SnapshotEvent(state: WatchState)
    | ErrorEvent(error: Failure, state: WatchState)

  datatype Poll = Pending | Finished | Ready(event: WatchEvent)

  /** An undelivered item. A snapshot carries nothing: it is stamped when it is delivered. */
  datatype Queued = Snapshot | Failed(error: Failure)

  datatype State = State(
    current: ProxyConfig,
    queue: seq<Queued>,
    dropped: nat,
    waker: Option<Waker>,
    closed: bool,
    dirty: bool,
    runtimeDegraded: seq<Source>,
    runtimeNoLiveNotifications: bool,
    construction: Option<WatchHealth>)

  /** A locked section: the state it leaves, and the waker it wakes once it has unlocked. */
  datatype Locked = Locked(state: State, wakes: Option<Waker>)

  datatype Polled = Polled(state: State, poll: Poll)

  // ---------------------------------------------------------------------------- health

  const NOT_ESTABLISHED: WatchHealth := WatchHealth([], false, None, false)

  function Construction(s: State): WatchHealth {
    if s.construction.Some? then s.construction.value else NOT_ESTABLISHED
  }

  function MergeDegraded(established: seq<Source>, runtime: seq<Source>): seq<Source>
    decreases runtime
  {
    if runtime == [] then established
    else
      MergeDegraded(
        if runtime[0] in established then established else established + [runtime[0]],
        runtime[1..])
  }

  function MergedHealth(s: State): WatchHealth {
    var built := Construction(s);
    WatchHealth(
      MergeDegraded(built.degraded, s.runtimeDegraded),
      built.hasLiveNotifications && !s.runtimeNoLiveNotifications,
      built.pollInterval,
      s.closed)
  }

  function Stamp(s: State): WatchState {
    WatchState(s.current, MergedHealth(s))
  }

  // ----------------------------------------------------------------------------- queue

  /** The position of the last snapshot, or -1. */
  function LastSnapshot(queue: seq<Queued>): (at: int)
    ensures -1 <= at < |queue|
    ensures 0 <= at ==> queue[at].Snapshot?
    ensures forall i :: at < i < |queue| ==> queue[i].Failed?
  {
    if queue == [] then -1
    else if queue[|queue| - 1].Snapshot? then |queue| - 1
    else LastSnapshot(queue[..|queue| - 1])
  }

  /** Make a snapshot the last entry, moving one already queued behind the front. */
  function FoldSnapshot(queue: seq<Queued>): seq<Queued> {
    var at := LastSnapshot(queue);
    if 0 <= at && at + 1 == |queue| then queue
    else if 0 < at then queue[..at] + queue[at + 1..] + [Snapshot]
    else queue + [Snapshot]
  }

  function Excess(queue: seq<Queued>): (excess: nat)
    ensures excess <= |queue|
  {
    if |queue| <= MAX_QUEUED_CHANGES then 0 else |queue| - MAX_QUEUED_CHANGES
  }

  function TrimIn(s: State): State {
    s.(queue := s.queue[Excess(s.queue)..], dropped := s.dropped + Excess(s.queue))
  }

  // ------------------------------------------------------------------- locked sections

  function Initial(config: ProxyConfig): State {
    State(config, [Snapshot], 0, None, false, false, [], false, None)
  }

  /** The construction-time half is written once; a second write is refused. */
  function EstablishIn(s: State, health: WatchHealth): State {
    if s.construction.Some? then s else s.(construction := Some(health))
  }

  function Roused(s: State): Locked {
    Locked(s.(waker := None), s.waker)
  }

  function EmitIn(s: State, config: ProxyConfig): Locked {
    if s.current.content == config.content then Locked(s, None)
    else
      Roused(TrimIn(s.(current := config, queue := FoldSnapshot(s.queue), dirty := false)))
  }

  function FailIn(s: State, error: Failure): Locked {
    if s.queue != [] && s.queue[|s.queue| - 1].Failed? then
      Locked(s.(queue := s.queue[|s.queue| - 1 := Failed(error)]), None)
    else
      Roused(s.(queue := s.queue + [Failed(error)]))
  }

  predicate AlreadyDegraded(s: State, source: Source) {
    || source in s.runtimeDegraded
    || (s.construction.Some? && source in s.construction.value.degraded)
  }

  function DegradeIn(s: State, source: Source): Locked {
    if AlreadyDegraded(s, source) then Locked(s, None)
    else Roused(s.(runtimeDegraded := s.runtimeDegraded + [source], dirty := true))
  }

  predicate AlreadyNotLive(s: State) {
    || s.runtimeNoLiveNotifications
    || (s.construction.Some? && !s.construction.value.hasLiveNotifications)
  }

  function NoLiveIn(s: State): Locked {
    if AlreadyNotLive(s) then Locked(s, None)
    else Roused(s.(runtimeNoLiveNotifications := true, dirty := true))
  }

  function CloseIn(s: State): Locked {
    if s.closed then Locked(s, None)
    else Roused(s.(closed := true, dirty := true))
  }

  function PollIn(s: State, waker: Waker): Polled {
    if s.queue != [] then
      var rest := s.queue[1..];
      var popped := s.(queue := rest, dropped := if rest == [] then 0 else s.dropped);
      match s.queue[0]
      case Snapshot =>
        var clean := popped.(dirty := false);
        Polled(clean, Ready(SnapshotEvent(Stamp(clean))))
      case Failed(error) => Polled(popped, Ready(ErrorEvent(error, Stamp(popped))))
    else if s.dirty then
      var clean := s.(dirty := false);
      Polled(clean, Ready(SnapshotEvent(Stamp(clean))))
    else if s.closed then
      Polled(s, Finished)
    else
      Polled(s.(waker := Some(waker)), Pending)
  }

  /** What the producers can do, each one locked section. */
  datatype Report =
    | Emit(config: ProxyConfig)
    | Fail(error: Failure)
    | Degrade(source: Source)
    | NoLive
    | Close

  function ReportIn(s: State, report: Report): Locked {
    match report
    case Emit(config) => EmitIn(s, config)
    case Fail(error) => FailIn(s, error)
    case Degrade(source) => DegradeIn(s, source)
    case NoLive => NoLiveIn(s)
    case Close => CloseIn(s)
  }

  // ------------------------------------------------------------------- what is promised

  /** Polling now yields an event or the end of the stream. */
  predicate IsReady(s: State) {
    s.queue != [] || s.dirty || s.closed
  }

  /** A snapshot is still to come: one is queued, or a health transition is unreported. */
  predicate Owed(s: State) {
    Snapshot in s.queue || s.dirty
  }

  /** A parked consumer has nothing to read. */
  predicate ParkedOnlyWhenIdle(s: State) {
    s.waker.Some? ==> !IsReady(s)
  }

  /** At most two snapshots, the first of two in front, and at most one failure last. */
  predicate Folded(queue: seq<Queued>) {
    && (forall i :: 0 < i < |queue| && queue[i].Snapshot? ==> i == LastSnapshot(queue))
    && |queue| <= LastSnapshot(queue) + 2
  }

  predicate Bounded(queue: seq<Queued>) {
    && |queue| <= MAX_QUEUED_CHANGES + 1
    && (|queue| == MAX_QUEUED_CHANGES + 1 ==> queue[|queue| - 1].Failed?)
  }

  predicate QueueShape(queue: seq<Queued>) {
    Folded(queue) && Bounded(queue)
  }

  lemma LastSnapshotIs(queue: seq<Queued>, at: int)
    requires -1 <= at < |queue|
    requires 0 <= at ==> queue[at].Snapshot?
    requires forall i :: at < i < |queue| ==> queue[i].Failed?
    ensures LastSnapshot(queue) == at
  {
  }

  /** Folding grows only a queue of at most two entries, and the shape survives. */
  lemma FoldKeepsShape(queue: seq<Queued>)
    requires QueueShape(queue)
    ensures var folded := FoldSnapshot(queue);
            && |folded| <= MAX_QUEUED_CHANGES + 1
            && folded != [] && folded[|folded| - 1].Snapshot?
            && Folded(folded)
            && (|queue| <= |folded| <= |queue| + 1)
            && (|queue| < |folded| ==> |queue| <= 2)
  {
    var folded := FoldSnapshot(queue);
    LastSnapshotIs(folded, |folded| - 1);
  }

  lemma TrimKeepsShape(queue: seq<Queued>)
    requires |queue| <= MAX_QUEUED_CHANGES + 1 && Folded(queue)
    requires queue != [] && queue[|queue| - 1].Snapshot?
    ensures var kept := queue[Excess(queue)..];
            && QueueShape(kept) && |kept| <= MAX_QUEUED_CHANGES
            && kept != [] && kept[|kept| - 1].Snapshot?
            && Excess(queue) <= 1
  {
    var kept := queue[Excess(queue)..];
    LastSnapshotIs(queue, |queue| - 1);
    LastSnapshotIs(kept, |kept| - 1);
  }

  /** A failure that replaces the last one, or goes behind a snapshot, keeps the shape. */
  lemma FailKeepsShape(queue: seq<Queued>, next: seq<Queued>)
    requires QueueShape(queue) && next != [] && next[|next| - 1].Failed?
    requires if queue != [] && queue[|queue| - 1].Failed? then |next| == |queue| else |next| == |queue| + 1
    requires forall i :: 0 <= i < |next| - 1 ==> next[i] == queue[i]
    ensures QueueShape(next)
  {
    LastSnapshotIs(next, LastSnapshot(queue));
  }

  lemma EmitKeepsShape(queue: seq<Queued>)
    requires QueueShape(queue)
    ensures QueueShape(FoldSnapshot(queue)[Excess(FoldSnapshot(queue))..])
  {
    hide FoldSnapshot, LastSnapshot, Excess;
    FoldKeepsShape(queue);
    TrimKeepsShape(FoldSnapshot(queue));
  }

  /** Every locked section of a producer keeps the shape of the queue. */
  lemma ReportKeepsShape(s: State, report: Report)
    requires QueueShape(s.queue)
    ensures QueueShape(ReportIn(s, report).state.queue)
  {
    hide QueueShape, FoldSnapshot, Excess;
    match report
    case Emit(config) => EmitKeepsShape(s.queue);
    case Fail(error) => FailKeepsShape(s.queue, FailIn(s, error).state.queue);
    case _ =>
  }

  lemma PollKeepsShape(s: State, waker: Waker)
    requires QueueShape(s.queue)
    ensures QueueShape(PollIn(s, waker).state.queue)
  {
    if s.queue != [] {
      var last := LastSnapshot(s.queue);
      LastSnapshotIs(s.queue[1..], if last == -1 then -1 else last - 1);
    }
  }

  // ----------------------------------------------------------- merged health, as a set

  /** The merged list starts with the established one, adds each lost route once, and no other. */
  lemma {:induction false} MergedDegradedMeaning(established: seq<Source>, runtime: seq<Source>)
    ensures var merged := MergeDegraded(established, runtime);
            && established <= merged
            && (forall source :: source in merged <==> source in established || source in runtime)
            && (NoRepeats(established) ==> NoRepeats(merged))
    decreases runtime
  {
    if runtime != [] {
      var next := if runtime[0] in established then established else established + [runtime[0]];
      MergedDegradedMeaning(next, runtime[1..]);
      var merged := MergeDegraded(established, runtime);
      forall source ensures source in merged <==> source in established || source in runtime {
        assert source in runtime <==> source == runtime[0] || source in runtime[1..];
      }
    }
  }

  predicate NoRepeats(sources: seq<Source>) {
    forall i, j :: 0 <= i < j < |sources| ==> sources[i] != sources[j]
  }

  lemma {:induction false} MergeAppends(established: seq<Source>, runtime: seq<Source>, source: Source)
    ensures MergeDegraded(established, runtime + [source])
         == var merged := MergeDegraded(established, runtime);
            if source in merged then merged else merged + [source]
    decreases runtime
  {
    if runtime == [] {
      assert runtime + [source] == [source];
    } else {
      assert (runtime + [source])[1..] == runtime[1..] + [source];
      MergeAppends(
        if runtime[0] in established then established else established + [runtime[0]],
        runtime[1..], source);
    }
  }

  /** What a subscriber is told of the health at run time. */
  function RuntimeHealth(s: State): (seq<Source>, bool, bool) {
    (s.runtimeDegraded, s.runtimeNoLiveNotifications, s.closed)
  }

  /**
   A section other than a publication marks the state dirty exactly when it changes what is known
   at run time, and that moves the merged health, except that a route reported gone before the
   construction-time health is recorded, which claims none, moves nothing.
   */
  lemma DirtyExactlyWhenHealthMoves(s: State, report: Report)
    requires !report.Emit?
    ensures var after := ReportIn(s, report).state;
            && (after.dirty <==> s.dirty || RuntimeHealth(after) != RuntimeHealth(s))
            && (MergedHealth(after) != MergedHealth(s) <==>
                  RuntimeHealth(after) != RuntimeHealth(s) && !(report.NoLive? && s.construction.None?))
  {
    match report
    case Degrade(source) =>
      MergeAppends(Construction(s).degraded, s.runtimeDegraded, source);
      MergedDegradedMeaning(Construction(s).degraded, s.runtimeDegraded);
    case _ =>
  }
}
