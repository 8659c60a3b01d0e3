/** Which item a subscriber is handed first, read off the run in front of its first poll. */
module WatchFirstItem {
  import opened Options
  import opened WatchQueue
  import opened WatchRuns

  /**
   How many groups of failures are closed by a published change, a group being failures with no
   change of the configuration between them. `pending` says that a group is open.
   */
  function Groups(content: Content, pending: bool, steps: seq<Step>): nat
    decreases steps
  {
    if steps == [] then 0
    else
      match steps[0]
      case Producer(Emit(config)) =>
        if config.content == content then Groups(content, pending, steps[1..])
        else (if pending then 1 else 0) + Groups(config.content, false, steps[1..])
      case Producer(Fail(_)) => Groups(content, true, steps[1..])
      case _ => Groups(content, pending, steps[1..])
  }

  /** The queue nobody has polled: the front snapshot, one failure a group, and a snapshot behind. */
  predicate Unpolled(queue: seq<Queued>, groups: nat, pending: bool) {
    var behind := if groups == 0 then 1 else groups + 2;
    && |queue| == behind + (if pending then 1 else 0)
    && queue[0].Snapshot? && (groups > 0 ==> queue[groups + 1].Snapshot?)
    && (forall i :: 0 < i <= groups ==> queue[i].Failed?)
    && (pending ==> queue[|queue| - 1].Failed?)
  }

  lemma UnpolledLast(queue: seq<Queued>, groups: nat, pending: bool)
    requires Unpolled(queue, groups, pending)
    ensures LastSnapshot(queue) == if groups == 0 then 0 else groups + 1
  {
    LastSnapshotIs(queue, if groups == 0 then 0 else groups + 1);
  }

  /** A change closes the open group: its failure stays, and one snapshot goes behind it. */
  lemma EmitUnpolled(queue: seq<Queued>, groups: nat, pending: bool)
    requires Unpolled(queue, groups, pending)
    ensures Unpolled(FoldSnapshot(queue), groups + (if pending then 1 else 0), false)
  {
    hide LastSnapshot;
    UnpolledLast(queue, groups, pending);
  }

  /** The step publishes a changed configuration. */
  predicate Publishes(r: Run, step: Step) {
    step.Producer? && step.report.Emit? && step.report.config.content != r.state.current.content
  }

  function Closed(r: Run, step: Step, groups: nat, pending: bool): nat {
    groups + if Publishes(r, step) && pending then 1 else 0
  }

  predicate Open(r: Run, step: Step, pending: bool) {
    (pending && !Publishes(r, step)) || (step.Producer? && step.report.Fail?)
  }

  /** A step on a queue nobody has polled and nothing was discarded from. */
  lemma UnpolledStep(r: Run, step: Step, groups: nat, pending: bool)
    requires r.trimmed == 0 && Unpolled(r.state.queue, groups, pending) && !step.PollNext?
    requires groups <= MAX_QUEUED_CHANGES - 2
    ensures var n := Next(r, step);
            && n.state.current.content ==
                 (if Publishes(r, step) then step.report.config.content else r.state.current.content)
            && (n.trimmed == 0 <==> Closed(r, step, groups, pending) <= MAX_QUEUED_CHANGES - 2)
            && (n.trimmed == 0 ==>
                  Unpolled(n.state.queue, Closed(r, step, groups, pending), Open(r, step, pending)))
  {
    hide LastSnapshot, FoldSnapshot, Failures, Excess, Unpolled;
    if Publishes(r, step) {
      EmitUnpolled(r.state.queue, groups, pending);
      NothingExcess(FoldSnapshot(r.state.queue), Closed(r, step, groups, pending));
    } else if step.Producer? && step.report.Fail? {
      FailUnpolled(r.state, step.report.error, groups, pending);
    }
  }

  /** A folded queue within the limit is kept whole; one past it loses its front. */
  lemma NothingExcess(folded: seq<Queued>, groups: nat)
    requires Unpolled(folded, groups, false)
    ensures Excess(folded) == 0 <==> groups <= MAX_QUEUED_CHANGES - 2
    ensures Excess(folded) == 0 ==> folded[Excess(folded)..] == folded
  {
  }

  lemma FailUnpolled(s: State, error: Failure, groups: nat, pending: bool)
    requires Unpolled(s.queue, groups, pending)
    ensures Unpolled(FailIn(s, error).state.queue, groups, true)
  {
  }

  lemma TrimmedStays(r: Run, step: Step)
    ensures Next(r, step).trimmed >= r.trimmed
  {
  }

  lemma {:induction false} TrimmedInTheEnd(r: Run, steps: seq<Step>)
    ensures After(r, steps).trimmed >= r.trimmed
    decreases steps
  {
    if steps != [] {
      TrimmedStays(r, steps[0]);
      TrimmedInTheEnd(Next(r, steps[0]), steps[1..]);
    }
  }

  /** Whether anything was discarded is a matter of how many groups of failures were closed. */
  lemma {:induction false} DiscardsExactlyWhen(r: Run, steps: seq<Step>, groups: nat, pending: bool)
    requires r.trimmed == 0 && Unpolled(r.state.queue, groups, pending)
    requires forall i :: 0 <= i < |steps| ==> !steps[i].PollNext?
    requires groups <= MAX_QUEUED_CHANGES - 2
    ensures After(r, steps).trimmed == 0 <==>
            groups + Groups(r.state.current.content, pending, steps) <= MAX_QUEUED_CHANGES - 2
    decreases steps
  {
    hide Unpolled, Next;
    if steps != [] {
      var n, rest := Next(r, steps[0]), steps[1..];
      assert forall i :: 0 <= i < |rest| ==> rest[i] == steps[i + 1];
      UnpolledStep(r, steps[0], groups, pending);
      if n.trimmed == 0 {
        DiscardsExactlyWhen(n, rest, Closed(r, steps[0], groups, pending), Open(r, steps[0], pending));
      } else {
        TrimmedInTheEnd(n, rest);
      }
    }
  }
  lemma {:induction false} NoPolls(r: Run, steps: seq<Step>)
    requires forall i :: 0 <= i < |steps| ==> !steps[i].PollNext?
    ensures After(r, steps).polls == r.polls && After(r, steps).trimmedAtDrain == r.trimmedAtDrain
    decreases steps
  {
    if steps != [] {
      assert forall i :: 0 <= i < |steps[1..]| ==> !steps[1..][i].PollNext?;
      NoPolls(Next(r, steps[0]), steps[1..]);
    }
  }

  /**
   Before the first poll an item is waiting. It is the subscription's snapshot as long as at most
   1022 groups of failures have been closed by a published change, which is when the counter of
   discarded items is still at zero, and from then on it is a failure.
   */
  lemma FirstItemIsASnapshot(config: ProxyConfig, steps: seq<Step>, waker: Waker)
    requires forall i :: 0 <= i < |steps| ==> !steps[i].PollNext?
    ensures var r := After(Start(config), steps);
            var poll := PollIn(r.state, waker).poll;
            && poll.Ready?
            && (poll.event.SnapshotEvent? <==> r.state.dropped == 0)
            && (poll.event.SnapshotEvent? <==> Groups(config.content, false, steps) <= MAX_QUEUED_CHANGES - 2)
  {
    hide QueueShape, History, Unpolled, After, Groups;
    EveryRun(config, steps);
    NoPolls(Start(config), steps);
    StartIsUnpolled(config);
    DiscardsExactlyWhen(Start(config), steps, 0, false);
  }

  lemma StartIsUnpolled(config: ProxyConfig)
    ensures Unpolled(Start(config).state.queue, 0, false)
  {
  }

  // -------------------------------------------------------------------- a run that discards

  /** Rounds of a failed re-read and a change, to one configuration and to the other in turn. */
  function Rounds(count: nat, error: Failure, next: ProxyConfig, other: ProxyConfig): seq<Step> {
    if count == 0 then [] else [Producer(Fail(error)), Producer(Emit(next))] + Rounds(count - 1, error, other, next)
  }

  lemma {:induction false} RoundsClose(count: nat, error: Failure, next: ProxyConfig, other: ProxyConfig)
    requires next.content != other.content
    ensures Groups(other.content, false, Rounds(count, error, next, other)) == count
    ensures forall i :: 0 <= i < |Rounds(count, error, next, other)| ==> !Rounds(count, error, next, other)[i].PollNext?
  {
    if count > 0 {
      var rest := Rounds(count - 1, error, other, next);
      var rounds := Rounds(count, error, next, other);
      assert rounds[1..] == [Producer(Emit(next))] + rest && rounds[1..][1..] == rest;
      RoundsClose(count - 1, error, other, next);
    }
  }

  /** 1023 such rounds discard the subscription's snapshot: the first item is then a failure. */
  lemma FirstItemIsAFailure(error: Failure, config: ProxyConfig, other: ProxyConfig, waker: Waker)
    requires config.content != other.content
    ensures var r := After(Start(config), Rounds(1023, error, other, config));
            && PollIn(r.state, waker).poll.Ready?
            && PollIn(r.state, waker).poll.event.ErrorEvent?
  {
    hide After, PollIn, Rounds;
    RoundsClose(1023, error, other, config);
    FirstItemIsASnapshot(config, Rounds(1023, error, other, config), waker);
  }
}
