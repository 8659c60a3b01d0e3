/**
 What becomes of the level-triggered promise when the health is recorded at any moment of a run,
 which the constructor's order leaves open to nobody.
 */
module WatchLateRecord {
  import opened Options
  import opened WatchQueue
  import opened WatchRuns

  /** Once the health is recorded, a step leaves the promise standing, whenever it was recorded. */
  lemma FreshStays(r: Run, step: Step)
    requires Invariant(r) && Fresh(r) && r.state.construction.Some?
    ensures Fresh(Next(r, step))
  {
    hide QueueShape, Kept, FirstItem, LastSnapshot, FoldSnapshot, MergeDegraded, Failures;
    var timely := r.(late := false);
    assert Invariant(timely);
    StepMoves(timely, step);
    LateIsOnlyNoted(r, step);
  }

  /** Whether a health came late is noted and looked at nowhere. */
  lemma LateIsOnlyNoted(r: Run, step: Step)
    requires r.state.construction.Some?
    ensures Next(r.(late := false), step) == Next(r, step).(late := false)
  {
    hide LastSnapshot, FoldSnapshot, Failures, MergeDegraded;
  }

  /** A missed health stays missed until a snapshot is owed again. */
  lemma MissedStays(r: Run, step: Step)
    requires !Fresh(r) && r.state.construction.Some?
    ensures Owed(Next(r, step).state) || !Fresh(Next(r, step))
  {
    hide LastSnapshot, MergeDegraded, Failures;
    match step
    case Producer(Emit(config)) =>
      if r.state.current.content != config.content { EmitOwes(r.state, config); }
    case _ =>
  }

  lemma EmitOwes(s: State, config: ProxyConfig)
    requires s.current.content != config.content
    ensures Owed(EmitIn(s, config).state)
  {
    hide LastSnapshot;
    var folded := FoldSnapshot(s.queue);
    assert folded[|folded| - 1] == Snapshot;
    var kept := folded[Excess(folded)..];
    assert kept[|kept| - 1] == Snapshot;
  }

  lemma StaysRecorded(r: Run, step: Step)
    requires r.state.construction.Some?
    ensures Next(r, step).state.construction.Some?
  {
    hide LastSnapshot, FoldSnapshot, Failures;
  }

  /** Some moment of the run, its start included, owes the consumer a snapshot. */
  ghost predicate OwedSometime(r: Run, steps: seq<Step>)
    decreases steps
  {
    Owed(r.state) || (steps != [] && OwedSometime(Next(r, steps[0]), steps[1..]))
  }

  lemma {:induction false} FreshAfter(r: Run, steps: seq<Step>)
    requires Invariant(r) && r.state.construction.Some?
    ensures Fresh(After(r, steps)) <==> Fresh(r) || OwedSometime(r, steps)
    decreases steps
  {
    if steps != [] {
      hide Invariant, Next, Fresh, Owed;
      OwedIsFresh(r);
      StepMoves(r, steps[0]);
      StaysRecorded(r, steps[0]);
      if Fresh(r) { FreshStays(r, steps[0]); } else { MissedStays(r, steps[0]); }
      OwedIsFresh(Next(r, steps[0]));
      FreshAfter(Next(r, steps[0]), steps[1..]);
      if OwedSometime(Next(r, steps[0]), steps[1..]) {
      } else {
        NotOwedNow(Next(r, steps[0]), steps[1..]);
      }
    } else {
      OwedIsFresh(r);
    }
  }

  lemma OwedIsFresh(r: Run)
    ensures Owed(r.state) ==> Fresh(r)
  {
  }

  lemma NotOwedNow(r: Run, steps: seq<Step>)
    requires !OwedSometime(r, steps)
    ensures !Owed(r.state)
  {
  }

  lemma {:induction false} RunConcat(r: Run, a: seq<Step>, b: seq<Step>)
    ensures After(r, a + b) == After(After(r, a), b)
    decreases a
  {
    hide Next;
    if a == [] {
      assert a + b == b;
    } else {
      assert (a + b)[1..] == a[1..] + b && (a + b)[0] == a[0];
      RunConcat(Next(r, a[0]), a[1..], b);
    }
  }

  lemma {:induction false} NothingRecorded(r: Run, steps: seq<Step>)
    requires r.state.construction.None? && !r.late
    requires forall i :: 0 <= i < |steps| ==> !steps[i].Establish?
    ensures After(r, steps).state.construction.None? && !After(r, steps).late
    decreases steps
  {
    if steps != [] {
      assert forall i :: 0 <= i < |steps[1..]| ==> steps[1..][i] == steps[i + 1];
      assert !steps[0].Establish?;
      NotRecording(r, steps[0]);
      NothingRecorded(Next(r, steps[0]), steps[1..]);
    }
  }

  lemma NotRecording(r: Run, step: Step)
    requires !step.Establish?
    ensures Next(r, step).state.construction == r.state.construction && Next(r, step).late == r.late
  {
    hide LastSnapshot, FoldSnapshot, Failures;
  }

  /**
   The promise rests on the constructor's order, and this much: whenever the health is first
   recorded, the run is level triggered in the end exactly when the record did not move the merged
   health, or a snapshot was owed then or at some moment since. A record ahead of the first poll
   always finds the subscription's snapshot owed.
   */
  lemma LevelTriggeredExactlyWhen(config: ProxyConfig, before: seq<Step>, health: WatchHealth, since: seq<Step>)
    requires forall i :: 0 <= i < |before| ==> !before[i].Establish?
    ensures var recorded := After(Start(config), before + [Establish(health)]);
            && (Fresh(After(Start(config), before + [Establish(health)] + since)) <==>
                  || MergedHealth(recorded.state) == MergedHealth(After(Start(config), before).state)
                  || OwedSometime(recorded, since))
    ensures After(Start(config), before).polls == 0 ==>
              OwedSometime(After(Start(config), before + [Establish(health)]), since)
  {
    hide After, Invariant, Owed, MergedHealth, Fresh, Start;
    NewRun(config);
    var p := After(Start(config), before);
    EveryRun(config, before);
    EveryRun(config, before + [Establish(health)]);
    NothingRecorded(Start(config), before);
    RunConcat(Start(config), before, [Establish(health)]);
    OneRecord(p, health);
    RunConcat(Start(config), before + [Establish(health)], since);
    FreshAfter(Next(p, Establish(health)), since);
  }

  lemma NewRun(config: ProxyConfig)
    ensures Start(config).state.construction.None? && !Start(config).late
  {
  }

  /** What one record, the first, does to a run that was up to date. */
  lemma OneRecord(p: Run, health: WatchHealth)
    requires Invariant(p) && p.state.construction.None? && !p.late
    ensures var n := Next(p, Establish(health));
            && After(p, [Establish(health)]) == n && n.state.construction.Some?
            && (Owed(n.state) <==> Owed(p.state))
            && (p.polls == 0 ==> Owed(p.state))
            && (Fresh(n) <==> Owed(n.state) || MergedHealth(n.state) == MergedHealth(p.state))
    ensures forall since :: Owed(p.state) ==> OwedSometime(Next(p, Establish(health)), since)
  {
    hide QueueShape, History, Episode, MergeDegraded;
    assert After(Next(p, Establish(health)), []) == Next(p, Establish(health));
    assert [Establish(health)][1..] == [];
  }

  /** A record after the first poll can go unreported. */
  lemma RecordIsMissed(config: ProxyConfig)
    ensures var r := After(Start(config), [PollNext(0)] + [Establish(WatchHealth([], true, None, false))] + []);
            PollIn(r.state, 0).poll.Pending? && r.lastSnapshot != Some(Stamp(r.state))
  {
    hide After;
    var health := WatchHealth([], true, None, false);
    var first := Next(Start(config), PollNext(0));
    var second := Next(first, Establish(health));
    OneStep(Start(config), PollNext(0));
    OneStep(first, Establish(health));
    RunConcat(Start(config), [PollNext(0)], [Establish(health)]);
    assert [PollNext(0)] + [Establish(health)] + [] == [PollNext(0)] + [Establish(health)];
    assert !MergedHealth(first.state).hasLiveNotifications && MergedHealth(second.state).hasLiveNotifications;
  }

  lemma OneStep(r: Run, step: Step)
    ensures After(r, [step]) == Next(r, step)
  {
    assert [step][1..] == [];
    assert After(Next(r, step), []) == Next(r, step);
  }
}
