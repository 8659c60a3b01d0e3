/**
 What becomes of the jobs: each one that ran is answered or on its way to it, nothing a call or a
 thread can reach strands one, and what a call wanted its slot for is what it uses it for.
 */
module PoolAnswers {
  import opened Options
  import opened PoolProtocol
  import opened PoolInvariant
  import opened PoolThreads
  import opened PoolPromises

  /** The job has run, or is running, on the thread, which has yet to answer it. */
  predicate Has(s: State, t: ThreadId, call: CallId) {
    t in s.threads && s.threads[t].phase in {Running(call), Joined(call), Answering(call)}
  }

  predicate OnSomeThread(s: State, call: CallId) {
    exists t :: t in s.threads && Has(s, t, call)
  }

  ghost predicate Answered(s: State) {
    forall call :: call in s.runs ==> call in s.answered || OnSomeThread(s, call)
  }

  predicate NoPanic(steps: seq<Step>) {
    forall i :: 0 <= i < |steps| ==> !steps[i].Panic?
  }

  /** A thread keeps the job it has until it has answered it. */
  lemma HasUntilAnswered(s: State, step: Step, t: ThreadId, call: CallId)
    requires s.order.JoinThenFree? && s.nextThread !in s.threads
    requires Enabled(s, step) && !step.Panic? && t in s.threads && Has(s, t, call)
    ensures var n := Next(s, step); call in n.answered || OnSomeThread(n, call)
  {
    hide Position, SwapRemove;
    var n := Next(s, step);
    assert call in n.answered || Has(n, t, call);
  }

  lemma JoinsFirst(s: State)
    requires Invariant(s)
    ensures s.order.JoinThenFree? && s.nextThread !in s.threads
  {
    NewThreadIsUnknown(s);
  }

  lemma StepAnswers(s: State, step: Step)
    requires Invariant(s) && Enabled(s, step) && !step.Panic? && Answered(s)
    ensures Answered(Next(s, step))
  {
    hide Invariant;
    JoinsFirst(s);
    var n := Next(s, step);
    forall call | call in n.runs ensures call in n.answered || OnSomeThread(n, call) {
      if step.Receive? && call == s.threads[step.thread].channel.value {
        assert Has(n, step.thread, call);
      } else if call in s.answered {
        assert call in n.answered;
      } else {
        assert call in s.runs;
        var t :| t in s.threads && Has(s, t, call);
        HasUntilAnswered(s, step, t, call);
      }
    }
  }

  lemma {:induction false} RunAnswers(s: State, steps: seq<Step>)
    requires Invariant(s) && Answered(s) && Possible(s, steps) && NoPanic(steps)
    ensures Answered(After(s, steps))
    decreases steps
  {
    if steps != [] {
      hide Invariant, Answered;
      assert forall i :: 0 <= i < |steps[1..]| ==> steps[1..][i] == steps[i + 1];
      StepAnswers(s, steps[0]);
      StepKeepsInvariant(s, steps[0]);
      RunAnswers(Next(s, steps[0]), steps[1..]);
    }
  }

  /** As long as no script panics, every job that was started is answered or on a thread that will. */
  lemma EveryRunIsAnswered(s0: State, steps: seq<Step>, call: CallId)
    requires Reachable(s0, steps) && NoPanic(steps)
    ensures var s := After(s0, steps);
            call in s.runs ==>
              || call in s.answered
              || exists t :: t in s.threads && s.threads[t].phase in {Running(call), Joined(call), Answering(call)}
  {
    hide Invariant;
    InitialGood(s0);
    assert Answered(s0);
    RunAnswers(s0, steps);
    var s := After(s0, steps);
    if call in s.runs && call !in s.answered {
      var t :| t in s.threads && Has(s, t, call);
    }
  }

  // ------------------------------------------------------------------------- nothing strands

  /** What happens next to a job that a call holds a slot for, or that ran and is not answered. */
  predicate Underway(s: State, call: CallId) {
    && call in s.calls
    && match s.calls[call]
       case Dispatching | Spawning | Offering(_) => true
       case HandedTo(t) => t in s.threads && (s.threads[t].channel == Some(call) || Has(s, t, call))
       case _ => false
  }

  /** The step that the call or its thread takes next by itself. */
  function Onward(s: State, call: CallId): Step
    requires Underway(s, call)
  {
    match s.calls[call]
    case Dispatching => if s.idle == [] then SeeEmpty(call) else PopIdle(call)
    case Offering(_) => Send(call)
    case Spawning => Spawn(call)
    case HandedTo(t) =>
      if s.threads[t].channel == Some(call) then Toward(s, t)
      else match s.threads[t].phase
           case Running(_) => Join(t)
           case Joined(_) => Free(t)
           case _ => Reply(t)
  }

  /** How far the job is from its answer. */
  function Ahead(s: State, call: CallId): nat
    requires Underway(s, call)
  {
    match s.calls[call]
    case Dispatching => 10 + |s.idle|
    case Offering(_) => 8
    case Spawning => 8
    case HandedTo(t) =>
      if s.threads[t].channel == Some(call) then 4 + Distance(s.threads[t].phase)
      else match s.threads[t].phase
           case Running(_) => 3
           case Joined(_) => 2
           case _ => 1
  }

  lemma OnwardByCall(s: State, call: CallId)
    requires Invariant(s) && Underway(s, call) && !s.calls[call].HandedTo?
    ensures Enabled(s, Onward(s, call)) && !Onward(s, call).Panic?
    ensures var n := Next(s, Onward(s, call)); Underway(n, call) && Ahead(n, call) < Ahead(s, call)
  {
    hide SlotsGood, WaitersGood, ListGood, RunsGood, ThreadsGood;
    if s.calls[call].Offering? {
      SendNeverFails(s, call);
    }
  }

  lemma OnwardByChannel(s: State, call: CallId, t: ThreadId)
    requires s.order.JoinThenFree? && t in s.threads && ThreadGood(s, t) && Position(s.idle, t) < 0
    requires Underway(s, call) && s.calls[call] == HandedTo(t) && s.threads[t].channel == Some(call)
    ensures Enabled(s, Onward(s, call)) && !Onward(s, call).Panic?
    ensures var n := Next(s, Onward(s, call)); Underway(n, call) && Ahead(n, call) < Ahead(s, call)
  {
    hide OnList, OfferedTo, Position, SwapRemove;
  }

  lemma NotOnTheList(s: State, t: ThreadId)
    requires Invariant(s) && t in s.threads && s.threads[t].channel.Some?
    ensures s.order.JoinThenFree? && ThreadGood(s, t) && Position(s.idle, t) < 0
  {
    NotListed(s, t);
  }

  lemma OnwardByThread(s: State, call: CallId, t: ThreadId)
    requires Invariant(s) && Underway(s, call) && s.calls[call] == HandedTo(t) && s.threads[t].channel != Some(call)
    ensures Enabled(s, Onward(s, call)) && !Onward(s, call).Panic?
    ensures var n := Next(s, Onward(s, call));
            call in n.answered || (Underway(n, call) && Ahead(n, call) < Ahead(s, call))
  {
    hide SlotsGood, WaitersGood, OffersGood, RunsGood, ListGood, OnList, OfferedTo, Position, ThreadsGood;
  }

  /** The next step of the call or its thread can be taken, and brings the answer closer. */
  lemma OnwardIsCloser(s: State, call: CallId)
    requires Invariant(s) && Underway(s, call)
    ensures Enabled(s, Onward(s, call)) && !Onward(s, call).Panic?
    ensures var n := Next(s, Onward(s, call));
            call in n.answered || (Underway(n, call) && Ahead(n, call) < Ahead(s, call))
  {
    hide Invariant, Onward, Ahead, Enabled, Next;
    match s.calls[call]
    case HandedTo(t) =>
      if s.threads[t].channel == Some(call) {
        NotOnTheList(s, t);
        OnwardByChannel(s, call, t);
      } else {
        OnwardByThread(s, call, t);
      }
    case _ => OnwardByCall(s, call);
  }

  /** The run of those steps, until the call is answered. */
  lemma {:induction false} CanBeAnswered(s: State, call: CallId) returns (steps: seq<Step>)
    requires Invariant(s) && Underway(s, call)
    ensures Possible(s, steps) && call in After(s, steps).answered && NoPanic(steps)
    ensures |steps| <= Ahead(s, call)
    decreases Ahead(s, call)
  {
    hide Invariant, Onward, Ahead, Enabled, Next, Underway;
    var step := Onward(s, call);
    OnwardIsCloser(s, call);
    StepKeepsInvariant(s, step);
    var n := Next(s, step);
    var rest := [];
    if call in n.answered {
      assert Possible(n, []) && After(n, []) == n;
    } else {
      rest := CanBeAnswered(n, call);
    }
    steps := [step] + rest;
    assert steps[1..] == rest;
    AheadIsPositive(s, call);
  }

  lemma AheadIsPositive(s: State, call: CallId)
    requires Underway(s, call)
    ensures Ahead(s, call) > 0
  {
  }

  /**
   In every reachable state, a job that holds a slot or ran without an answer so far can be brought
   to its answer by steps of its own call and its own thread, with no script panicking.
   */
  lemma NoJobIsStranded(s0: State, before: seq<Step>, call: CallId) returns (steps: seq<Step>)
    requires Reachable(s0, before)
    requires var s := After(s0, before);
             || (call in s.slots && !At(s, call, Holding))
             || (exists t :: t in s.threads && s.threads[t].phase in {Running(call), Joined(call), Answering(call)})
    ensures Possible(After(s0, before), steps) && call in After(After(s0, before), steps).answered
  {
    ReachableGood(s0, before);
    var s := After(s0, before);
    UnderwayIs(s, call);
    steps := CanBeAnswered(s, call);
  }

  lemma UnderwayIs(s: State, call: CallId)
    requires Invariant(s)
    requires || (call in s.slots && !At(s, call, Holding))
             || (exists t :: t in s.threads && s.threads[t].phase in {Running(call), Joined(call), Answering(call)})
    ensures Underway(s, call)
  {
    hide WaitersGood, OffersGood, RunsGood, ListGood;
    if t :| t in s.threads && s.threads[t].phase in {Running(call), Joined(call), Answering(call)} {
      assert ThreadGood(s, t) && Has(s, t, call);
    } else {
      assert Owner(s, call);
      if s.calls[call].HandedTo? {
        var t := s.calls[call].thread;
        assert s.threads[t].channel == Some(call) || Has(s, t, call);
      }
    }
  }

  // ------------------------------------------------------------------------ what a slot is for

  /** Where a call of the kind may be. */
  predicate Fits(kind: Kind, where: Call) {
    match where
    case Acquiring(wanted) => wanted == kind
    case Left => true
    case Holding => kind == Conversation
    case _ => kind == Evaluation
  }

  lemma StepFits(s: State, step: Step, call: CallId, kind: Kind)
    requires Invariant(s) && Enabled(s, step) && call in s.calls && Fits(kind, s.calls[call])
    ensures call in Next(s, step).calls && Fits(kind, Next(s, step).calls[call])
  {
    hide Invariant;
  }

  lemma {:induction false} RunFits(s: State, steps: seq<Step>, call: CallId, kind: Kind)
    requires Invariant(s) && Possible(s, steps)
    requires call in s.calls && Fits(kind, s.calls[call])
    ensures call in After(s, steps).calls && Fits(kind, After(s, steps).calls[call])
    decreases steps
  {
    if steps != [] {
      hide Invariant, Fits, Next, Enabled;
      StepFits(s, steps[0], call, kind);
      StepKeepsInvariant(s, steps[0]);
      RunFits(Next(s, steps[0]), steps[1..], call, kind);
    }
  }

  /** A call that came to run a script never holds its slot as a conversation, nor the other way round. */
  lemma SlotsAreUsedAsWanted(s0: State, before: seq<Step>, call: CallId, kind: Kind, since: seq<Step>)
    requires Reachable(s0, before) && Enabled(After(s0, before), Arrive(call, kind))
    requires Possible(Next(After(s0, before), Arrive(call, kind)), since)
    ensures var s := After(Next(After(s0, before), Arrive(call, kind)), since);
            && call in s.calls
            && (kind == Evaluation ==> s.calls[call] != Holding)
            && (kind == Conversation ==> s.calls[call] in {Acquiring(Conversation), Holding, Left})
  {
    hide Invariant, Enabled, Possible, After;
    ReachableGood(s0, before);
    StepKeepsInvariant(After(s0, before), Arrive(call, kind));
    RunFits(Next(After(s0, before), Arrive(call, kind)), since, call, kind);
  }

  /** A call waits or gives up only with every slot alive, and can take one when one is not. */
  lemma GivesUpOnlyWhenFull(s0: State, steps: seq<Step>, call: CallId)
    requires Reachable(s0, steps) && Trying(After(s0, steps), call)
    ensures var s := After(s0, steps);
            && (Enabled(s, GiveUp(call)) <==> |s.slots| == s.limit)
            && (Enabled(s, Block(call)) <==> |s.slots| == s.limit)
            && (Enabled(s, Take(call)) <==> |s.slots| < s.limit)
  {
    ReachableGood(s0, steps);
  }

  lemma LeftStays(s: State, step: Step, call: CallId)
    requires Enabled(s, step) && At(s, call, Left)
    ensures At(Next(s, step), call, Left)
  {
    hide Position, SwapRemove;
  }

  lemma {:induction false} RunLeftStays(s: State, steps: seq<Step>, call: CallId)
    requires Possible(s, steps) && At(s, call, Left)
    ensures At(After(s, steps), call, Left)
    decreases steps
  {
    if steps != [] {
      hide At, Next, Enabled;
      LeftStays(s, steps[0], call);
      RunLeftStays(Next(s, steps[0]), steps[1..], call);
    }
  }

  lemma LeftHasNothing(s: State, call: CallId)
    requires Invariant(s) && At(s, call, Left)
    ensures call !in s.slots && call !in s.blocked && call !in s.woken && call !in s.runs && call !in s.answered
    ensures forall t :: t in s.threads ==> s.threads[t].channel != Some(call)
  {
    hide ListGood, OffersGood;
    assert !Owner(s, call);
    forall t | t in s.threads ensures s.threads[t].channel != Some(call) {
      assert ThreadGood(s, t);
    }
  }

  /**
   A call that gives up, ends its conversation or gets no thread is done: whatever happens later, it
   holds no slot, sleeps on nothing, and its job is in no channel and is never started.
   */
  lemma LeavingIsFinal(s0: State, before: seq<Step>, step: Step, call: CallId, since: seq<Step>)
    requires Reachable(s0, before) && Enabled(After(s0, before), step)
    requires step in {GiveUp(call), EndConversation(call), SpawnFails(call)}
    requires Possible(Next(After(s0, before), step), since)
    ensures var s := After(Next(After(s0, before), step), since);
            && call !in s.slots && call !in s.blocked && call !in s.woken
            && call !in s.runs && call !in s.answered
            && forall t :: t in s.threads ==> s.threads[t].channel != Some(call)
  {
    hide Invariant, Possible, After;
    ReachableGood(s0, before);
    StepKeepsInvariant(After(s0, before), step);
    RunKeepsInvariant(Next(After(s0, before), step), since);
    RunLeftStays(Next(After(s0, before), step), since, call);
    LeftHasNothing(After(Next(After(s0, before), step), since), call);
  }

  /** The thread a step is one of. */
  function ThreadOf(step: Step): Option<ThreadId> {
    match step
    case Receive(t) => Some(t)
    case Join(t) => Some(t)
    case Free(t) => Some(t)
    case Reply(t) => Some(t)
    case Panic(t) => Some(t)
    case LingerOut(t) => Some(t)
    case LeaveList(t) => Some(t)
    case Commit(t) => Some(t)
    case _ => None
  }

  predicate OnlyReceives(s: State, t: ThreadId) {
    t in s.threads && s.threads[t].phase.Committed?
  }

  lemma OnlyReceivesOn(s: State, step: Step, t: ThreadId)
    requires s.order.JoinThenFree? && s.nextThread !in s.threads
    requires Enabled(s, step) && OnlyReceives(s, t) && step != Receive(t)
    ensures OnlyReceives(Next(s, step), t)
  {
    hide Position, SwapRemove;
  }

  lemma {:induction false} RunOnlyReceives(s: State, steps: seq<Step>, t: ThreadId)
    requires Invariant(s) && Possible(s, steps) && OnlyReceives(s, t) && Receive(t) !in steps
    ensures OnlyReceives(After(s, steps), t)
    decreases steps
  {
    if steps != [] {
      hide Invariant, Next, Enabled, OnlyReceives;
      JoinsFirst(s);
      OnlyReceivesOn(s, steps[0], t);
      StepKeepsInvariant(s, steps[0]);
      RunOnlyReceives(Next(s, steps[0]), steps[1..], t);
    }
  }

  /**
   A thread that lingered out and was no longer listed does nothing but wait for the job on its way:
   until it has received it, it stays, it cannot linger out again, and its job is with it or coming.
   */
  lemma CommittedOnlyReceives(s0: State, before: seq<Step>, t: ThreadId, since: seq<Step>)
    requires Reachable(s0, before) && Enabled(After(s0, before), Commit(t))
    requires Possible(Next(After(s0, before), Commit(t)), since) && Receive(t) !in since
    ensures var s := After(Next(After(s0, before), Commit(t)), since);
            && t in s.threads && (s.threads[t].channel.Some? || exists call :: At(s, call, Offering(t)))
            && forall step :: Enabled(s, step) && ThreadOf(step) == Some(t) ==> step == Receive(t)
  {
    hide Invariant, Possible, After;
    ReachableGood(s0, before);
    StepKeepsInvariant(After(s0, before), Commit(t));
    RunKeepsInvariant(Next(After(s0, before), Commit(t)), since);
    RunOnlyReceives(Next(After(s0, before), Commit(t)), since, t);
    JobIsComing(After(Next(After(s0, before), Commit(t)), since), t);
  }

  lemma JobIsComing(s: State, t: ThreadId)
    requires Invariant(s) && OnlyReceives(s, t)
    ensures s.threads[t].channel.Some? || exists call :: At(s, call, Offering(t))
    ensures forall step :: Enabled(s, step) && ThreadOf(step) == Some(t) ==> step == Receive(t)
  {
    hide SlotsGood, WaitersGood, OffersGood, RunsGood;
    assert ThreadGood(s, t);
    if s.threads[t].channel.None? {
      assert !OnList(s, t);
      var call :| call in s.calls && s.calls[call] == Offering(t);
      assert At(s, call, Offering(t));
    }
  }

  // --------------------------------------------------------------------------------- balance

  predicate GivesBack(step: Step) {
    step.EndConversation? || step.SpawnFails? || step.Free? || step.Panic?
  }

  predicate Takes(step: Step) {
    step.Take?
  }

  predicate Notifies(step: Step) {
    step.NotifyOne? || step.NotifyNobody?
  }

  function Count(steps: seq<Step>, counted: Step -> bool): nat {
    if steps == [] then 0 else (if counted(steps[0]) then 1 else 0) + Count(steps[1..], counted)
  }

  lemma StepBalance(s: State, step: Step)
    requires Enabled(s, step)
    ensures var n := Next(s, step);
            && n.taken == s.taken + (if Takes(step) then 1 else 0) - (if GivesBack(step) then 1 else 0)
            && n.owed == s.owed + (if GivesBack(step) then 1 else 0) - (if Notifies(step) then 1 else 0)
  {
    hide Position, SwapRemove;
  }

  lemma {:induction false} Balance(s: State, steps: seq<Step>)
    requires Possible(s, steps)
    ensures After(s, steps).taken == s.taken + Count(steps, Takes) - Count(steps, GivesBack)
    ensures After(s, steps).owed == s.owed + Count(steps, GivesBack) - Count(steps, Notifies)
    decreases steps
  {
    if steps != [] {
      hide Next, Enabled, Takes, GivesBack, Notifies;
      StepBalance(s, steps[0]);
      Balance(Next(s, steps[0]), steps[1..]);
    }
  }

  /**
   The counter is what was taken less what was given back, and every slot given back is notified
   exactly once, or is still to be: no slot and no notification is lost or made twice.
   */
  lemma EverySlotIsNotifiedOnce(s0: State, steps: seq<Step>)
    requires Reachable(s0, steps)
    ensures var s := After(s0, steps);
            && |s.slots| + Count(steps, GivesBack) == Count(steps, Takes)
            && Count(steps, Notifies) + s.owed == Count(steps, GivesBack)
  {
    ReachableGood(s0, steps);
    Balance(s0, steps);
  }
}
