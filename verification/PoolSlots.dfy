/**
 The shared object itself: the counter and the idle list, changed in place. Each critical
 section is one step of the protocol, so every promise about runs of steps is one about this
 object; a method made of several sections is the run in which nobody comes between them.
 */
module PoolSlots {
  import opened Options
  import opened PoolProtocol
  import opened PoolInvariant
  import opened PoolThreads

  /** A step in which a Slot is dropped. */
  predicate Drops(step: Step) {
    step.EndConversation? || step.SpawnFails? || step.Free? || step.Panic?
  }

  /** What a drop does to the counter, which was not at zero, and to the list. */
  lemma DropCounts(s: State, step: Step)
    requires Invariant(s) && Enabled(s, step) && Drops(step)
    ensures s.taken > 0 && Next(s, step).taken == s.taken - 1
    ensures Next(s, step).idle == s.idle && Next(s, step).limit == s.limit
  {
    hide WaitersGood, ListGood, OffersGood, RunsGood, OnList, OfferedTo;
    var call := if step.EndConversation? || step.SpawnFails? then step.call else s.threads[step.thread].phase.call;
    if step.Free? || step.Panic? { assert ThreadGood(s, step.thread); }
    assert Owner(s, call) && call in s.slots;
  }

  /** One state leads to the next by the step. */
  ghost predicate Stepped(s: State, step: Step, n: State) {
    Enabled(s, step) && n == Next(s, step)
  }

  /** How a call's turn at the counter ends. */
  datatype Looked = Took | Expired | Slept

  function LookStep(looked: Looked, call: CallId): Step {
    match looked
    case Took => Take(call)
    case Expired => GiveUp(call)
    case Slept => Block(call)
  }

  class Slots {
    const limit: nat
    const process: ProcessId
    var taken: nat
    var idle: seq<Idle>

    // The whole pool, of which the fields are what is shared.
    ghost var pool: State

    ghost predicate Valid()
      reads this
    {
      Invariant(pool) && pool.limit == limit && pool.process == process && pool.taken == taken && pool.idle == idle
    }

    constructor (limit: nat, process: ProcessId)
      ensures Valid() && this.limit == limit && Initial(pool)
    {
      this.limit, this.process := limit, process;
      taken, idle := 0, [];
      pool := State(limit, process, JoinThenFree, 0, {}, 0, {}, {}, map[], [], map[], 0, multiset{}, {});
      new;
      InitialGood(pool);
    }

    /**
     One turn of a call that wants a slot, from taking the lock to leaving or to waiting: it takes
     a free slot, gives up once its deadline has passed, or goes to sleep. A deadline of none
     never passes. What wakes it, and what others do meanwhile, are steps of theirs.
     */
    method Look(ghost call: CallId, deadlinePassed: bool) returns (looked: Looked)
      requires Valid() && Trying(pool, call)
      modifies this
      ensures looked == if old(taken) < limit then Took else if deadlinePassed then Expired else Slept
      ensures Valid() && Stepped(old(pool), LookStep(looked, call), pool)
    {
      hide Invariant;
      looked := if taken < limit then Took else if deadlinePassed then Expired else Slept;
      StepKeepsInvariant(pool, LookStep(looked, call));
      pool := Next(pool, LookStep(looked, call));
      if looked.Took? {
        taken := taken + 1;
      }
    }

    method Drop(ghost step: Step)
      requires Valid() && Drops(step) && Enabled(pool, step)
      modifies this
      ensures Valid() && Stepped(old(pool), step, pool)
    {
      hide Invariant, Next;
      StepKeepsInvariant(pool, step);
      DropCounts(pool, step);
      DropStays(pool, step);
      taken := taken - 1;
      pool := Next(pool, step);
    }

    method JoinIdle(thread: ThreadId)
      requires Valid() && Enabled(pool, Join(thread))
      modifies this
      ensures Valid() && Stepped(old(pool), Join(thread), pool)
    {
      hide Invariant;
      StepKeepsInvariant(pool, Join(thread));
      idle := idle + [Idle(thread, process)];
      pool := Next(pool, Join(thread));
    }

    /** The newest entry off the list, whosever it is, or the sight that there is none. */
    method PopLast(ghost call: CallId) returns (popped: Option<Idle>)
      requires Valid() && At(pool, call, Dispatching)
      modifies this
      ensures popped == if old(idle) == [] then None else Some(old(idle)[|old(idle)| - 1])
      ensures Valid() && Stepped(old(pool), if popped.Some? then PopIdle(call) else SeeEmpty(call), pool)
      ensures idle == if popped.Some? then old(idle)[..|old(idle)| - 1] else []
      ensures taken == old(taken)
    {
      hide Invariant;
      StepKeepsInvariant(pool, if idle != [] then PopIdle(call) else SeeEmpty(call));
      pool := Next(pool, if idle != [] then PopIdle(call) else SeeEmpty(call));
      if idle == [] {
        return None;
      }
      popped := Some(idle[|idle| - 1]);
      idle := idle[..|idle| - 1];
    }

    /**
     Hand a job to the newest idle thread of this process, dropping the entries of another
     one on the way, or to a new thread when none is left.
     */
    method Dispatch(ghost call: CallId) returns (thread: Option<ThreadId>)
      requires Valid() && At(pool, call, Dispatching)
      modifies this
      ensures Valid() && taken == old(taken) && OnlyMoves(old(pool).calls, pool.calls, call)
      ensures idle <= old(idle) && AllForeign(old(idle), |idle| + 1, process)
      ensures thread.Some? ==>
                && |idle| < |old(idle)| && old(idle)[|idle|] == Idle(thread.value, process)
                && thread.value in old(pool).threads && At(pool, call, HandedTo(thread.value))
      ensures thread.None? ==>
                && idle == [] && AllForeign(old(idle), 0, process)
                && old(pool).nextThread !in old(pool).threads && At(pool, call, HandedTo(old(pool).nextThread))
    {
      hide Invariant, Next, AllForeign, OnlyMoves;
      AllForeignBelow(idle, process);
      while true
        invariant Valid() && taken == old(taken) && pool == old(pool).(idle := idle)
        invariant idle <= old(idle) && AllForeign(old(idle), |idle|, process)
        decreases |idle|
      {
        PoppedIdle(pool, call);
        var popped := PopLast(call);
        if popped.None? {
          break;
        }
        OneMoreForeign(old(idle), |idle|, process);
        if popped.value.process == process {
          OfferIsTaken(pool, call, popped.value.id);
          MovesTwice(old(pool).calls, pool.calls, Next(pool, Send(call)).calls, call);
          pool := Next(pool, Send(call));
          return Some(popped.value.id);
        }
      }
      SpawnedThread(pool, call);
      MovesTwice(old(pool).calls, pool.calls, Next(pool, Spawn(call)).calls, call);
      AllForeignLater(old(idle), 0, process);
      pool := Next(pool, Spawn(call));
      thread := None;
    }

    /** A thread that lingered out takes itself off, or learns that a call already has. */
    method LeaveIdle(thread: ThreadId) returns (left: bool)
      requires Valid() && thread in pool.threads && pool.threads[thread].phase.TimedOut?
      modifies this
      ensures Valid() && Stepped(old(pool), if left then LeaveList(thread) else Commit(thread), pool)
      ensures left <==> exists i :: 0 <= i < |old(idle)| && old(idle)[i].id == thread
    {
      hide Invariant;
      StepKeepsInvariant(pool, if Position(idle, thread) >= 0 then LeaveList(thread) else Commit(thread));
      var at := 0;
      while at < |idle| && idle[at].id != thread
        invariant at <= |idle|
        invariant forall i :: 0 <= i < at ==> idle[i].id != thread
      {
        at := at + 1;
      }
      left := at < |idle|;
      pool := Next(pool, if left then LeaveList(thread) else Commit(thread));
      if left {
        idle := idle[at := idle[|idle| - 1]];
        idle := idle[..|idle| - 1];
      }
    }
  }

  lemma DropStays(s: State, step: Step)
    requires Enabled(s, step) && Drops(step)
    ensures Next(s, step).process == s.process
  {
  }

  /** Nothing changes for the calls but where the one is. */
  predicate OnlyMoves(before: map<CallId, Call>, after: map<CallId, Call>, call: CallId) {
    forall c :: c != call && c in before ==> c in after && after[c] == before[c]
  }

  lemma MovesTwice(before: map<CallId, Call>, between: map<CallId, Call>, after: map<CallId, Call>, call: CallId)
    requires OnlyMoves(before, between, call) && OnlyMoves(between, after, call)
    ensures OnlyMoves(before, after, call)
  {
  }

  /** From `from` on, the entries are of another process. */
  predicate AllForeign(idle: seq<Idle>, from: nat, process: ProcessId) {
    forall i :: from <= i < |idle| ==> idle[i].process != process
  }

  lemma AllForeignBelow(idle: seq<Idle>, process: ProcessId)
    ensures AllForeign(idle, |idle|, process)
  {
  }

  lemma OneMoreForeign(idle: seq<Idle>, at: nat, process: ProcessId)
    requires at < |idle|
    ensures AllForeign(idle, at + 1, process) && idle[at].process != process ==> AllForeign(idle, at, process)
  {
  }

  lemma AllForeignLater(idle: seq<Idle>, from: nat, process: ProcessId)
    ensures AllForeign(idle, from, process) ==> AllForeign(idle, from + 1, process)
  {
  }

  /** What popping does to the pool: an own entry is offered the job, another's is only gone. */
  lemma PoppedIdle(s: State, call: CallId)
    requires Invariant(s) && At(s, call, Dispatching)
    ensures s.idle != [] ==>
              var n, last := Next(s, PopIdle(call)), s.idle[|s.idle| - 1];
              if last.process == s.process
              then n == s.(idle := s.idle[..|s.idle| - 1], calls := s.calls[call := Offering(last.id)])
                   && OnlyMoves(s.calls, n.calls, call) && At(n, call, Offering(last.id)) && last.id in s.threads
              else n == s.(idle := s.idle[..|s.idle| - 1])
    ensures s.idle == [] ==>
              && Next(s, SeeEmpty(call)) == s.(calls := s.calls[call := Spawning])
              && OnlyMoves(s.calls, Next(s, SeeEmpty(call)).calls, call) && s.nextThread !in s.threads
  {
    hide SlotsGood, WaitersGood, RunsGood, ThreadGood;
    NewThreadIsUnknown(s);
  }

  /** An offered job can be sent, to a thread that was there. */
  lemma OfferIsTaken(s: State, call: CallId, thread: ThreadId)
    requires Invariant(s) && At(s, call, Offering(thread))
    ensures Enabled(s, Send(call))
    ensures var n := Next(s, Send(call));
            && Invariant(n) && At(n, call, HandedTo(thread)) && OnlyMoves(s.calls, n.calls, call)
            && n.idle == s.idle && n.taken == s.taken && n.limit == s.limit && n.process == s.process
  {
    hide Invariant;
    assert OffersGood(s) by { InvariantOffers(s); }
    SendNeverFails(s, call);
    StepKeepsInvariant(s, Send(call));
  }

  lemma InvariantOffers(s: State)
    requires Invariant(s)
    ensures OffersGood(s)
  {
  }

  lemma SpawnedThread(s: State, call: CallId)
    requires Invariant(s) && At(s, call, Spawning)
    ensures var n := Next(s, Spawn(call));
            && Invariant(n) && At(n, call, HandedTo(s.nextThread)) && OnlyMoves(s.calls, n.calls, call)
            && n.idle == s.idle && n.taken == s.taken && n.limit == s.limit && n.process == s.process
  {
    hide Invariant;
    StepKeepsInvariant(s, Spawn(call));
  }
}
