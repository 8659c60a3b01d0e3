/**
 What every step of the pool keeps: who owns each slot, which threads may be on the idle list,
 where each job is, and that no notification and no thread is unaccounted for.
 */
module PoolInvariant {
  import opened Options
  import opened PoolProtocol

  /** The call still has the slot it took, judged by where its job is. */
  predicate Owner(s: State, call: CallId) {
    call in s.calls &&
    match s.calls[call]
    case Dispatching | Spawning | Holding | Offering(_) => true
    case HandedTo(t) =>
      && t in s.threads
      && (s.threads[t].channel == Some(call) || s.threads[t].phase in {Running(call), Joined(call)})
    case Acquiring(_) | Left => false
  }

  predicate OnList(s: State, t: ThreadId) {
    exists i :: 0 <= i < |s.idle| && s.idle[i].id == t
  }

  predicate OfferedTo(s: State, t: ThreadId) {
    exists call :: call in s.calls && s.calls[call] == Offering(t)
  }

  /** A phase of a thread that is between two jobs. */
  predicate Between(phase: Phase) {
    phase.Joined? || phase.Answering? || phase.Waiting? || phase.TimedOut? || phase.Committed?
  }

  ghost predicate SlotsGood(s: State) {
    && s.taken == |s.slots| && s.taken <= s.limit
    && forall call :: call in s.slots <==> Owner(s, call)
  }

  ghost predicate WaitersGood(s: State) {
    && (forall call :: call in s.blocked ==> call in s.calls && s.calls[call].Acquiring? && call !in s.woken)
    && (forall call :: call in s.woken ==> call in s.calls && s.calls[call].Acquiring?)
    && (s.blocked != {} ==> s.limit - s.taken <= s.owed + |s.woken|)
  }

  /** Own entries name live, empty-handed threads, each once; other entries name no thread. */
  ghost predicate ListGood(s: State) {
    && (forall i :: 0 <= i < |s.idle| ==>
          if s.idle[i].process == s.process
          then s.idle[i].id in s.threads && s.threads[s.idle[i].id].channel.None?
               && Between(s.threads[s.idle[i].id].phase) && !s.threads[s.idle[i].id].phase.Committed?
          else s.idle[i].id !in s.threads && s.idle[i].id < s.nextThread)
    && (forall i, j :: 0 <= i < j < |s.idle| && s.idle[i].process == s.process ==> s.idle[i].id != s.idle[j].id)
  }

  ghost predicate ThreadGood(s: State, t: ThreadId)
    requires t in s.threads
  {
    var thread := s.threads[t];
    && t < s.nextThread
    && !thread.phase.Freed?
    && (thread.phase.Fresh? ==> thread.channel.Some?)
    && (thread.phase.Running? ==> thread.channel.None?)
    && (thread.channel.Some? ==> At(s, thread.channel.value, HandedTo(t)) && thread.channel.value !in s.runs)
    && (thread.phase.Running? || thread.phase.Joined? || thread.phase.Answering? ==>
          At(s, thread.phase.call, HandedTo(t)) && thread.phase.call in s.runs)
    && (OnList(s, t) || thread.phase.Running? || thread.channel.Some? || OfferedTo(s, t))
  }

  ghost predicate ThreadsGood(s: State) {
    forall t :: t in s.threads ==> ThreadGood(s, t)
  }

  /** A thread a job is offered to is live, listed no more, empty-handed, and offered one job. */
  ghost predicate OffersGood(s: State) {
    && (forall call :: call in s.calls && s.calls[call].Offering? ==>
          var t := s.calls[call].thread;
          t in s.threads && s.threads[t].channel.None? && Between(s.threads[t].phase) && !OnList(s, t))
    && (forall c, d :: c in s.calls && d in s.calls && c != d && s.calls[c].Offering? && s.calls[d].Offering? ==>
          s.calls[c].thread != s.calls[d].thread)
  }

  /** A job that has been started was handed over, and was started once. */
  ghost predicate RunsGood(s: State) {
    && (forall call :: call in s.runs ==> s.runs[call] == 1 && call in s.calls && s.calls[call].HandedTo?)
    && (forall call :: call in s.answered ==> call in s.runs)
  }

  ghost function Spawners(s: State): set<CallId> {
    set call | call in s.calls && s.calls[call].Spawning?
  }

  ghost predicate ThreadsBounded(s: State) {
    |s.threads| + |Spawners(s)| <= s.limit
  }

  ghost predicate Invariant(s: State) {
    && s.order.JoinThenFree?
    && SlotsGood(s) && WaitersGood(s) && ListGood(s) && ThreadsGood(s) && OffersGood(s) && RunsGood(s)
    && ThreadsBounded(s)
  }

  lemma InitialGood(s: State)
    requires Initial(s) && s.order.JoinThenFree?
    ensures Invariant(s)
  {
    assert Spawners(s) == {};
    assert forall call :: !Owner(s, call);
  }

  // ------------------------------------------------- steps that leave every job where it is

  /** Nothing that concerns a job handed over or offered, a thread or the idle list has changed. */
  ghost predicate SameJobs(s: State, n: State) {
    && n.threads == s.threads && n.idle == s.idle && n.process == s.process
    && n.runs == s.runs && n.answered == s.answered && n.nextThread >= s.nextThread
    && (forall call, t :: At(s, call, Offering(t)) <==> At(n, call, Offering(t)))
    && (forall call, t :: At(s, call, HandedTo(t)) <==> At(n, call, HandedTo(t)))
  }

  lemma OffersTransfer(s: State, n: State, t: ThreadId)
    requires OfferedTo(s, t)
    requires forall call :: At(s, call, Offering(t)) ==> At(n, call, Offering(t))
    ensures OfferedTo(n, t)
  {
    var call :| call in s.calls && s.calls[call] == Offering(t);
    assert At(s, call, Offering(t));
  }

  lemma SameJobsThreads(s: State, n: State)
    requires SameJobs(s, n) && ThreadsGood(s)
    ensures ThreadsGood(n)
  {
    forall t | t in n.threads ensures ThreadGood(n, t) {
      assert ThreadGood(s, t);
      assert OnList(s, t) <==> OnList(n, t);
      if OfferedTo(s, t) { OffersTransfer(s, n, t); }
    }
  }

  lemma SameJobsKeep(s: State, n: State)
    requires SameJobs(s, n) && ListGood(s) && ThreadsGood(s) && OffersGood(s) && RunsGood(s)
    ensures ListGood(n) && ThreadsGood(n) && OffersGood(n) && RunsGood(n)
  {
    SameJobsThreads(s, n);
    SameJobsOffers(s, n);
    SameJobsRuns(s, n);
  }

  lemma SameJobsOffers(s: State, n: State)
    requires SameJobs(s, n) && OffersGood(s)
    ensures OffersGood(n)
  {
    forall call | call in n.calls && n.calls[call].Offering?
      ensures At(s, call, Offering(n.calls[call].thread))
    {
      assert At(n, call, Offering(n.calls[call].thread));
    }
    assert forall t :: OnList(s, t) <==> OnList(n, t);
  }

  lemma SameJobsRuns(s: State, n: State)
    requires SameJobs(s, n) && RunsGood(s)
    ensures RunsGood(n)
  {
    forall call | call in n.runs ensures call in n.calls && n.calls[call].HandedTo? {
      assert At(s, call, HandedTo(s.calls[call].thread));
    }
  }

  // ----------------------------------------------------------------- slots and the counter

  lemma DroppedOwner(s: State, n: State, dropped: CallId)
    requires SlotsGood(s) && Owner(s, dropped)
    requires n.slots == s.slots - {dropped} && n.taken == s.taken - 1 && n.limit == s.limit
    requires forall call :: Owner(n, call) <==> Owner(s, call) && call != dropped
    ensures SlotsGood(n)
  {
  }

  /** A slot given back leaves a notification owed for it. */
  lemma DropKeepsWaiters(s: State, n: State)
    requires WaitersGood(s)
    requires n.limit == s.limit && n.taken == s.taken - 1 && n.owed == s.owed + 1
    requires n.blocked == s.blocked && n.woken == s.woken
    requires forall call :: call in s.calls && s.calls[call].Acquiring? ==> call in n.calls && n.calls[call].Acquiring?
    ensures WaitersGood(n)
  {
  }

  lemma SameWaiters(s: State, n: State)
    requires WaitersGood(s)
    requires n.limit == s.limit && n.taken == s.taken && n.owed == s.owed
    requires n.blocked == s.blocked && n.woken == s.woken
    requires forall call :: call in s.calls && s.calls[call].Acquiring? ==> call in n.calls && n.calls[call].Acquiring?
    ensures WaitersGood(n)
  {
  }

  // ------------------------------------------------------------------------- acquiring steps

  predicate IsAcquire(step: Step) {
    step.Arrive? || step.Take? || step.Block? || step.GiveUp? || step.Rouse? || step.NotifyOne? || step.NotifyNobody?
  }

  lemma AcquireSameJobs(s: State, step: Step)
    requires Enabled(s, step) && IsAcquire(step)
    ensures SameJobs(s, Next(s, step)) && Spawners(Next(s, step)) == Spawners(s)
  {
  }

  /** Ownership of a call depends on its own phase and on the threads. */
  lemma OwnerFrame(s: State, n: State, call: CallId)
    requires n.threads == s.threads
    requires call in s.calls <==> call in n.calls
    requires call in s.calls ==> s.calls[call] == n.calls[call]
    ensures Owner(s, call) <==> Owner(n, call)
  {
  }

  lemma TakeSlots(s: State, call: CallId)
    requires Enabled(s, Take(call)) && SlotsGood(s)
    ensures SlotsGood(Next(s, Take(call)))
  {
    var n := Next(s, Take(call));
    assert !Owner(s, call) && Owner(n, call);
    forall c ensures c in n.slots <==> Owner(n, c) {
      if c != call { OwnerFrame(s, n, c); }
    }
  }

  lemma AcquireSlots(s: State, step: Step)
    requires Enabled(s, step) && IsAcquire(step) && SlotsGood(s)
    ensures SlotsGood(Next(s, step))
  {
    if step.Take? {
      TakeSlots(s, step.call);
    } else {
      var n := Next(s, step);
      forall c ensures Owner(s, c) <==> Owner(n, c) {
        if !((step.Arrive? || step.GiveUp?) && c == step.call) { OwnerFrame(s, n, c); }
      }
    }
  }

  lemma AcquireWaiters(s: State, step: Step)
    requires Enabled(s, step) && IsAcquire(step) && WaitersGood(s)
    ensures WaitersGood(Next(s, step))
  {
  }

  lemma AcquireKeeps(s: State, step: Step)
    requires Invariant(s) && Enabled(s, step) && IsAcquire(step)
    ensures Invariant(Next(s, step))
  {
    hide SameJobs, SlotsGood, WaitersGood, ListGood, ThreadsGood, OffersGood, RunsGood, Spawners;
    AcquireSameJobs(s, step);
    SameJobsKeep(s, Next(s, step));
    AcquireSlots(s, step);
    AcquireWaiters(s, step);
  }

  // ------------------------------------------------- calls that give up a slot or look for a thread

  lemma EndConversationKeeps(s: State, call: CallId)
    requires Invariant(s) && Enabled(s, EndConversation(call))
    ensures Invariant(Next(s, EndConversation(call)))
  {
    hide ListGood, ThreadsGood, OffersGood, RunsGood;
    var n := Next(s, EndConversation(call));
    assert SameJobs(s, n) && Spawners(n) == Spawners(s);
    SameJobsKeep(s, n);
    DropByCall(s, n, call);
  }

  /** A call that leaves, its slot dropped, while every thread stays as it was. */
  lemma DropByCall(s: State, n: State, call: CallId)
    requires SlotsGood(s) && WaitersGood(s) && Owner(s, call) && !s.calls[call].HandedTo?
    requires n == DropSlot(Move(s, call, Left), call).(nextThread := n.nextThread)
    ensures SlotsGood(n) && WaitersGood(n)
  {
    forall c ensures Owner(n, c) <==> Owner(s, c) && c != call {
      if c != call { OwnerFrame(s, n, c); }
    }
    DroppedOwner(s, n, call);
    DropKeepsWaiters(s, n);
  }

  lemma SpawnFailsKeeps(s: State, call: CallId)
    requires Invariant(s) && Enabled(s, SpawnFails(call))
    ensures Invariant(Next(s, SpawnFails(call)))
  {
    hide ListGood, ThreadsGood, OffersGood, RunsGood;
    var n := Next(s, SpawnFails(call));
    assert SameJobs(s, n) && Spawners(n) == Spawners(s) - {call};
    SameJobsKeep(s, n);
    DropByCall(s, n, call);
  }

  /** The thread a call's job was handed or is offered to. */
  function Target(call: Call): Option<ThreadId> {
    match call
    case Offering(t) => Some(t)
    case HandedTo(t) => Some(t)
    case _ => None
  }

  /** Threads that each have a job of their own are no more than the calls with jobs out. */
  lemma {:induction false} NoMoreThreadsThanJobs(threads: set<ThreadId>, jobs: set<CallId>, calls: map<CallId, Call>)
    requires forall t :: t in threads ==> exists call :: call in jobs && call in calls && Target(calls[call]) == Some(t)
    ensures |threads| <= |jobs|
  {
    if threads != {} {
      var t :| t in threads;
      var call :| call in jobs && call in calls && Target(calls[call]) == Some(t);
      forall u | u in threads - {t}
        ensures exists c :: c in jobs - {call} && c in calls && Target(calls[c]) == Some(u)
      {
        var c :| c in jobs && c in calls && Target(calls[c]) == Some(u);
        assert c in jobs - {call};
      }
      NoMoreThreadsThanJobs(threads - {t}, jobs - {call}, calls);
    }
  }

  /** A live thread off the idle list has a job, and the job has its slot. */
  lemma OffListHasAJob(s: State, t: ThreadId)
    requires ThreadsGood(s) && t in s.threads && !OnList(s, t)
    ensures exists call :: Owner(s, call) && call in s.calls && Target(s.calls[call]) == Some(t)
  {
    assert ThreadGood(s, t);
    var thread := s.threads[t];
    if thread.phase.Running? {
      assert Owner(s, thread.phase.call);
    } else if thread.channel.Some? {
      assert Owner(s, thread.channel.value);
    } else {
      var call :| call in s.calls && s.calls[call] == Offering(t);
      assert Owner(s, call);
    }
  }

  /** The calls that hold a slot and have no thread. */
  ghost function Threadless(s: State): set<CallId> {
    set call | call in s.slots && call in s.calls && Target(s.calls[call]).None?
  }

  /** With nobody idle, every thread is paid for by a slot, and so is every call without one. */
  lemma EmptyListIsPaidFor(s: State)
    requires SlotsGood(s) && ThreadsGood(s) && s.idle == []
    ensures |s.threads| + |Threadless(s)| <= s.limit
  {
    var out := s.slots - Threadless(s);
    forall t | t in s.threads.Keys
      ensures exists call :: call in out && call in s.calls && Target(s.calls[call]) == Some(t)
    {
      OffListHasAJob(s, t);
      var call :| Owner(s, call) && call in s.calls && Target(s.calls[call]) == Some(t);
      assert call in out;
    }
    NoMoreThreadsThanJobs(s.threads.Keys, out, s.calls);
    assert s.slots == out + Threadless(s);
    assert |s.threads.Keys| == |s.threads|;
  }

  lemma SubsetSize<T>(a: set<T>, b: set<T>)
    requires a <= b
    ensures |a| <= |b|
  {
    assert b == a + (b - a);
  }

  lemma SeeEmptyKeeps(s: State, call: CallId)
    requires Invariant(s) && Enabled(s, SeeEmpty(call))
    ensures Invariant(Next(s, SeeEmpty(call)))
  {
    hide ListGood, ThreadsGood, OffersGood, RunsGood, SlotsGood, Spawners;
    var n := Next(s, SeeEmpty(call));
    assert SameJobs(s, n);
    SameJobsKeep(s, n);
    SeeEmptySlots(s, call);
    SameWaiters(s, n);
    SeeEmptyThreads(s, call);
  }

  lemma SeeEmptySlots(s: State, call: CallId)
    requires SlotsGood(s) && Enabled(s, SeeEmpty(call))
    ensures SlotsGood(Next(s, SeeEmpty(call)))
  {
    var n := Next(s, SeeEmpty(call));
    forall c ensures Owner(s, c) <==> Owner(n, c) {
      if c != call { OwnerFrame(s, n, c); }
    }
  }

  /** The bound at the only step that can raise the count: threads and spawners together. */
  lemma SeeEmptyThreads(s: State, call: CallId)
    requires SlotsGood(s) && ThreadsGood(s) && Enabled(s, SeeEmpty(call))
    ensures ThreadsBounded(Next(s, SeeEmpty(call)))
  {
    var n := Next(s, SeeEmpty(call));
    EmptyListIsPaidFor(s);
    forall c | c in Spawners(n) ensures c in Threadless(s) {
      assert Owner(s, c);
    }
    SubsetSize(Spawners(n), Threadless(s));
  }

  /** A thread with a job in its channel, running one, or committed to one is not on the list. */
  lemma NotListed(s: State, t: ThreadId)
    requires ListGood(s) && t in s.threads
    requires s.threads[t].channel.Some? || s.threads[t].phase.Committed? || s.threads[t].phase.Running?
    ensures !OnList(s, t) && Position(s.idle, t) < 0
  {
    assert forall i :: 0 <= i < |s.idle| ==> s.idle[i].id != t;
  }
}
