/** The invariant of the pool over the steps that hand a job to a thread and that a thread takes. */
module PoolThreads {
  import opened Options
  import opened PoolProtocol
  import opened PoolInvariant

  /** A thread none of whose surroundings changed. */
  lemma ThreadTransfer(s: State, n: State, t: ThreadId)
    requires t in s.threads && t in n.threads && s.threads[t] == n.threads[t]
    requires ThreadGood(s, t) && n.nextThread >= s.nextThread
    requires OnList(s, t) ==> OnList(n, t)
    requires OfferedTo(s, t) ==> OfferedTo(n, t)
    requires forall call :: At(s, call, HandedTo(t)) ==> At(n, call, HandedTo(t))
    requires forall call :: call in s.runs ==> call in n.runs
    requires s.threads[t].channel.Some? ==> s.threads[t].channel.value !in n.runs
    ensures ThreadGood(n, t)
  {
  }

  // ------------------------------------------------------------------------------- PopIdle

  /** Popping takes a live thread off the list only when it is the one popped. */
  lemma PopList(s: State, call: CallId)
    requires Enabled(s, PopIdle(call)) && ListGood(s)
    ensures var n := Next(s, PopIdle(call));
            var last := s.idle[|s.idle| - 1];
            && (last.process == s.process ==> last.id in s.threads && !OnList(n, last.id))
            && forall t :: t in s.threads && OnList(s, t) && !(last.process == s.process && t == last.id) ==>
                 OnList(n, t)
    ensures var n := Next(s, PopIdle(call)); forall t :: OnList(n, t) ==> OnList(s, t)
  {
    var n := Next(s, PopIdle(call));
    forall t | t in s.threads && OnList(s, t)
               && !(s.idle[|s.idle| - 1].process == s.process && t == s.idle[|s.idle| - 1].id)
      ensures OnList(n, t)
    {
      var i :| 0 <= i < |s.idle| && s.idle[i].id == t;
      assert i < |s.idle| - 1 ==> n.idle[i].id == t;
    }
    forall t | OnList(n, t) ensures OnList(s, t) {
      var i :| 0 <= i < |n.idle| && n.idle[i].id == t;
      assert s.idle[i].id == t;
    }
  }

  lemma PopSlots(s: State, call: CallId)
    requires Enabled(s, PopIdle(call)) && SlotsGood(s)
    ensures SlotsGood(Next(s, PopIdle(call)))
  {
    var n := Next(s, PopIdle(call));
    forall c ensures Owner(s, c) <==> Owner(n, c) {
      if c != call { OwnerFrame(s, n, c); }
    }
  }

  lemma PopThreads(s: State, call: CallId)
    requires Enabled(s, PopIdle(call)) && ListGood(s) && ThreadsGood(s) && OffersGood(s)
    ensures ThreadsGood(Next(s, PopIdle(call)))
  {
    var n := Next(s, PopIdle(call));
    var last := s.idle[|s.idle| - 1];
    PopList(s, call);
    forall t | t in n.threads ensures ThreadGood(n, t) {
      assert ThreadGood(s, t);
      assert forall c :: At(s, c, HandedTo(t)) ==> At(n, c, HandedTo(t));
      if OfferedTo(s, t) { OffersTransfer(s, n, t); }
      if last.process == s.process && t == last.id {
        assert n.calls[call] == Offering(t);
      } else {
        ThreadTransfer(s, n, t);
      }
    }
  }

  lemma PopOffers(s: State, call: CallId)
    requires Enabled(s, PopIdle(call)) && ListGood(s) && OffersGood(s)
    ensures OffersGood(Next(s, PopIdle(call)))
  {
    var last := s.idle[|s.idle| - 1];
    PopList(s, call);
    if last.process == s.process {
      assert OnList(s, last.id);
    }
  }

  lemma PopRest(s: State, call: CallId)
    requires Enabled(s, PopIdle(call)) && ListGood(s) && RunsGood(s) && WaitersGood(s)
    ensures var n := Next(s, PopIdle(call)); ListGood(n) && RunsGood(n) && WaitersGood(n) && Spawners(n) == Spawners(s)
  {
  }

  lemma PopIdleKeeps(s: State, call: CallId)
    requires Invariant(s) && Enabled(s, PopIdle(call))
    ensures Invariant(Next(s, PopIdle(call)))
  {
    hide SlotsGood, WaitersGood, ListGood, ThreadsGood, OffersGood, RunsGood, Spawners;
    PopSlots(s, call);
    PopThreads(s, call);
    PopOffers(s, call);
    PopRest(s, call);
  }

  // ---------------------------------------------------------------------------------- Send

  lemma SendSlots(s: State, call: CallId)
    requires Enabled(s, Send(call)) && SlotsGood(s)
    ensures SlotsGood(Next(s, Send(call)))
  {
    var n := Next(s, Send(call));
    var t := s.calls[call].thread;
    forall c ensures Owner(s, c) <==> Owner(n, c) {
    }
  }

  lemma SendThreads(s: State, call: CallId)
    requires Enabled(s, Send(call)) && ThreadsGood(s) && OffersGood(s) && RunsGood(s)
    ensures ThreadsGood(Next(s, Send(call)))
  {
    var n := Next(s, Send(call));
    var target := s.calls[call].thread;
    forall t | t in n.threads ensures ThreadGood(n, t) {
      assert ThreadGood(s, t);
      assert OnList(s, t) <==> OnList(n, t);
      assert forall c :: At(s, c, HandedTo(t)) ==> At(n, c, HandedTo(t));
      if t != target {
        if OfferedTo(s, t) { OffersTransfer(s, n, t); }
        ThreadTransfer(s, n, t);
      }
    }
  }

  lemma SendRest(s: State, call: CallId)
    requires Enabled(s, Send(call)) && OffersGood(s) && ListGood(s) && RunsGood(s) && WaitersGood(s)
    ensures var n := Next(s, Send(call));
            OffersGood(n) && ListGood(n) && RunsGood(n) && WaitersGood(n)
            && Spawners(n) == Spawners(s) && n.threads.Keys == s.threads.Keys
  {
    hide OfferedTo, Owner;
    var n := Next(s, Send(call));
    var target := s.calls[call].thread;
    SameWaiters(s, n);
    assert forall i :: 0 <= i < |s.idle| ==> s.idle[i].id != target;
    assert forall t :: OnList(s, t) <==> OnList(n, t);
  }

  lemma SendKeeps(s: State, call: CallId)
    requires Invariant(s) && Enabled(s, Send(call))
    ensures Invariant(Next(s, Send(call)))
  {
    hide SlotsGood, WaitersGood, ListGood, ThreadsGood, OffersGood, RunsGood, Spawners;
    SendSlots(s, call);
    SendThreads(s, call);
    SendRest(s, call);
    SameKeys(s.threads, Next(s, Send(call)).threads);
  }

  lemma SameKeys(a: map<ThreadId, Thread>, b: map<ThreadId, Thread>)
    requires a.Keys == b.Keys
    ensures |a| == |b|
  {
    assert |a| == |a.Keys| && |b| == |b.Keys|;
  }

  // --------------------------------------------------------------------------------- Spawn

  lemma NewThreadIsUnknown(s: State)
    requires ListGood(s) && ThreadsGood(s) && OffersGood(s)
    ensures s.nextThread !in s.threads && !OnList(s, s.nextThread) && !OfferedTo(s, s.nextThread)
  {
    assert forall t :: t in s.threads ==> ThreadGood(s, t) && t < s.nextThread;
  }

  lemma SpawnSlots(s: State, call: CallId)
    requires Enabled(s, Spawn(call)) && SlotsGood(s) && s.nextThread !in s.threads
    ensures SlotsGood(Next(s, Spawn(call)))
  {
    var n := Next(s, Spawn(call));
    forall c ensures Owner(s, c) <==> Owner(n, c) {
    }
  }

  lemma SpawnThreads(s: State, call: CallId)
    requires Enabled(s, Spawn(call)) && ThreadsGood(s) && RunsGood(s) && s.nextThread !in s.threads
    ensures ThreadsGood(Next(s, Spawn(call)))
  {
    var n := Next(s, Spawn(call));
    forall t | t in n.threads ensures ThreadGood(n, t) {
      if t != s.nextThread {
        assert ThreadGood(s, t);
        assert OnList(s, t) <==> OnList(n, t);
        if OfferedTo(s, t) { OffersTransfer(s, n, t); }
        assert forall c :: At(s, c, HandedTo(t)) ==> At(n, c, HandedTo(t));
        ThreadTransfer(s, n, t);
      }
    }
  }

  lemma SpawnOffers(s: State, call: CallId)
    requires Enabled(s, Spawn(call)) && OffersGood(s) && ListGood(s) && s.nextThread !in s.threads
    ensures OffersGood(Next(s, Spawn(call))) && ListGood(Next(s, Spawn(call)))
  {
    var n := Next(s, Spawn(call));
    assert n.idle == s.idle && forall t :: t in s.threads ==> t in n.threads && n.threads[t] == s.threads[t];
    assert forall t :: OnList(s, t) <==> OnList(n, t);
  }

  lemma SpawnRest(s: State, call: CallId)
    requires Enabled(s, Spawn(call)) && RunsGood(s) && WaitersGood(s)
    ensures var n := Next(s, Spawn(call));
            RunsGood(n) && WaitersGood(n) && Spawners(n) == Spawners(s) - {call}
  {
    hide OnList, OfferedTo;
    SameWaiters(s, Next(s, Spawn(call)));
  }

  lemma SpawnKeeps(s: State, call: CallId)
    requires Invariant(s) && Enabled(s, Spawn(call))
    ensures Invariant(Next(s, Spawn(call)))
  {
    hide SlotsGood, WaitersGood, ListGood, ThreadsGood, OffersGood, RunsGood;
    NewThreadIsUnknown(s);
    SpawnSlots(s, call);
    SpawnThreads(s, call);
    SpawnOffers(s, call);
    SpawnRest(s, call);
    assert call in Spawners(s);
    OneMore(s.threads, s.nextThread, Thread(Fresh, Some(call)));
  }

  lemma OneMore(threads: map<ThreadId, Thread>, t: ThreadId, thread: Thread)
    requires t !in threads
    ensures |threads[t := thread]| == |threads| + 1
  {
    assert threads[t := thread].Keys == threads.Keys + {t};
    assert |threads[t := thread]| == |threads[t := thread].Keys|;
  }

  lemma OneLess(threads: map<ThreadId, Thread>, t: ThreadId)
    requires t in threads
    ensures |threads - {t}| == |threads| - 1
  {
    assert (threads - {t}).Keys == threads.Keys - {t};
    assert |threads - {t}| == |(threads - {t}).Keys|;
  }

  /** A failed send, its receiver gone, never happens: the thread offered a job is live. */
  lemma SendNeverFails(s: State, call: CallId)
    requires OffersGood(s) && call in s.calls && s.calls[call].Offering?
    ensures Enabled(s, Send(call)) && !Enabled(s, SendFails(call))
  {
  }

  // ------------------------------------------------- a thread moves; calls and list unchanged

  lemma ReceiveKeeps(s: State, t: ThreadId)
    requires Invariant(s) && Enabled(s, Receive(t))
    ensures Invariant(Next(s, Receive(t)))
  {
    hide SlotsGood, WaitersGood, ListGood, OffersGood, RunsGood;
    assert ThreadGood(s, t);
    ReceiveSlots(s, t);
    ReceiveThreads(s, t);
    ReceiveRest(s, t);
    SameKeys(s.threads, Next(s, Receive(t)).threads);
  }

  lemma ReceiveSlots(s: State, t: ThreadId)
    requires Enabled(s, Receive(t)) && SlotsGood(s)
    ensures SlotsGood(Next(s, Receive(t)))
  {
    var n := Next(s, Receive(t));
    forall c ensures Owner(s, c) <==> Owner(n, c) {
    }
  }

  lemma ReceiveThreads(s: State, t: ThreadId)
    requires Enabled(s, Receive(t)) && ThreadsGood(s)
    ensures ThreadsGood(Next(s, Receive(t)))
  {
    var n := Next(s, Receive(t));
    assert ThreadGood(s, t);
    forall u | u in n.threads ensures ThreadGood(n, u) {
      assert ThreadGood(s, u);
      assert OnList(s, u) <==> OnList(n, u);
      if OfferedTo(s, u) { OffersTransfer(s, n, u); }
      if u != t { ThreadTransfer(s, n, u); }
    }
  }

  lemma ReceiveRest(s: State, t: ThreadId)
    requires Enabled(s, Receive(t)) && ThreadGood(s, t)
    requires OffersGood(s) && ListGood(s) && RunsGood(s) && WaitersGood(s)
    ensures var n := Next(s, Receive(t));
            OffersGood(n) && ListGood(n) && RunsGood(n) && WaitersGood(n) && Spawners(n) == Spawners(s)
  {
    var n := Next(s, Receive(t));
    assert forall u :: OnList(s, u) <==> OnList(n, u);
  }

  /** Phases that differ only in how far a thread between two jobs has got. */
  predicate PhaseStep(step: Step) {
    step.Reply? || step.LingerOut? || step.Commit?
  }

  lemma PhaseSlots(s: State, step: Step)
    requires Enabled(s, step) && PhaseStep(step) && SlotsGood(s)
    ensures SlotsGood(Next(s, step))
  {
    var n := Next(s, step);
    forall c ensures Owner(s, c) <==> Owner(n, c) {
    }
  }

  lemma PhaseThreads(s: State, step: Step)
    requires Enabled(s, step) && PhaseStep(step) && ThreadsGood(s)
    ensures ThreadsGood(Next(s, step))
  {
    var n := Next(s, step);
    forall u | u in n.threads ensures ThreadGood(n, u) {
      assert ThreadGood(s, u);
      assert OnList(s, u) <==> OnList(n, u);
      if OfferedTo(s, u) { OffersTransfer(s, n, u); }
    }
  }

  lemma PhaseList(s: State, step: Step)
    requires Enabled(s, step) && PhaseStep(step) && ListGood(s)
    ensures ListGood(Next(s, step))
  {
    var n := Next(s, step);
    if step.Commit? {
      assert forall i :: 0 <= i < |s.idle| ==> s.idle[i].id != step.thread;
    }
  }

  lemma PhaseOffers(s: State, step: Step)
    requires Enabled(s, step) && PhaseStep(step) && OffersGood(s)
    ensures OffersGood(Next(s, step))
  {
    var n := Next(s, step);
    assert n.calls == s.calls && n.idle == s.idle;
    assert forall u :: OnList(s, u) <==> OnList(n, u);
    assert forall u :: u in s.threads && s.threads[u].channel.None? && Between(s.threads[u].phase) ==>
             u in n.threads && n.threads[u].channel.None? && Between(n.threads[u].phase);
  }

  lemma PhaseRest(s: State, step: Step)
    requires Enabled(s, step) && PhaseStep(step) && ThreadGood(s, step.thread)
    requires RunsGood(s) && WaitersGood(s)
    ensures var n := Next(s, step);
            RunsGood(n) && WaitersGood(n) && Spawners(n) == Spawners(s)
  {
    hide OnList, OfferedTo;
    SameWaiters(s, Next(s, step));
  }

  lemma PhaseKeeps(s: State, step: Step)
    requires Invariant(s) && Enabled(s, step) && PhaseStep(step)
    ensures Invariant(Next(s, step))
  {
    hide SlotsGood, WaitersGood, ListGood, OffersGood, RunsGood;
    assert ThreadGood(s, step.thread);
    PhaseSlots(s, step);
    PhaseThreads(s, step);
    PhaseList(s, step);
    PhaseOffers(s, step);
    PhaseRest(s, step);
    SameKeys(s.threads, Next(s, step).threads);
  }

  // ------------------------------------------------------------------ joining and freeing

  lemma JoinSlots(s: State, t: ThreadId)
    requires Enabled(s, Join(t)) && s.order.JoinThenFree? && SlotsGood(s)
    ensures SlotsGood(Next(s, Join(t)))
  {
    var n := Next(s, Join(t));
    forall c ensures Owner(s, c) <==> Owner(n, c) {
    }
  }

  lemma JoinList(s: State, t: ThreadId)
    requires Enabled(s, Join(t)) && s.order.JoinThenFree?
    ensures var n := Next(s, Join(t)); forall u :: OnList(n, u) <==> OnList(s, u) || u == t
  {
    var n := Next(s, Join(t));
    forall u ensures OnList(n, u) <==> OnList(s, u) || u == t {
      assert n.idle[|s.idle|].id == t;
      if OnList(s, u) {
        var i :| 0 <= i < |s.idle| && s.idle[i].id == u;
        assert n.idle[i].id == u;
      }
    }
  }

  lemma JoinThreads(s: State, t: ThreadId)
    requires Enabled(s, Join(t)) && s.order.JoinThenFree? && ThreadsGood(s)
    ensures ThreadsGood(Next(s, Join(t)))
  {
    var n := Next(s, Join(t));
    JoinList(s, t);
    forall u | u in n.threads ensures ThreadGood(n, u) {
      assert ThreadGood(s, u);
      if OfferedTo(s, u) { OffersTransfer(s, n, u); }
      if u != t { ThreadTransfer(s, n, u); }
    }
  }

  lemma JoinRest(s: State, t: ThreadId)
    requires Enabled(s, Join(t)) && s.order.JoinThenFree? && ThreadGood(s, t)
    requires OffersGood(s) && ListGood(s) && RunsGood(s) && WaitersGood(s)
    ensures var n := Next(s, Join(t));
            OffersGood(n) && ListGood(n) && RunsGood(n) && WaitersGood(n) && Spawners(n) == Spawners(s)
  {
    JoinList(s, t);
  }

  lemma JoinKeeps(s: State, t: ThreadId)
    requires Invariant(s) && Enabled(s, Join(t))
    ensures Invariant(Next(s, Join(t)))
  {
    hide SlotsGood, WaitersGood, ListGood, OffersGood, RunsGood;
    assert ThreadGood(s, t);
    JoinSlots(s, t);
    JoinThreads(s, t);
    JoinRest(s, t);
    SameKeys(s.threads, Next(s, Join(t)).threads);
  }

  lemma FreeSlots(s: State, t: ThreadId)
    requires Enabled(s, Free(t)) && s.order.JoinThenFree? && SlotsGood(s) && WaitersGood(s)
    requires ThreadGood(s, t)
    ensures SlotsGood(Next(s, Free(t))) && WaitersGood(Next(s, Free(t)))
  {
    var n := Next(s, Free(t));
    var call := s.threads[t].phase.call;
    forall c ensures Owner(n, c) <==> Owner(s, c) && c != call {
    }
    DroppedOwner(s, n, call);
    DropKeepsWaiters(s, n);
  }

  lemma FreeThreads(s: State, t: ThreadId)
    requires Enabled(s, Free(t)) && s.order.JoinThenFree? && ThreadsGood(s)
    ensures ThreadsGood(Next(s, Free(t)))
  {
    var n := Next(s, Free(t));
    forall u | u in n.threads ensures ThreadGood(n, u) {
      assert ThreadGood(s, u);
      assert OnList(s, u) <==> OnList(n, u);
      if OfferedTo(s, u) { OffersTransfer(s, n, u); }
    }
  }

  lemma FreeRest(s: State, t: ThreadId)
    requires Enabled(s, Free(t)) && s.order.JoinThenFree?
    requires OffersGood(s) && ListGood(s) && RunsGood(s)
    ensures var n := Next(s, Free(t));
            OffersGood(n) && ListGood(n) && RunsGood(n) && Spawners(n) == Spawners(s)
  {
    var n := Next(s, Free(t));
    assert forall u :: OnList(s, u) <==> OnList(n, u);
  }

  lemma FreeKeeps(s: State, t: ThreadId)
    requires Invariant(s) && Enabled(s, Free(t))
    ensures Invariant(Next(s, Free(t)))
  {
    hide SlotsGood, WaitersGood, ListGood, OffersGood, RunsGood;
    assert ThreadGood(s, t);
    FreeSlots(s, t);
    FreeThreads(s, t);
    FreeRest(s, t);
    SameKeys(s.threads, Next(s, Free(t)).threads);
  }

  // -------------------------------------------------------------------------- threads that end

  lemma PanicSlots(s: State, t: ThreadId)
    requires Enabled(s, Panic(t)) && SlotsGood(s) && WaitersGood(s) && ThreadGood(s, t)
    ensures SlotsGood(Next(s, Panic(t))) && WaitersGood(Next(s, Panic(t)))
  {
    var n := Next(s, Panic(t));
    var call := s.threads[t].phase.call;
    forall c ensures Owner(n, c) <==> Owner(s, c) && c != call {
    }
    DroppedOwner(s, n, call);
    DropKeepsWaiters(s, n);
  }

  lemma PanicThreads(s: State, t: ThreadId)
    requires Enabled(s, Panic(t)) && ThreadsGood(s)
    ensures ThreadsGood(Next(s, Panic(t)))
  {
    var n := Next(s, Panic(t));
    forall u | u in n.threads ensures ThreadGood(n, u) {
      assert ThreadGood(s, u);
      assert OnList(s, u) <==> OnList(n, u);
      if OfferedTo(s, u) { OffersTransfer(s, n, u); }
      ThreadTransfer(s, n, u);
    }
  }

  lemma PanicRest(s: State, t: ThreadId)
    requires Enabled(s, Panic(t)) && OffersGood(s) && ListGood(s) && RunsGood(s)
    ensures var n := Next(s, Panic(t));
            OffersGood(n) && ListGood(n) && RunsGood(n) && Spawners(n) == Spawners(s)
  {
    var n := Next(s, Panic(t));
    assert forall u :: OnList(s, u) <==> OnList(n, u);
  }

  lemma PanicKeeps(s: State, t: ThreadId)
    requires Invariant(s) && Enabled(s, Panic(t))
    ensures Invariant(Next(s, Panic(t)))
  {
    hide SlotsGood, WaitersGood, ListGood, OffersGood, RunsGood;
    assert ThreadGood(s, t);
    PanicSlots(s, t);
    PanicThreads(s, t);
    PanicRest(s, t);
    OneLess(s.threads, t);
  }

  /** The entry taken off is the thread's own and its only one; every other entry stays. */
  lemma SwapRemoved(idle: seq<Idle>, at: nat)
    requires at < |idle|
    ensures var rest := SwapRemove(idle, at);
            && |rest| == |idle| - 1
            && (forall i :: 0 <= i < |rest| ==> rest[i] == if i == at then idle[|idle| - 1] else idle[i])
  {
  }

  lemma LeavingKeepsList(s: State, t: ThreadId)
    requires Enabled(s, LeaveList(t)) && ListGood(s)
    ensures ListGood(Next(s, LeaveList(t)))
  {
    hide SwapRemove, Position;
    SwapRemoved(s.idle, Position(s.idle, t));
  }

  lemma LeavingKeepsOthers(s: State, t: ThreadId)
    requires Enabled(s, LeaveList(t))
    ensures var n := Next(s, LeaveList(t));
            && (forall u :: OnList(n, u) ==> OnList(s, u))
            && (forall u :: u in n.threads && OnList(s, u) ==> OnList(n, u))
  {
    hide SwapRemove, Position;
    var n := Next(s, LeaveList(t));
    var at := Position(s.idle, t);
    SwapRemoved(s.idle, at);
    forall u | OnList(n, u) ensures OnList(s, u) {
      var i :| 0 <= i < |n.idle| && n.idle[i].id == u;
      assert s.idle[if i == at then |s.idle| - 1 else i].id == u;
    }
    forall u | u in n.threads && OnList(s, u) ensures OnList(n, u) {
      var i :| 0 <= i < |s.idle| && s.idle[i].id == u;
      assert n.idle[if i == |s.idle| - 1 then at else i].id == u;
    }
  }

  lemma LeaveSlots(s: State, t: ThreadId)
    requires Enabled(s, LeaveList(t)) && ListGood(s) && SlotsGood(s)
    ensures SlotsGood(Next(s, LeaveList(t)))
  {
    var n := Next(s, LeaveList(t));
    assert s.idle[Position(s.idle, t)].id == t;
    forall c ensures Owner(s, c) <==> Owner(n, c) {
    }
  }

  lemma LeaveThreads(s: State, t: ThreadId)
    requires Enabled(s, LeaveList(t)) && ListGood(s) && ThreadsGood(s)
    ensures ThreadsGood(Next(s, LeaveList(t)))
  {
    var n := Next(s, LeaveList(t));
    LeavingKeepsOthers(s, t);
    forall u | u in n.threads ensures ThreadGood(n, u) {
      assert ThreadGood(s, u);
      if OfferedTo(s, u) { OffersTransfer(s, n, u); }
      ThreadTransfer(s, n, u);
    }
  }

  lemma LeaveRest(s: State, t: ThreadId)
    requires Enabled(s, LeaveList(t)) && ListGood(s) && OffersGood(s) && RunsGood(s) && WaitersGood(s)
    ensures var n := Next(s, LeaveList(t));
            OffersGood(n) && RunsGood(n) && WaitersGood(n) && Spawners(n) == Spawners(s)
  {
    LeavingKeepsOthers(s, t);
    assert OnList(s, t) by { assert s.idle[Position(s.idle, t)].id == t; }
  }

  lemma LeaveListKeeps(s: State, t: ThreadId)
    requires Invariant(s) && Enabled(s, LeaveList(t))
    ensures Invariant(Next(s, LeaveList(t)))
  {
    hide SlotsGood, WaitersGood, ListGood, ThreadsGood, OffersGood, RunsGood;
    LeavingKeepsList(s, t);
    LeaveSlots(s, t);
    LeaveThreads(s, t);
    LeaveRest(s, t);
    OneLess(s.threads, t);
  }

  // --------------------------------------------------------------------------------- all steps

  lemma StepKeepsInvariant(s: State, step: Step)
    requires Invariant(s) && Enabled(s, step)
    ensures Invariant(Next(s, step))
  {
    match step
    case EndConversation(call) => EndConversationKeeps(s, call);
    case PopIdle(call) => PopIdleKeeps(s, call);
    case SeeEmpty(call) => SeeEmptyKeeps(s, call);
    case Send(call) => SendKeeps(s, call);
    case SendFails(call) => SendNeverFails(s, call);
    case Spawn(call) => SpawnKeeps(s, call);
    case SpawnFails(call) => SpawnFailsKeeps(s, call);
    case Receive(t) => ReceiveKeeps(s, t);
    case Join(t) => JoinKeeps(s, t);
    case Free(t) => FreeKeeps(s, t);
    case Panic(t) => PanicKeeps(s, t);
    case LeaveList(t) => LeaveListKeeps(s, t);
    case Reply(t) => PhaseKeeps(s, step);
    case LingerOut(t) => PhaseKeeps(s, step);
    case Commit(t) => PhaseKeeps(s, step);
    case _ => AcquireKeeps(s, step);
  }

  lemma {:induction false} RunKeepsInvariant(s: State, steps: seq<Step>)
    requires Invariant(s) && Possible(s, steps)
    ensures Invariant(After(s, steps))
    decreases steps
  {
    if steps != [] {
      StepKeepsInvariant(s, steps[0]);
      RunKeepsInvariant(Next(s, steps[0]), steps[1..]);
    }
  }
}
