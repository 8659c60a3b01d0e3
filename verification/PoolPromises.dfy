/**
 What the pool promises over every interleaving of calls, evaluation threads and lingering: the
 bound on threads, the hand-off that cannot fail, and the notification that is not lost.
 */
module PoolPromises {
  import opened Options
  import opened PoolProtocol
  import opened PoolInvariant
  import opened PoolThreads

  ghost predicate Reachable(s0: State, steps: seq<Step>) {
    Initial(s0) && s0.order.JoinThenFree? && Possible(s0, steps)
  }

  lemma ReachableGood(s0: State, steps: seq<Step>)
    requires Reachable(s0, steps)
    ensures Invariant(After(s0, steps))
  {
    InitialGood(s0);
    RunKeepsInvariant(s0, steps);
  }

  ghost function Conversations(s: State): set<CallId> {
    set call | call in s.calls && s.calls[call].Holding?
  }

  lemma ConversationsHoldSlots(s: State)
    requires SlotsGood(s)
    ensures Conversations(s) <= s.slots && |Conversations(s)| <= s.limit
  {
    forall call | call in Conversations(s) ensures call in s.slots {
      assert Owner(s, call);
    }
    SubsetSize(Conversations(s), s.slots);
  }

  /**
   The threads that have not ended, idle or not, and the calls about to make one stay within
   the limit; with the conversations beside them, within twice the limit.
   */
  lemma ThreadsStayWithinLimit(s0: State, steps: seq<Step>)
    requires Reachable(s0, steps)
    ensures var s := After(s0, steps);
            && |s.threads| + |Spawners(s)| <= s.limit
            && |s.threads| + |Spawners(s)| + |Conversations(s)| <= 2 * s.limit
            && s.taken == |s.slots| && 0 <= s.taken <= s.limit
  {
    ReachableGood(s0, steps);
    ConversationsHoldSlots(After(s0, steps));
  }

  /** At the moment a call decides to make a thread, the conversations fit in the same limit. */
  lemma ConversationsCountWhenSpawning(s0: State, steps: seq<Step>, call: CallId)
    requires Reachable(s0, steps) && Enabled(After(s0, steps), SeeEmpty(call))
    ensures var n := Next(After(s0, steps), SeeEmpty(call));
            |n.threads| + |Spawners(n)| + |Conversations(n)| <= n.limit
  {
    hide Invariant, After, Next, SlotsGood;
    ReachableGood(s0, steps);
    SpawningCounts(After(s0, steps), call);
  }

  lemma SpawningCounts(s: State, call: CallId)
    requires Invariant(s) && Enabled(s, SeeEmpty(call))
    ensures var n := Next(s, SeeEmpty(call)); |n.threads| + |Spawners(n)| + |Conversations(n)| <= n.limit
  {
    hide WaitersGood, ListGood, ThreadsGood, OffersGood, RunsGood;
    var n := Next(s, SeeEmpty(call));
    EmptyListIsPaidFor(s);
    forall c | c in Spawners(n) + Conversations(n) ensures c in Threadless(s) {
      assert Owner(s, c);
    }
    SubsetSize(Spawners(n) + Conversations(n), Threadless(s));
    assert Spawners(n) * Conversations(n) == {};
  }

  /** The thread popped for a job is live with room in its channel: the send neither fails nor blocks. */
  lemma HandOffSucceeds(s0: State, steps: seq<Step>, call: CallId)
    requires Reachable(s0, steps)
    requires call in After(s0, steps).calls && After(s0, steps).calls[call].Offering?
    ensures Enabled(After(s0, steps), Send(call)) && !Enabled(After(s0, steps), SendFails(call))
    ensures !OnList(After(s0, steps), After(s0, steps).calls[call].thread)
  {
    ReachableGood(s0, steps);
    SendNeverFails(After(s0, steps), call);
  }

  /** An idle entry of this process is listed once and names a live thread with an empty channel. */
  lemma IdleEntriesAreLive(s0: State, steps: seq<Step>, i: nat)
    requires Reachable(s0, steps) && i < |After(s0, steps).idle|
    requires After(s0, steps).idle[i].process == After(s0, steps).process
    ensures var s := After(s0, steps);
            && s.idle[i].id in s.threads && s.threads[s.idle[i].id].channel.None?
            && !OfferedTo(s, s.idle[i].id)
            && (forall j :: 0 <= j < |s.idle| && s.idle[j].id == s.idle[i].id ==> j == i)
  {
    ReachableGood(s0, steps);
    var s := After(s0, steps);
    assert OnList(s, s.idle[i].id);
  }

  /** Where a job is while its slot is held. */
  datatype Place = WithCall | InChannel(thread: ThreadId) | OnThread(thread: ThreadId)

  predicate JobAt(s: State, call: CallId, place: Place) {
    match place
    case WithCall =>
      call in s.calls && (s.calls[call].Dispatching? || s.calls[call].Offering? || s.calls[call].Spawning?)
    case InChannel(t) => t in s.threads && s.threads[t].channel == Some(call)
    case OnThread(t) => t in s.threads && s.threads[t].phase in {Running(call), Joined(call)}
  }

  /** A job holding a slot is in exactly one place, and has been started only if a thread has it. */
  lemma JobIsInOnePlace(s0: State, steps: seq<Step>, call: CallId)
    requires Reachable(s0, steps)
    requires call in After(s0, steps).slots && !At(After(s0, steps), call, Holding)
    ensures var s := After(s0, steps);
            exists place :: JobAt(s, call, place)
              && (forall other :: JobAt(s, call, other) ==> other == place)
              && (call in s.runs <==> place.OnThread?)
  {
    ReachableGood(s0, steps);
    var s := After(s0, steps);
    assert Owner(s, call);
    assert forall t :: t in s.threads ==> ThreadGood(s, t);
    var place := match s.calls[call]
      case HandedTo(t) => if s.threads[t].channel == Some(call) then InChannel(t) else OnThread(t)
      case _ => WithCall;
    assert JobAt(s, call, place);
  }

  /** No job is started twice, and only a job that was started is answered. */
  lemma JobRunsAtMostOnce(s0: State, steps: seq<Step>, call: CallId)
    requires Reachable(s0, steps)
    ensures After(s0, steps).runs[call] <= 1
    ensures call in After(s0, steps).answered ==> After(s0, steps).runs[call] == 1
  {
    ReachableGood(s0, steps);
    var s := After(s0, steps);
    assert s.runs[call] > 0 ==> call in s.runs;
  }

  /** A thread ends with nothing in its channel, listed or offered to it. */
  lemma NoJobLeftBehind(s0: State, steps: seq<Step>, last: Step)
    requires Reachable(s0, steps) && Enabled(After(s0, steps), last)
    requires last.Panic? || last.LeaveList?
    ensures var s := After(s0, steps);
            && s.threads[last.thread].channel.None?
            && !OfferedTo(s, last.thread)
            && !OnList(Next(s, last), last.thread)
  {
    hide Invariant, After, Next, Enabled, OnList, OfferedTo;
    ReachableGood(s0, steps);
    EndsEmptyHanded(After(s0, steps), last);
  }

  lemma EndsEmptyHanded(s: State, last: Step)
    requires Invariant(s) && Enabled(s, last) && (last.Panic? || last.LeaveList?)
    ensures s.threads[last.thread].channel.None? && !OfferedTo(s, last.thread) && !OnList(Next(s, last), last.thread)
  {
    hide SlotsGood, WaitersGood, RunsGood, Position;
    assert ThreadGood(s, last.thread);
    if last.LeaveList? {
      var at := Position(s.idle, last.thread);
      assert s.idle[at].id == last.thread;
      assert OnList(s, last.thread);
      SwapRemoved(s.idle, at);
    }
  }

  /** What the thread itself does next, once a job is in its channel. */
  function Toward(s: State, t: ThreadId): Step
    requires t in s.threads
  {
    match s.threads[t].phase
    case Joined(_) => Free(t)
    case Answering(_) => Reply(t)
    case TimedOut => Commit(t)
    case _ => Receive(t)
  }

  function Distance(phase: Phase): nat {
    match phase
    case Joined(_) => 3
    case Answering(_) => 2
    case Waiting => 1
    case TimedOut => 2
    case _ => 1
  }

  /** A job in a channel is taken: the thread's own next step is possible and leads to it. */
  lemma JobInChannelIsTaken(s0: State, steps: seq<Step>, t: ThreadId)
    requires Reachable(s0, steps)
    requires t in After(s0, steps).threads && After(s0, steps).threads[t].channel.Some?
    ensures var s := After(s0, steps);
            var job := s.threads[t].channel.value;
            && Enabled(s, Toward(s, t))
            && (if Toward(s, t).Receive? then job in Next(s, Toward(s, t)).runs && job !in s.runs
                else
                  && Next(s, Toward(s, t)).threads[t].channel == Some(job)
                  && Distance(Next(s, Toward(s, t)).threads[t].phase) < Distance(s.threads[t].phase))
  {
    hide Invariant, After, Next, Enabled, Toward, Distance;
    ReachableGood(s0, steps);
    ChannelIsTaken(After(s0, steps), t);
  }

  lemma ChannelIsTaken(s: State, t: ThreadId)
    requires Invariant(s) && t in s.threads && s.threads[t].channel.Some?
    ensures var job := s.threads[t].channel.value;
            && Enabled(s, Toward(s, t))
            && (if Toward(s, t).Receive? then job in Next(s, Toward(s, t)).runs && job !in s.runs
                else
                  && Next(s, Toward(s, t)).threads[t].channel == Some(job)
                  && Distance(Next(s, Toward(s, t)).threads[t].phase) < Distance(s.threads[t].phase))
  {
    hide SlotsGood, WaitersGood, OffersGood, RunsGood, ListGood, OnList, OfferedTo, Position;
    assert ThreadGood(s, t);
    NotListed(s, t);
  }

  /** A thread that lingered out and was taken off the list has its job, or is about to be sent it. */
  lemma CommittedThreadHasAJob(s0: State, steps: seq<Step>, t: ThreadId)
    requires Reachable(s0, steps)
    requires t in After(s0, steps).threads && After(s0, steps).threads[t].phase.Committed?
    ensures var s := After(s0, steps);
            s.threads[t].channel.Some? != (exists call :: At(s, call, Offering(t)) && Enabled(s, Send(call)))
  {
    ReachableGood(s0, steps);
    var s := After(s0, steps);
    assert ThreadGood(s, t);
    NotListed(s, t);
    if OfferedTo(s, t) {
      var call :| call in s.calls && s.calls[call] == Offering(t);
      assert At(s, call, Offering(t)) && Enabled(s, Send(call));
    }
  }

  /**
   While a call sleeps, every free slot is matched by a notification still to be sent or by a
   call that is up and has yet to look. So with neither, no slot is free.
   */
  lemma NoNotificationIsLost(s0: State, steps: seq<Step>)
    requires Reachable(s0, steps)
    ensures var s := After(s0, steps);
            s.blocked != {} ==>
              && s.limit - |s.slots| <= s.owed + |s.woken|
              && (s.owed == 0 && s.woken == {} ==> |s.slots| == s.limit)
  {
    ReachableGood(s0, steps);
  }

  // -------------------------------------------------------------------- the other order

  lemma {:induction false} RunConcat(s: State, a: seq<Step>, b: seq<Step>)
    requires Possible(s, a) && Possible(After(s, a), b)
    ensures Possible(s, a + b) && After(s, a + b) == After(After(s, a), b)
    decreases a
  {
    if a == [] {
      assert a + b == b;
    } else {
      assert (a + b)[1..] == a[1..] + b;
      RunConcat(Next(s, a[0]), a[1..], b);
    }
  }

  lemma OneStep(s: State, step: Step)
    requires Enabled(s, step)
    ensures Possible(s, [step]) && After(s, [step]) == Next(s, step)
  {
    assert [step][1..] == [];
  }

  lemma ThenStep(s: State, steps: seq<Step>, step: Step)
    requires Possible(s, steps) && Enabled(After(s, steps), step)
    ensures Possible(s, steps + [step]) && After(s, steps + [step]) == Next(After(s, steps), step)
  {
    OneStep(After(s, steps), step);
    RunConcat(s, steps, [step]);
  }

  /** A call that finds nobody idle, makes a thread and has its job started on it. */
  function OneEvaluation(call: CallId): seq<Step> {
    [Arrive(call, Evaluation)] + [Take(call)] + [SeeEmpty(call)] + [Spawn(call)]
  }

  lemma EvaluationSpawns(s: State, call: CallId)
    requires call !in s.calls && call !in s.blocked && s.taken < s.limit && s.idle == []
    ensures Possible(s, OneEvaluation(call))
    ensures var n := After(s, OneEvaluation(call));
            && n.threads == s.threads[s.nextThread := Thread(Fresh, Some(call))]
            && n.nextThread == s.nextThread + 1
            && n.taken == s.taken + 1 && n.limit == s.limit && n.order == s.order
            && n.idle == [] && n.blocked == s.blocked && n.calls.Keys == s.calls.Keys + {call}
  {
    hide Possible, After;
    OneStep(s, Arrive(call, Evaluation));
    ThenStep(s, [Arrive(call, Evaluation)], Take(call));
    ThenStep(s, [Arrive(call, Evaluation)] + [Take(call)], SeeEmpty(call));
    ThenStep(s, [Arrive(call, Evaluation)] + [Take(call)] + [SeeEmpty(call)], Spawn(call));
  }

  /** Two evaluations, the second arriving once the first has freed its slot and joined nothing. */
  function FreeFirstRun(): seq<Step> {
    OneEvaluation(0) + [Receive(0)] + [Free(0)] + OneEvaluation(1)
  }

  /** Under the other order a thread that has run its job frees its slot and is not on the list. */
  lemma FirstIsFreed(s: State)
    requires s.order.FreeThenJoin? && 0 in s.threads && s.threads[0] == Thread(Fresh, Some(0))
    ensures Enabled(s, Receive(0)) && Enabled(Next(s, Receive(0)), Free(0))
    ensures var n := Next(Next(s, Receive(0)), Free(0));
            && n.taken == s.taken - 1 && n.threads.Keys == s.threads.Keys && n.nextThread == s.nextThread
            && n.idle == s.idle && n.limit == s.limit && n.calls == s.calls && n.blocked == s.blocked
  {
  }

  /** The bound rests on the order: freed first, one slot is enough for two threads. */
  lemma FreeingFirstExceedsTheLimit(s0: State)
    requires Initial(s0) && s0.order.FreeThenJoin? && s0.limit == 1 && s0.idle == [] && s0.nextThread == 0
    ensures Possible(s0, FreeFirstRun())
    ensures |After(s0, FreeFirstRun()).threads| > s0.limit
  {
    hide Possible, After, OneEvaluation, Next, Enabled;
    EvaluationSpawns(s0, 0);
    FirstIsFreed(After(s0, OneEvaluation(0)));
    ThenStep(s0, OneEvaluation(0), Receive(0));
    ThenStep(s0, OneEvaluation(0) + [Receive(0)], Free(0));
    var first := OneEvaluation(0) + [Receive(0)] + [Free(0)];
    EvaluationSpawns(After(s0, first), 1);
    RunConcat(s0, first, OneEvaluation(1));
    TwoThreads(After(s0, first).threads, Thread(Fresh, Some(1)));
  }

  lemma TwoThreads(threads: map<ThreadId, Thread>, second: Thread)
    requires threads.Keys == {0}
    ensures |threads[1 := second]| == 2
  {
    assert |threads[1 := second].Keys| == |threads[1 := second]|;
    assert threads[1 := second].Keys == {0, 1};
  }
}
