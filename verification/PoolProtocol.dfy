/**
 The PAC evaluation threads and the slots they share, as the steps that interleave. A step is
 one critical section, one channel operation, or one wait that ends. Deadlines and the linger
 time are not measured: giving up and lingering out are steps that may happen at any moment.
 */
module PoolProtocol {
  import opened Options

  type CallId = nat
  type ThreadId = nat
  type ProcessId = nat

  /** Whether a slot is wanted to run a script here or to talk to a worker process. */
  datatype Kind = Evaluation | Conversation

  /** Where a call is. An evaluation's job is with its call until it is handed to a thread. */
  datatype Call =
    | Acquiring(kind: Kind)
    | Dispatching
    | Offering(thread: ThreadId)
    | Spawning
    | HandedTo(thread: ThreadId)
    | Holding
    | Left

  /**
   Where an evaluation thread is. Between two jobs it is Waiting on its channel; TimedOut, it
   lingered out and is about to look for itself on the idle list; Committed, it did not find
   itself and waits for the job on its way. Freed only exists under the order that is not
   the code's.
   */
  datatype Phase =
    | Fresh
    | Running(call: CallId)
    | Freed(call: CallId)
    | Joined(call: CallId)
    | Answering(call: CallId)
    | Waiting
    | TimedOut
    | Committed

  /** A thread that has not ended, and the job its channel holds, which has room for one. */
  datatype Thread = Thread(phase: Phase, channel: Option<CallId>)

  datatype Idle = Idle(id: ThreadId, process: ProcessId)

  /** What a thread does first once its script has ended. The code joins the idle list. */
  datatype Order = JoinThenFree | FreeThenJoin

  /**
   `slots` are the Slot tokens alive, named after the call each was acquired for, and `taken`
   the counter that should equal their number. `owed` counts slots given back whose
   notification is still to be sent; `blocked` are the calls asleep on the condition variable,
   and `woken` those that have left it and not looked at the counter again.
   */
  datatype State = State(
    limit: nat,
    process: ProcessId,
    order: Order,
    taken: int,
    slots: set<CallId>,
    owed: nat,
    blocked: set<CallId>,
    woken: set<CallId>,
    calls: map<CallId, Call>,
    idle: seq<Idle>,
    threads: map<ThreadId, Thread>,
    nextThread: ThreadId,
    runs: multiset<CallId>,
    answered: set<CallId>)

  datatype Step =
    // acquiring a slot
    | Arrive(call: CallId, kind: Kind)
    | Take(call: CallId)
    | Block(call: CallId)
    | GiveUp(call: CallId)
    | Rouse(call: CallId)
    | NotifyOne(call: CallId)
    | NotifyNobody
    | EndConversation(call: CallId)
    // dispatching a job
    | PopIdle(call: CallId)
    | SeeEmpty(call: CallId)
    | Send(call: CallId)
    | SendFails(call: CallId)
    | Spawn(call: CallId)
    | SpawnFails(call: CallId)
    // an evaluation thread
    | Receive(thread: ThreadId)
    | Join(thread: ThreadId)
    | Free(thread: ThreadId)
    | Reply(thread: ThreadId)
    | Panic(thread: ThreadId)
    | LingerOut(thread: ThreadId)
    | LeaveList(thread: ThreadId)
    | Commit(thread: ThreadId)

  /** A list that holds only what a forked child inherits: entries of other processes. */
  predicate Initial(s: State) {
    && s.taken == 0 && s.slots == {} && s.owed == 0 && s.blocked == {} && s.woken == {}
    && s.calls == map[] && s.threads == map[] && s.runs == multiset{} && s.answered == {}
    && forall i :: 0 <= i < |s.idle| ==> s.idle[i].process != s.process && s.idle[i].id < s.nextThread
  }

  predicate At(s: State, call: CallId, where: Call) {
    call in s.calls && s.calls[call] == where
  }

  predicate Trying(s: State, call: CallId) {
    call in s.calls && s.calls[call].Acquiring? && call !in s.blocked
  }

  /** The position of the thread's entry on the idle list, or -1. */
  function Position(idle: seq<Idle>, thread: ThreadId): (at: int)
    ensures -1 <= at < |idle|
    ensures 0 <= at ==> idle[at].id == thread
    ensures forall i :: 0 <= i < (if at < 0 then |idle| else at) ==> idle[i].id != thread
  {
    if idle == [] then -1
    else if idle[0].id == thread then 0
    else
      var rest := Position(idle[1..], thread);
      assert forall i :: 1 <= i < |idle| ==> idle[i] == idle[1..][i - 1];
      if rest < 0 then -1 else rest + 1
  }

  function SwapRemove(idle: seq<Idle>, at: nat): seq<Idle>
    requires at < |idle|
  {
    idle[at := idle[|idle| - 1]][..|idle| - 1]
  }

  predicate Enabled(s: State, step: Step) {
    match step
    case Arrive(call, _) => call !in s.calls
    case Take(call) => Trying(s, call) && s.taken < s.limit
    case Block(call) => Trying(s, call) && s.taken >= s.limit
    case GiveUp(call) => Trying(s, call) && s.taken >= s.limit
    case Rouse(call) => call in s.blocked
    case NotifyOne(call) => s.owed > 0 && call in s.blocked
    case NotifyNobody => s.owed > 0 && s.blocked == {}
    case EndConversation(call) => At(s, call, Holding)
    case PopIdle(call) => At(s, call, Dispatching) && s.idle != []
    case SeeEmpty(call) => At(s, call, Dispatching) && s.idle == []
    case Send(call) =>
      && call in s.calls && s.calls[call].Offering?
      && s.calls[call].thread in s.threads && s.threads[s.calls[call].thread].channel.None?
    case SendFails(call) =>
      call in s.calls && s.calls[call].Offering? && s.calls[call].thread !in s.threads
    case Spawn(call) => At(s, call, Spawning)
    case SpawnFails(call) => At(s, call, Spawning)
    case Receive(t) =>
      && t in s.threads && s.threads[t].channel.Some?
      && (s.threads[t].phase.Fresh? || s.threads[t].phase.Waiting? || s.threads[t].phase.Committed?)
    case Join(t) =>
      t in s.threads && (if s.order.JoinThenFree? then s.threads[t].phase.Running? else s.threads[t].phase.Freed?)
    case Free(t) =>
      t in s.threads && (if s.order.JoinThenFree? then s.threads[t].phase.Joined? else s.threads[t].phase.Running?)
    case Reply(t) => t in s.threads && s.threads[t].phase.Answering?
    case Panic(t) => t in s.threads && s.threads[t].phase.Running?
    case LingerOut(t) => t in s.threads && s.threads[t].phase.Waiting?
    case LeaveList(t) => t in s.threads && s.threads[t].phase.TimedOut? && Position(s.idle, t) >= 0
    case Commit(t) => t in s.threads && s.threads[t].phase.TimedOut? && Position(s.idle, t) < 0
  }

  function Move(s: State, call: CallId, where: Call): State {
    s.(calls := s.calls[call := where])
  }

  function MoveThread(s: State, t: ThreadId, phase: Phase): State
    requires t in s.threads
  {
    s.(threads := s.threads[t := s.threads[t].(phase := phase)])
  }

  /** A Slot dropped: the counter goes down at once, the notification is sent after unlocking. */
  function DropSlot(s: State, call: CallId): State {
    s.(taken := s.taken - 1, slots := s.slots - {call}, owed := s.owed + 1)
  }

  function Next(s: State, step: Step): State
    requires Enabled(s, step)
  {
    match step
    case Arrive(call, kind) => Move(s, call, Acquiring(kind))
    case Take(call) =>
      Move(s, call, if s.calls[call].kind.Evaluation? then Dispatching else Holding)
      .(taken := s.taken + 1, slots := s.slots + {call}, woken := s.woken - {call})
    case Block(call) => s.(blocked := s.blocked + {call}, woken := s.woken - {call})
    case GiveUp(call) => Move(s, call, Left).(woken := s.woken - {call})
    case Rouse(call) => s.(blocked := s.blocked - {call}, woken := s.woken + {call})
    case NotifyOne(call) => s.(owed := s.owed - 1, blocked := s.blocked - {call}, woken := s.woken + {call})
    case NotifyNobody => s.(owed := s.owed - 1)
    case EndConversation(call) => DropSlot(Move(s, call, Left), call)
    case PopIdle(call) =>
      var last := s.idle[|s.idle| - 1];
      var popped := s.(idle := s.idle[..|s.idle| - 1]);
      if last.process != s.process then popped else Move(popped, call, Offering(last.id))
    case SeeEmpty(call) => Move(s, call, Spawning)
    case Send(call) =>
      var t := s.calls[call].thread;
      Move(s, call, HandedTo(t)).(threads := s.threads[t := s.threads[t].(channel := Some(call))])
    case SendFails(call) => Move(s, call, Dispatching)
    case Spawn(call) =>
      Move(s, call, HandedTo(s.nextThread))
      .(threads := s.threads[s.nextThread := Thread(Fresh, Some(call))], nextThread := s.nextThread + 1)
    case SpawnFails(call) => DropSlot(Move(s, call, Left), call).(nextThread := s.nextThread + 1)
    case Receive(t) =>
      var call := s.threads[t].channel.value;
      s.(threads := s.threads[t := Thread(Running(call), None)], runs := s.runs + multiset{call})
    case Join(t) =>
      var call := s.threads[t].phase.call;
      MoveThread(s, t, if s.order.JoinThenFree? then Joined(call) else Answering(call))
      .(idle := s.idle + [Idle(t, s.process)])
    case Free(t) =>
      var call := s.threads[t].phase.call;
      DropSlot(MoveThread(s, t, if s.order.JoinThenFree? then Answering(call) else Freed(call)), call)
    case Reply(t) => MoveThread(s, t, Waiting).(answered := s.answered + {s.threads[t].phase.call})
    case Panic(t) => DropSlot(s, s.threads[t].phase.call).(threads := s.threads - {t})
    case LingerOut(t) => MoveThread(s, t, TimedOut)
    case LeaveList(t) => s.(idle := SwapRemove(s.idle, Position(s.idle, t)), threads := s.threads - {t})
    case Commit(t) => MoveThread(s, t, Committed)
  }

  predicate Possible(s: State, steps: seq<Step>)
    decreases steps
  {
    steps == [] || (Enabled(s, steps[0]) && Possible(Next(s, steps[0]), steps[1..]))
  }

  function After(s: State, steps: seq<Step>): State
    requires Possible(s, steps)
    decreases steps
  {
    if steps == [] then s else After(Next(s, steps[0]), steps[1..])
  }
}
