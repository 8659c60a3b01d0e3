/**
 The object shared by the watcher thread and the stream. Its mutex makes each method one
 step; what a method does after unlocking is to wake at most one waker.
 */
module WatchShared {
  import opened Options
  import opened WatchQueue
  import opened WatchRuns
  import opened WatchPromises

  /** Runtime losses folded into the established list, each once and after it. */
  method MergeRuntimeHealth(established: seq<Source>, runtime: seq<Source>) returns (degraded: seq<Source>)
    ensures degraded == MergeDegraded(established, runtime)
    ensures established <= degraded
    ensures forall source :: source in degraded <==> source in established || source in runtime
  {
    degraded := established;
    for i := 0 to |runtime|
      invariant MergeDegraded(degraded, runtime[i..]) == MergeDegraded(established, runtime)
    {
      assert runtime[i..][0] == runtime[i] && runtime[i..][1..] == runtime[i + 1..];
      if runtime[i] !in degraded {
        degraded := degraded + [runtime[i]];
      }
    }
    MergedDegradedMeaning(established, runtime);
  }

  lemma NothingOwed(r: Run)
    ensures Fresh(r) && r.state.queue == [] && !r.state.dirty ==> r.lastSnapshot == Some(Stamp(r.state))
  {
  }

  class Shared {
    var current: ProxyConfig
    var queue: seq<Queued>
    var dropped: nat
    var waker: Option<Waker>
    var closed: bool
    var dirty: bool
    var runtimeDegraded: seq<Source>
    var runtimeNoLiveNotifications: bool
    var construction: Option<WatchHealth>

    // The wakers woken so far, in order.
    var woken: seq<Waker>

    // Everything that has happened to this object.
    ghost var run: Run

    ghost function Contents(): State
      reads this
    {
      State(current, queue, dropped, waker, closed, dirty, runtimeDegraded,
            runtimeNoLiveNotifications, construction)
    }

    ghost predicate Valid()
      reads this
    {
      run.state == Contents() && Invariant(run)
    }

    constructor (initial: ProxyConfig)
      ensures Valid() && run == Start(initial) && woken == []
    {
      current, queue, dropped, waker := initial, [Snapshot], 0, None;
      closed, dirty := false, false;
      runtimeDegraded, runtimeNoLiveNotifications, construction := [], false, None;
      woken := [];
      run := Start(initial);
      EveryRun(initial, []);
    }

    method SetConstructionHealth(health: WatchHealth)
      requires Valid()
      modifies this
      ensures Valid() && run == Next(old(run), Establish(health)) && woken == old(woken)
      ensures construction == if old(construction).Some? then old(construction) else Some(health)
    {
      hide Invariant, Next;
      StepMoves(run, Establish(health));
      if construction.None? {
        construction := Some(health);
      }
      run := Next(run, Establish(health));
    }

    /** Discard from the front until the queue is within its limit. */
    method TrimToCapacity() returns (discarded: Option<nat>)
      modifies this`queue, this`dropped
      ensures queue == old(queue)[Excess(old(queue))..]
      ensures dropped == old(dropped) + Excess(old(queue))
      ensures discarded == if Excess(old(queue)) == 0 then None else Some(dropped)
    {
      if |queue| <= MAX_QUEUED_CHANGES {
        return None;
      }
      ghost var taken := 0;
      while |queue| > MAX_QUEUED_CHANGES
        invariant taken <= Excess(old(queue))
        invariant queue == old(queue)[taken..] && dropped == old(dropped) + taken
      {
        queue := queue[1..];
        dropped := dropped + 1;
        taken := taken + 1;
      }
      return Some(dropped);
    }

    /** Leave one snapshot behind everything queued, and a snapshot in front where it is. */
    method QueueSnapshot() returns (folded: bool)
      modifies this`queue
      ensures queue == FoldSnapshot(old(queue)) && queue != []
      ensures folded <==> LastSnapshot(old(queue)) > 0 || old(queue) == [Snapshot]
    {
      var last := LastSnapshot(queue);
      if 0 <= last && last + 1 == |queue| {
        folded := true;
      } else if 0 < last {
        queue := queue[..last] + queue[last + 1..];
        queue := queue + [Snapshot];
        folded := true;
      } else {
        queue := queue + [Snapshot];
        folded := false;
      }
    }

    /** Take the stored waker, and wake it after unlocking. */
    method WakeStored()
      modifies this`waker, this`woken
      ensures waker == None
      ensures woken == old(woken) + if old(waker).Some? then [old(waker).value] else []
    {
      var taken := waker;
      waker := None;
      if taken.Some? {
        woken := woken + [taken.value];
      }
    }

    method Emit(config: ProxyConfig)
      requires Valid()
      modifies this
      ensures Valid() && run == Next(old(run), Producer(WatchQueue.Emit(config)))
      ensures Contents() == EmitIn(old(Contents()), config).state
      ensures WokeExactly(old(waker), old(woken))
    {
      hide Invariant, Next, FoldSnapshot, LastSnapshot;
      StepMoves(run, Producer(WatchQueue.Emit(config)));
      if current.content != config.content {
        current := config;
        var _ := QueueSnapshot();
        dirty := false;
        var _ := TrimToCapacity();
        WakeStored();
      }
      run := Next(run, Producer(WatchQueue.Emit(config)));
    }

    /** A waker that was stored is woken once if the stream is ready now; nothing else is. */
    ghost predicate WokeExactly(stored: Option<Waker>, wokenBefore: seq<Waker>)
      reads this
    {
      if stored.Some? && IsReady(Contents())
      then woken == wokenBefore + [stored.value] && waker == None
      else woken == wokenBefore && waker == stored
    }

    method Fail(error: Failure)
      requires Valid()
      modifies this
      ensures Valid() && run == Next(old(run), Producer(WatchQueue.Fail(error)))
      ensures Contents() == FailIn(old(Contents()), error).state
      ensures WokeExactly(old(waker), old(woken))
    {
      hide Invariant, Next;
      StepMoves(run, Producer(WatchQueue.Fail(error)));
      assert queue != [] ==> waker.None?;
      if queue != [] && queue[|queue| - 1].Failed? {
        queue := queue[|queue| - 1 := Failed(error)];
      } else {
        queue := queue + [Failed(error)];
        WakeStored();
      }
      run := Next(run, Producer(WatchQueue.Fail(error)));
    }

    method Degrade(source: Source)
      requires Valid()
      modifies this
      ensures Valid() && run == Next(old(run), Producer(WatchQueue.Degrade(source)))
      ensures Contents() == DegradeIn(old(Contents()), source).state
      ensures WokeExactly(old(waker), old(woken))
    {
      hide Invariant, Next;
      StepMoves(run, Producer(WatchQueue.Degrade(source)));
      if !(source in runtimeDegraded || (construction.Some? && source in construction.value.degraded)) {
        runtimeDegraded := runtimeDegraded + [source];
        dirty := true;
        WakeStored();
      }
      run := Next(run, Producer(WatchQueue.Degrade(source)));
    }

    method MarkNoLiveNotifications()
      requires Valid()
      modifies this
      ensures Valid() && run == Next(old(run), Producer(NoLive))
      ensures Contents() == NoLiveIn(old(Contents())).state
      ensures WokeExactly(old(waker), old(woken))
    {
      hide Invariant, Next;
      StepMoves(run, Producer(NoLive));
      if !(runtimeNoLiveNotifications || (construction.Some? && !construction.value.hasLiveNotifications)) {
        runtimeNoLiveNotifications := true;
        dirty := true;
        WakeStored();
      }
      run := Next(run, Producer(NoLive));
    }

    method Close()
      requires Valid()
      modifies this
      ensures Valid() && run == Next(old(run), Producer(WatchQueue.Close))
      ensures Contents() == CloseIn(old(Contents())).state
      ensures WokeExactly(old(waker), old(woken))
    {
      hide Invariant, Next;
      StepMoves(run, Producer(WatchQueue.Close));
      if !closed {
        closed := true;
        dirty := true;
        WakeStored();
      }
      run := Next(run, Producer(WatchQueue.Close));
    }

    method StampNow() returns (stamp: WatchState)
      ensures stamp == Stamp(Contents())
    {
      var built := if construction.Some? then construction.value else NOT_ESTABLISHED;
      var degraded := MergeRuntimeHealth(built.degraded, runtimeDegraded);
      stamp := WatchState(
        current,
        WatchHealth(degraded, built.hasLiveNotifications && !runtimeNoLiveNotifications,
                    built.pollInterval, closed));
    }

    method PollNext(context: Waker) returns (poll: Poll)
      requires Valid()
      modifies this
      ensures Valid() && run == Next(old(run), Step.PollNext(context)) && woken == old(woken)
      ensures poll == PollIn(old(Contents()), context).poll
      ensures poll.Pending? ==> waker == Some(context)
      ensures (poll.Pending? || poll.Finished?) && !run.late ==> run.lastSnapshot == Some(Stamp(Contents()))
    {
      hide Invariant, Next, Fresh, Stamp;
      StepMoves(run, Step.PollNext(context));
      NothingOwed(Next(run, Step.PollNext(context)));
      poll := Pending;
      if queue != [] {
        var item := queue[0];
        queue := queue[1..];
        if queue == [] {
          dropped := 0;
        }
        match item {
          case Snapshot =>
            dirty := false;
            var stamp := StampNow();
            poll := Ready(SnapshotEvent(stamp));
          case Failed(error) =>
            var stamp := StampNow();
            poll := Ready(ErrorEvent(error, stamp));
        }
      } else if dirty {
        dirty := false;
        var stamp := StampNow();
        poll := Ready(SnapshotEvent(stamp));
      } else if closed {
        poll := Finished;
      } else {
        waker := Some(context);
      }
      run := Next(run, Step.PollNext(context));
    }

    /** The backend thread's guard, dropped as the thread goes. */
    method ThreadGuardDrop(panic: Option<Failure>)
      requires Valid()
      modifies this
      ensures Valid() && run == After(old(run), GuardDrop(panic))
      ensures closed
    {
      hide Invariant, Next, After;
      GuardSteps(run, panic);
      if panic.Some? {
        MarkNoLiveNotifications();
        Fail(panic.value);
      }
      Close();
    }
  }
}
