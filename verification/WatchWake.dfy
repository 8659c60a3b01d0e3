/**
 Wake-ups, at the granularity of the mutex. A producer's method is two steps: its locked
 section, which may take the stored waker, and the wake after unlocking. Steps of any number
 of producers and of the consumer interleave. Every poll brings a waker of its own, cloned
 before the lock is taken, so a waker names the poll that stored it.
 */
module WatchWake {
  import opened Options
  import opened WatchQueue

  type Producer = nat

  /** `parked` is the poll whose Pending the consumer is sleeping on, if it sleeps. */
  datatype World = World(
    state: State,
    hands: map<Producer, Waker>,
    woken: multiset<Waker>,
    polls: nat,
    parked: Option<Waker>)

  datatype Step =
    | Section(producer: Producer, report: Report)
    | Wake(producer: Producer)
    | PollNext
    | Establish(health: WatchHealth)

  function Start(config: ProxyConfig): World {
    World(Initial(config), map[], multiset{}, 0, None)
  }

  /** A producer wakes what it took before it enters another section. */
  predicate Enabled(w: World, step: Step) {
    match step
    case Section(producer, _) => producer !in w.hands
    case Wake(producer) => producer in w.hands
    case PollNext => true
    case Establish(_) => true
  }

  function Next(w: World, step: Step): World
    requires Enabled(w, step)
  {
    match step
    case Section(producer, report) =>
      var locked := ReportIn(w.state, report);
      w.(state := locked.state,
         hands := if locked.wakes.Some? then w.hands[producer := locked.wakes.value] else w.hands)
    case Wake(producer) =>
      w.(hands := w.hands - {producer}, woken := w.woken + multiset{w.hands[producer]})
    case PollNext =>
      var polled := PollIn(w.state, w.polls);
      w.(state := polled.state,
         polls := w.polls + 1,
         parked := if polled.poll.Pending? then Some(w.polls) else None)
    case Establish(health) =>
      w.(state := EstablishIn(w.state, health))
  }

  predicate Possible(w: World, steps: seq<Step>)
    decreases steps
  {
    steps == [] || (Enabled(w, steps[0]) && Possible(Next(w, steps[0]), steps[1..]))
  }

  function After(w: World, steps: seq<Step>): World
    requires Possible(w, steps)
    decreases steps
  {
    if steps == [] then w else After(Next(w, steps[0]), steps[1..])
  }

  predicate Stored(w: World, waker: Waker) {
    w.state.waker == Some(waker)
  }

  predicate InHand(w: World, waker: Waker) {
    exists producer :: producer in w.hands && w.hands[producer] == waker
  }

  /** A waker is stored, or in one producer's hand, or woken once, and never two of these. */
  predicate OnePlace(w: World) {
    && (forall p, q :: p in w.hands && q in w.hands && p != q ==> w.hands[p] != w.hands[q])
    && (forall p :: p in w.hands ==> !Stored(w, w.hands[p]) && w.woken[w.hands[p]] == 0)
    && (forall waker :: waker in w.woken ==> w.woken[waker] == 1 && !Stored(w, waker))
  }

  /** Only polls made so far have wakers, and the one stored is the sleeping consumer's. */
  predicate FromPolls(w: World) {
    && (forall p :: p in w.hands ==> w.hands[p] < w.polls)
    && (forall waker :: waker in w.woken ==> waker < w.polls)
    && (w.state.waker.Some? ==> w.parked == w.state.waker && w.state.waker.value < w.polls)
  }

  predicate NotLost(w: World) {
    w.parked.Some? ==>
      Stored(w, w.parked.value) || InHand(w, w.parked.value) || w.woken[w.parked.value] == 1
  }

  predicate Invariant(w: World) {
    ParkedOnlyWhenIdle(w.state) && OnePlace(w) && FromPolls(w) && NotLost(w)
  }

  /** A section that makes the stream ready takes the stored waker; one that does not leaves it. */
  lemma SectionTakesTheWaker(s: State, report: Report)
    requires ParkedOnlyWhenIdle(s)
    ensures var locked := ReportIn(s, report);
            && ParkedOnlyWhenIdle(locked.state)
            && (s.waker.Some? && IsReady(locked.state) ==> locked.wakes == s.waker && locked.state.waker.None?)
            && (!IsReady(locked.state) ==> locked.wakes.None? && locked.state.waker == s.waker)
            && (locked.wakes.Some? ==> locked.wakes == s.waker)
            && (s.waker.None? ==> locked.state.waker.None?)
  {
    hide LastSnapshot;
  }

  lemma SectionKeepsInvariant(w: World, producer: Producer, report: Report)
    requires Invariant(w) && Enabled(w, Section(producer, report))
    ensures Invariant(Next(w, Section(producer, report)))
  {
    hide ReportIn;
    SectionTakesTheWaker(w.state, report);
    var next := Next(w, Section(producer, report));
    if w.parked.Some? && Stored(w, w.parked.value) && !Stored(next, w.parked.value) {
      assert next.hands[producer] == w.parked.value;
    }
    if w.parked.Some? && InHand(w, w.parked.value) {
      var p :| p in w.hands && w.hands[p] == w.parked.value;
      assert next.hands[p] == w.parked.value;
    }
  }

  lemma WakeKeepsInvariant(w: World, producer: Producer)
    requires Invariant(w) && Enabled(w, Wake(producer))
    ensures Invariant(Next(w, Wake(producer)))
  {
    var next := Next(w, Wake(producer));
    if w.parked.Some? && InHand(w, w.parked.value) {
      var p :| p in w.hands && w.hands[p] == w.parked.value;
      assert p != producer ==> p in next.hands && next.hands[p] == w.parked.value;
    }
  }

  lemma StepKeepsInvariant(w: World, step: Step)
    requires Invariant(w) && Enabled(w, step)
    ensures Invariant(Next(w, step))
  {
    match step
    case Section(producer, report) => SectionKeepsInvariant(w, producer, report);
    case Wake(producer) => WakeKeepsInvariant(w, producer);
    case PollNext =>
    case Establish(health) =>
      assert NotLost(w);
      assert forall waker :: InHand(w, waker) ==> InHand(Next(w, step), waker);
  }

  lemma {:induction false} RunKeepsInvariant(w: World, steps: seq<Step>)
    requires Invariant(w) && Possible(w, steps)
    ensures Invariant(After(w, steps))
    decreases steps
  {
    if steps != [] {
      StepKeepsInvariant(w, steps[0]);
      RunKeepsInvariant(Next(w, steps[0]), steps[1..]);
    }
  }

  /**
   No wake-up is lost: a consumer that sleeps while the stream is ready has been woken, exactly
   once for that sleep, or the producer about to wake it is between its unlock and its wake.
   With no producer in that gap, it has been woken.
   */
  lemma NoWakeUpIsLost(config: ProxyConfig, steps: seq<Step>)
    requires Possible(Start(config), steps)
    ensures var w := After(Start(config), steps);
            && (w.parked.Some? && IsReady(w.state) ==>
                  InHand(w, w.parked.value) != (w.woken[w.parked.value] == 1))
            && (w.parked.Some? && IsReady(w.state) && w.hands == map[] ==> w.woken[w.parked.value] == 1)
  {
    RunKeepsInvariant(Start(config), steps);
  }

  /** No waker is woken twice, and none is woken while it is still stored. */
  lemma WokenAtMostOnce(config: ProxyConfig, steps: seq<Step>, waker: Waker)
    requires Possible(Start(config), steps)
    ensures var w := After(Start(config), steps);
            w.woken[waker] <= 1 && (w.woken[waker] == 1 ==> !Stored(w, waker) && !InHand(w, waker))
  {
    RunKeepsInvariant(Start(config), steps);
    var w := After(Start(config), steps);
    assert w.woken[waker] > 0 ==> waker in w.woken;
  }
}
