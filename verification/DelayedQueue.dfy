/** Items delivered by one timer per time key (utils/queue.go). */
module DelayedQueue {

  type Time = int

  /** The map under the mutex, and the timer goroutines that have not yet taken their items. */
  datatype State<T> = State(timeMap: map<Time, seq<T>>, timers: multiset<Time>)

  /** One timer for each key in the map, and none for any other. */
  ghost predicate Timed<T>(s: State<T>) {
    forall t :: s.timers[t] == if t in s.timeMap then 1 else 0
  }

  function Waiting<T>(s: State<T>, t: Time): seq<T> {
    if t in s.timeMap then s.timeMap[t] else []
  }

  /** The atomic steps: an addition whose clock reading was `now`, and a timer taking its items. */
  datatype Event<T> = Add(now: Time, t: Time, item: T) | Fire(t: Time)

  function Next<T>(s: State<T>, e: Event<T>): State<T> {
    match e
    case Add(now, t, item) =>
      if t < now then s
      else State(s.timeMap[t := Waiting(s, t) + [item]], if t in s.timeMap then s.timers else s.timers + multiset{t})
    case Fire(t) => State(s.timeMap - {t}, s.timers - multiset{t})
  }

  class DelayedQueueManager<T> {
    var timeMap: map<Time, seq<T>>
    var timers: multiset<Time>

    ghost function Value(): State<T>
      reads this
    {
      State(timeMap, timers)
    }

    constructor ()
      ensures Value() == State(map[], multiset{})
    {
      timeMap, timers := map[], multiset{};
    }

    method Add(now: Time, t: Time, item: T)
      modifies this
      ensures Value() == Next(old(Value()), Event.Add(now, t, item))
    {
      if t < now {
        return;
      }
      if t !in timeMap {
        CreateTimer(t);
        timeMap := timeMap[t := []];
      }
      timeMap := timeMap[t := timeMap[t] + [item]];
    }

    method CreateTimer(t: Time)
      modifies this`timers
      ensures timers == old(timers) + multiset{t}
    {
      timers := timers + multiset{t};
    }

    method Get(t: Time) returns (items: seq<T>)
      modifies this`timeMap
      ensures items == old(Waiting(Value(), t)) && timeMap == old(timeMap) - {t}
    {
      items := if t in timeMap then timeMap[t] else [];
      timeMap := timeMap - {t};
    }

    /** The body of a timer goroutine once its time has come. */
    method Fire(t: Time) returns (items: seq<T>)
      requires t in timers
      modifies this
      ensures Value() == Next(old(Value()), Event.Fire(t)) && items == old(Waiting(Value(), t))
    {
      items := Get(t);
      timers := timers - multiset{t};
    }
  }

  // ---------- All interleavings ----------

  ghost function After<T>(es: seq<Event<T>>): State<T> {
    if es == [] then State(map[], multiset{}) else Next(After(es[..|es| - 1]), es[|es| - 1])
  }

  /** Only a timer that was started and has not fired can fire. */
  ghost predicate Possible<T>(es: seq<Event<T>>) {
    es == [] ||
    (var front, e := es[..|es| - 1], es[|es| - 1];
     Possible(front) && (e.Fire? ==> e.t in After(front).timers))
  }

  /** Items accepted for `t`, in order. */
  ghost function Accepted<T>(es: seq<Event<T>>, t: Time): seq<T> {
    if es == [] then []
    else
      var e := es[|es| - 1];
      Accepted(es[..|es| - 1], t) + if e.Add? && e.t == t && e.now <= t then [e.item] else []
  }

  /** Items handed to the processor for `t`, in order. */
  ghost function Delivered<T>(es: seq<Event<T>>, t: Time): seq<T> {
    if es == [] then []
    else
      var front, e := es[..|es| - 1], es[|es| - 1];
      Delivered(front, t) + if e.Fire? && e.t == t then Waiting(After(front), t) else []
  }

  /**
   * Conservation: at all times every key has exactly one timer, and the items accepted for it are
   * those delivered followed by those waiting, so each is delivered at most once and in order.
   */
  lemma {:induction false} Conservation<T>(es: seq<Event<T>>, t: Time)
    requires Possible(es)
    ensures Timed(After(es))
    ensures Accepted(es, t) == Delivered(es, t) + Waiting(After(es), t)
  {
    hide Next, Waiting, Timed;
    if es == [] {
      NothingWaits<T>(t);
    } else {
      var front, e := es[..|es| - 1], es[|es| - 1];
      Conservation(front, t);
      TimedStep(After(front), e);
      WaitingStep(After(front), e, t);
    }
  }

  lemma NothingWaits<T>(t: Time)
    ensures var s: State<T> := State(map[], multiset{});
            Timed(s) && Waiting(s, t) == []
  {
  }

  lemma TimedStep<T>(s: State<T>, e: Event<T>)
    requires Timed(s) && (e.Fire? ==> e.t in s.timers)
    ensures Timed(Next(s, e))
  {
  }

  lemma WaitingStep<T>(s: State<T>, e: Event<T>, t: Time)
    ensures Waiting(Next(s, e), t) ==
              if e.Fire? && e.t == t then []
              else Waiting(s, t) + if e.Add? && e.t == t && e.now <= t then [e.item] else []
  {
  }

  /** Nothing is stranded: once no timer is outstanding, everything accepted has been delivered. */
  lemma Drained<T>(es: seq<Event<T>>, t: Time)
    requires Possible(es) && After(es).timers == multiset{}
    ensures Accepted(es, t) == Delivered(es, t)
  {
    Conservation(es, t);
    assert After(es).timers[t] == 0;
  }

  ghost predicate NoEmptyBatch<T>(s: State<T>) {
    forall t :: t in s.timeMap ==> s.timeMap[t] != []
  }

  /** A timer never fires in vain: whenever one can fire, its batch holds an item. */
  lemma {:induction false} FiringDelivers<T>(es: seq<Event<T>>)
    requires Possible(es)
    ensures NoEmptyBatch(After(es))
    ensures forall t :: t in After(es).timers ==> Waiting(After(es), t) != []
  {
    Conservation(es, 0);
    if es != [] {
      FiringDelivers(es[..|es| - 1]);
    }
    forall t | t in After(es).timers
      ensures Waiting(After(es), t) != []
    {
      assert After(es).timers[t] > 0;
    }
  }
}
