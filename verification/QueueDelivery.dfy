/** What the runs of the command queue achieve: first in, first out, no deadlock, and delivery. */
module QueueDelivery {
  import opened Options
  import opened Sums
  import opened CommandQueue
  import opened QueueSafety

  // ------------------------------------------------------- order, conservation

  function Items<T>(order: seq<Added<T>>): seq<T> {
    if order == [] then [] else Items(order[..|order| - 1]) + [order[|order| - 1].item]
  }

  /** The adds of one producer, in the order they took the lock. */
  function ItemsOf<T>(order: seq<Added<T>>, i: nat): seq<T> {
    if order == [] then
      []
    else
      var last := order[|order| - 1];
      ItemsOf(order[..|order| - 1], i) + if last.producer == i then [last.item] else []
  }

  /** The list from its oldest to its newest element. */
  function Reversed<T>(list: seq<T>): seq<T> {
    if list == [] then [] else Reversed(list[1..]) + [list[0]]
  }

  /** The item whose callback is running: only the holder of the mutex can have one. */
  function InCallback<T>(s: State<T>): seq<T> {
    if s.owner.ByConsumer? && s.owner.j < |s.consumers| && s.consumers[s.owner.j].Calling? then
      [s.consumers[s.owner.j].item]
    else
      []
  }

  /** Nothing is lost, duplicated or reordered between the adds and the callbacks. */
  ghost predicate Conserved<T>(s: State<T>) {
    Items(s.order) == s.executed + InCallback(s) + Reversed(s.list)
  }

  /** What a producer has added and what it has left is its program. */
  ghost predicate FollowsPrograms<T>(s: State<T>, programs: seq<seq<T>>) {
    && |s.producers| == |programs|
    && (forall k :: 0 <= k < |s.order| ==> s.order[k].producer < |programs|)
    && (forall i :: 0 <= i < |programs| ==> ItemsOf(s.order, i) + s.producers[i].todo == programs[i])
  }

  lemma {:induction false} ReversedPop<T>(list: seq<T>)
    requires list != []
    ensures Reversed(list) == [Oldest(list)] + Reversed(WithoutOldest(list))
  {
    if |list| > 1 {
      ReversedPop(list[1..]);
      assert WithoutOldest(list)[1..] == WithoutOldest(list[1..]);
    }
  }

  lemma ReversedPrepend<T>(list: seq<T>, x: T)
    ensures Reversed(Prepend(list, x)) == Reversed(list) + [x]
  {
    assert Prepend(list, x)[1..] == list;
  }

  lemma AddConserves<T>(s: State<T>, i: nat)
    requires Safe(s) && Conserved(s) && i < |s.producers| && s.producers[i].pc.Checking?
    ensures Conserved(ProducerCheck(s, i))
  {
    if |s.list| < s.maxsize {
      var x := s.producers[i].todo[0];
      ReversedPrepend(s.list, x);
      assert (s.order + [Added(i, x)])[..|s.order|] == s.order;
    }
  }

  lemma PopConserves<T>(s: State<T>, j: nat)
    requires Safe(s) && Conserved(s) && j < |s.consumers| && s.consumers[j].Checking?
    ensures Conserved(ConsumerCheck(s, j))
  {
    if |s.list| > 0 {
      ReversedPop(s.list);
      assert s.owner == ByConsumer(j);
    }
  }

  lemma ProducerConserves<T>(s: State<T>, i: nat, w: Option<nat>)
    requires Safe(s) && Conserved(s) && Enabled(s, Produce(i, w))
    ensures Conserved(ProducerMove(s, i, w))
  {
    if s.producers[i].pc.Checking? {
      AddConserves(s, i);
    } else {
      assert InCallback(ProducerMove(s, i, w)) == InCallback(s);
    }
  }

  lemma ConsumerConserves<T>(s: State<T>, j: nat, w: Option<nat>)
    requires Safe(s) && Conserved(s) && Enabled(s, Consume(j, w))
    ensures Conserved(ConsumerMove(s, j, w))
  {
    var c := s.consumers[j];
    var t := ConsumerMove(s, j, w);
    if c.Checking? {
      PopConserves(s, j);
    } else if c.Calling? {
      assert s.owner == ByConsumer(j);
      assert InCallback(s) == [c.item] && InCallback(t) == [];
    } else {
      assert InCallback(t) == InCallback(s);
    }
  }

  lemma StepConserves<T>(s: State<T>, a: Action)
    requires Safe(s) && Conserved(s) && Enabled(s, a)
    ensures Conserved(Next(s, a))
  {
    match a {
      case Produce(i, w) => ProducerConserves(s, i, w);
      case Consume(j, w) => ConsumerConserves(s, j, w);
      case _ => assert InCallback(Next(s, a)) == InCallback(s);
    }
  }

  lemma AddFollowsPrograms<T>(s: State<T>, i: nat, programs: seq<seq<T>>)
    requires Safe(s) && FollowsPrograms(s, programs)
    requires i < |s.producers| && s.producers[i].pc.Checking? && |s.list| < s.maxsize
    ensures FollowsPrograms(ProducerCheck(s, i), programs)
  {
    var p := s.producers[i];
    var t := ProducerCheck(s, i);
    assert t.order[..|s.order|] == s.order;
    forall k | 0 <= k < |programs| ensures ItemsOf(t.order, k) + t.producers[k].todo == programs[k] {
      if k == i {
        assert p.todo == [p.todo[0]] + p.todo[1..];
        assert ItemsOf(t.order, i) == ItemsOf(s.order, i) + [p.todo[0]];
      } else {
        assert ItemsOf(t.order, k) == ItemsOf(s.order, k);
      }
    }
  }

  lemma StepFollowsPrograms<T>(s: State<T>, a: Action, programs: seq<seq<T>>)
    requires Safe(s) && FollowsPrograms(s, programs) && Enabled(s, a)
    ensures FollowsPrograms(Next(s, a), programs)
  {
    if a.Produce? && s.producers[a.i].pc.Checking? && |s.list| < s.maxsize {
      AddFollowsPrograms(s, a.i, programs);
    } else {
      StepKeepsTodo(s, a);
    }
  }

  lemma StepKeepsTodo<T>(s: State<T>, a: Action)
    requires Enabled(s, a)
    requires a.Produce? && s.producers[a.i].pc.Checking? ==> |s.list| >= s.maxsize
    ensures Next(s, a).order == s.order && |Next(s, a).producers| == |s.producers|
    ensures forall i :: 0 <= i < |s.producers| ==> Next(s, a).producers[i].todo == s.producers[i].todo
  {
  }

  /** Everything a reachable state keeps. */
  ghost predicate Sound<T>(s: State<T>, programs: seq<seq<T>>) {
    Safe(s) && Conserved(s) && FollowsPrograms(s, programs)
  }

  lemma {:induction false} RunKeepsSound<T>(s: State<T>, acts: seq<Action>, programs: seq<seq<T>>)
    requires Sound(s, programs) && IsRun(s, acts)
    ensures Sound(After(s, acts), programs)
    decreases |acts|
  {
    if acts != [] {
      StepKeepsSafe(s, acts[0]);
      StepConserves(s, acts[0]);
      StepFollowsPrograms(s, acts[0], programs);
      RunKeepsSound(Next(s, acts[0]), acts[1..], programs);
    }
  }

  lemma InitSound<T>(programs: seq<seq<T>>, consumers: nat)
    ensures Sound(Init(programs, consumers), programs)
  {
    InitSafe(programs, consumers);
  }

  /** First in, first out, with nothing lost or doubled, in every reachable state. */
  lemma FirstInFirstOut<T>(programs: seq<seq<T>>, consumers: nat, acts: seq<Action>)
    requires IsRun(Init(programs, consumers), acts)
    ensures var s := After(Init(programs, consumers), acts);
            && |s.list| <= 10
            && Items(s.order) == s.executed + InCallback(s) + Reversed(s.list)
            && |s.producers| == |programs|
            && forall i :: 0 <= i < |programs| ==> ItemsOf(s.order, i) + s.producers[i].todo == programs[i]
  {
    InitSound(programs, consumers);
    RunKeepsSound(Init(programs, consumers), acts, programs);
    RunKeepsSize(Init(programs, consumers), acts);
  }

  lemma {:induction false} RunKeepsSize<T>(s: State<T>, acts: seq<Action>)
    requires IsRun(s, acts)
    ensures After(s, acts).maxsize == s.maxsize && |After(s, acts).consumers| == |s.consumers|
    decreases |acts|
  {
    if acts != [] {
      assert Next(s, acts[0]).maxsize == s.maxsize && |Next(s, acts[0]).consumers| == |s.consumers|;
      RunKeepsSize(Next(s, acts[0]), acts[1..]);
    }
  }

  /** At most one callback runs at a time. */
  lemma OneCallback<T>(programs: seq<seq<T>>, consumers: nat, acts: seq<Action>, j: nat, k: nat)
    requires IsRun(Init(programs, consumers), acts)
    requires var s := After(Init(programs, consumers), acts);
             j < |s.consumers| && k < |s.consumers| && s.consumers[j].Calling? && s.consumers[k].Calling?
    ensures j == k
  {
    InitSafe(programs, consumers);
    RunKeepsSafe(Init(programs, consumers), acts);
  }

  /** The callback runs while the mutex is held; signals are sent and sleeping is done without it. */
  lemma LockDiscipline<T>(programs: seq<seq<T>>, consumers: nat, acts: seq<Action>)
    requires IsRun(Init(programs, consumers), acts)
    ensures var s := After(Init(programs, consumers), acts);
            && (forall j :: 0 <= j < |s.consumers| && s.consumers[j].Calling? ==> s.owner == ByConsumer(j))
            && (forall j :: 0 <= j < |s.consumers| && (s.consumers[j].Signalling? || s.consumers[j].Asleep?) ==>
                  s.owner != ByConsumer(j))
            && (forall i :: 0 <= i < |s.producers| && (s.producers[i].pc.Signalling? || s.producers[i].pc.Asleep?) ==>
                  s.owner != ByProducer(i))
  {
    InitSafe(programs, consumers);
    RunKeepsSafe(Init(programs, consumers), acts);
  }

  /** A signal on not_empty wakes exactly one sleeping consumer when there is one, and nobody otherwise;
      a sleeper may also wake up by itself. */
  lemma SignalWakesOne<T>(s: State<T>, i: nat, w: Option<nat>)
    requires Enabled(s, Produce(i, w)) && s.producers[i].pc.Signalling?
    ensures var t := ProducerMove(s, i, w);
            if exists j :: 0 <= j < |s.consumers| && s.consumers[j].Asleep? then
              && w.Some? && w.value < |s.consumers| && s.consumers[w.value].Asleep?
              && t.consumers == s.consumers[w.value := Woken]
            else
              t.consumers == s.consumers
    ensures forall j :: 0 <= j < |s.consumers| && s.consumers[j].Asleep? ==> Enabled(s, SpuriousConsumer(j))
  {
  }

  lemma SignalWakesOneProducer<T>(s: State<T>, j: nat, w: Option<nat>)
    requires Enabled(s, Consume(j, w)) && s.consumers[j].Signalling?
    ensures var t := ConsumerMove(s, j, w);
            if exists i :: 0 <= i < |s.producers| && s.producers[i].pc.Asleep? then
              && w.Some? && w.value < |s.producers| && s.producers[w.value].pc.Asleep?
              && t.producers == s.producers[w.value := s.producers[w.value].(pc := Woken)]
            else
              t.producers == s.producers
    ensures forall i :: 0 <= i < |s.producers| && s.producers[i].pc.Asleep? ==> Enabled(s, SpuriousProducer(i))
  {
  }

  // ------------------------------------------------------------- no deadlock

  ghost predicate InFlightForProducers<T>(s: State<T>) {
    || (exists j :: 0 <= j < |s.consumers| && ConsumerSignals(s.consumers[j]) == 1)
    || (exists i :: 0 <= i < |s.producers| && ProducerRechecks(s.producers[i]) == 1)
  }

  ghost predicate InFlightForConsumers<T>(s: State<T>) {
    || (exists i :: 0 <= i < |s.producers| && ProducerSignals(s.producers[i]) == 1)
    || (exists j :: 0 <= j < |s.consumers| && ConsumerRechecks(s.consumers[j]) == 1)
  }

  /** A producer that sleeps with no signal and no woken peer in flight faces a full list. */
  lemma StuckProducerMeansFull<T>(s: State<T>, i: nat)
    requires Safe(s) && i < |s.producers| && s.producers[i].pc.Asleep? && !InFlightForProducers(s)
    ensures |s.list| == s.maxsize
  {
    SumAtLeast(s.producers, i, ProducerSleeps);
    SumZero(s.consumers, ConsumerSignals);
    SumZero(s.producers, ProducerRechecks);
  }

  lemma StuckConsumerMeansEmpty<T>(s: State<T>, j: nat)
    requires Safe(s) && j < |s.consumers| && s.consumers[j].Asleep? && !InFlightForConsumers(s)
    ensures |s.list| == 0
  {
    SumAtLeast(s.consumers, j, ConsumerSleeps);
    SumZero(s.producers, ProducerSignals);
    SumZero(s.consumers, ConsumerRechecks);
  }

  /** Producers and consumers are never all asleep together. */
  lemma NeverAllAsleep<T>(programs: seq<seq<T>>, consumers: nat, acts: seq<Action>)
    requires IsRun(Init(programs, consumers), acts) && programs != [] && consumers > 0
    ensures var s := After(Init(programs, consumers), acts);
            || (exists i :: 0 <= i < |s.producers| && !s.producers[i].pc.Asleep?)
            || (exists j :: 0 <= j < |s.consumers| && !s.consumers[j].Asleep?)
  {
    var s := After(Init(programs, consumers), acts);
    InitSound(programs, consumers);
    RunKeepsSound(Init(programs, consumers), acts, programs);
    RunKeepsSize(Init(programs, consumers), acts);
    if (forall i :: 0 <= i < |s.producers| ==> s.producers[i].pc.Asleep?)
       && (forall j :: 0 <= j < |s.consumers| ==> s.consumers[j].Asleep?) {
      StuckProducerMeansFull(s, 0);
      StuckConsumerMeansEmpty(s, 0);
    }
  }

  /** Nothing left to do: every producer has finished, the list is empty, every consumer waits. */
  ghost predicate Finished<T>(s: State<T>) {
    && s.list == []
    && (forall i :: 0 <= i < |s.producers| ==> s.producers[i] == Producer(Idle, []))
    && (forall j :: 0 <= j < |s.consumers| ==> s.consumers[j].Asleep?)
  }

  /** No thread can move on its own. */
  ghost predicate Stuck<T>(s: State<T>) {
    forall a: Action :: Enabled(s, a) ==> Spurious(a)
  }

  /** A sleeper to wake, or nobody when nobody sleeps. */
  lemma SomeWakeup<T>(s: State<T>) returns (wc: Option<nat>, wp: Option<nat>)
    ensures WakesConsumer(s.consumers, wc) && WakesProducer(s.producers, wp)
  {
    if j: nat :| j < |s.consumers| && s.consumers[j].Asleep? {
      wc := Some(j);
    } else {
      wc := None;
    }
    if i: nat :| i < |s.producers| && s.producers[i].pc.Asleep? {
      wp := Some(i);
    } else {
      wp := None;
    }
  }

  lemma StuckIsUnlocked<T>(s: State<T>)
    requires Safe(s) && Stuck(s)
    ensures s.owner == Nobody
  {
    if s.owner.ByProducer? {
      assert Enabled(s, Produce(s.owner.i, None));
    } else if s.owner.ByConsumer? {
      assert Enabled(s, Consume(s.owner.j, None));
    }
  }

  lemma StuckThreads<T>(s: State<T>)
    requires Safe(s) && Stuck(s)
    ensures forall i :: 0 <= i < |s.producers| ==> s.producers[i].pc.Asleep? || s.producers[i] == Producer(Idle, [])
    ensures forall j :: 0 <= j < |s.consumers| ==> s.consumers[j].Asleep?
  {
    StuckIsUnlocked(s);
    var wc, wp := SomeWakeup(s);
    forall i | 0 <= i < |s.producers|
      ensures s.producers[i].pc.Asleep? || s.producers[i] == Producer(Idle, [])
    {
      assert !Enabled(s, Produce(i, wc));
    }
    forall j | 0 <= j < |s.consumers| ensures s.consumers[j].Asleep? {
      assert !Enabled(s, Consume(j, wp));
    }
  }

  /** The protocol stops only when everything is done. */
  lemma StuckOnlyWhenFinished<T>(s: State<T>)
    requires Safe(s) && |s.consumers| > 0
    ensures Stuck(s) <==> Finished(s)
  {
    if Stuck(s) {
      StuckThreads(s);
      StuckConsumerMeansEmpty(s, 0);
      forall i | 0 <= i < |s.producers| ensures s.producers[i] == Producer(Idle, []) {
        if s.producers[i].pc.Asleep? {
          StuckProducerMeansFull(s, i);
        }
      }
    }
  }

  // ---------------------------------------------------------------- delivery

  function Weight<T>(pc: Pc<T>): nat {
    match pc
    case Asleep => 0
    case Checking(_) => 1
    case Woken => 2
    case Locking => 2
    case Idle => 3
    case Signalling => 6
    case Unlocking => 7
    case Calling(_) => 8
  }

  function ProducerWeight<T>(p: Producer<T>): nat { 15 * |p.todo| + Weight(p.pc) }

  function ConsumerWeight<T>(pc: Pc<T>): nat { Weight(pc) }

  /** Unadded items, queued items and the threads, weighted. */
  function Measure<T>(s: State<T>): nat {
    Sum(s.producers, ProducerWeight) + 8 * |s.list| + Sum(s.consumers, ConsumerWeight)
  }

  lemma ProducerDecreases<T>(s: State<T>, i: nat, w: Option<nat>)
    requires Safe(s) && Enabled(s, Produce(i, w))
    ensures Measure(ProducerMove(s, i, w)) < Measure(s)
  {
    var t := ProducerMove(s, i, w);
    SumUpdate(s.producers, i, t.producers[i], ProducerWeight);
    if s.producers[i].pc.Signalling? && w.Some? {
      SumUpdate(s.consumers, w.value, Woken, ConsumerWeight);
    }
  }

  lemma ConsumerDecreases<T>(s: State<T>, j: nat, w: Option<nat>)
    requires Safe(s) && Enabled(s, Consume(j, w))
    ensures Measure(ConsumerMove(s, j, w)) < Measure(s)
  {
    var t := ConsumerMove(s, j, w);
    SumUpdate(s.consumers, j, t.consumers[j], ConsumerWeight);
    if s.consumers[j].Signalling? && w.Some? {
      SumUpdate(s.producers, w.value, s.producers[w.value].(pc := Woken), ProducerWeight);
    }
  }

  /** Every move of a thread decreases the measure; a spurious wakeup adds exactly two. */
  lemma StepDecreases<T>(s: State<T>, a: Action)
    requires Safe(s) && Enabled(s, a)
    ensures !Spurious(a) ==> Measure(Next(s, a)) < Measure(s)
    ensures Spurious(a) ==> Measure(Next(s, a)) == Measure(s) + 2
  {
    match a {
      case Produce(i, w) => ProducerDecreases(s, i, w);
      case Consume(j, w) => ConsumerDecreases(s, j, w);
      case SpuriousProducer(i) => SumUpdate(s.producers, i, s.producers[i].(pc := Woken), ProducerWeight);
      case SpuriousConsumer(j) => SumUpdate(s.consumers, j, Woken, ConsumerWeight);
    }
  }

  function SpuriousCount(acts: seq<Action>): nat {
    if acts == [] then 0 else (if Spurious(acts[0]) then 1 else 0) + SpuriousCount(acts[1..])
  }

  /** A run is no longer than the measure it starts with, plus three for each spurious wakeup. */
  lemma {:induction false} RunIsBounded<T>(s: State<T>, acts: seq<Action>)
    requires Safe(s) && IsRun(s, acts)
    ensures |acts| + Measure(After(s, acts)) <= Measure(s) + 3 * SpuriousCount(acts)
    decreases |acts|
  {
    if acts != [] {
      StepDecreases(s, acts[0]);
      StepKeepsSafe(s, acts[0]);
      RunIsBounded(Next(s, acts[0]), acts[1..]);
    }
  }

  /** A run that cannot go on has executed every item of every program, in the order of the adds. */
  lemma MaximalRunDelivers<T>(programs: seq<seq<T>>, consumers: nat, acts: seq<Action>)
    requires IsRun(Init(programs, consumers), acts) && consumers > 0
    requires Stuck(After(Init(programs, consumers), acts))
    ensures var s := After(Init(programs, consumers), acts);
            && s.list == []
            && s.executed == Items(s.order)
            && forall i :: 0 <= i < |programs| ==> ItemsOf(s.order, i) == programs[i]
  {
    var s := After(Init(programs, consumers), acts);
    FirstInFirstOut(programs, consumers, acts);
    InitSafe(programs, consumers);
    RunKeepsSafe(Init(programs, consumers), acts);
    RunKeepsSize(Init(programs, consumers), acts);
    StuckOnlyWhenFinished(s);
    StuckIsUnlocked(s);
  }

  /** From every safe state the threads can go on, without any spurious wakeup, until none can move. */
  lemma {:induction false} CanStop<T>(s: State<T>) returns (acts: seq<Action>)
    requires Safe(s)
    ensures IsRun(s, acts) && Stuck(After(s, acts)) && SpuriousCount(acts) == 0
    decreases Measure(s)
  {
    if Stuck(s) {
      acts := [];
    } else {
      var a: Action :| Enabled(s, a) && !Spurious(a);
      StepDecreases(s, a);
      StepKeepsSafe(s, a);
      var rest := CanStop(Next(s, a));
      acts := [a] + rest;
    }
  }

  /** From every reachable state the threads can finish without any spurious wakeup. */
  lemma CanFinish<T>(s: State<T>) returns (acts: seq<Action>)
    requires Safe(s) && |s.consumers| > 0
    ensures IsRun(s, acts) && Finished(After(s, acts)) && SpuriousCount(acts) == 0
  {
    acts := CanStop(s);
    RunKeepsSafe(s, acts);
    RunKeepsSize(s, acts);
    StuckOnlyWhenFinished(After(s, acts));
  }

  // ----------------------------------------------------------- a full queue

  /** Without a consumer nothing is ever executed. */
  lemma {:induction false} NothingConsumed<T>(s: State<T>, acts: seq<Action>)
    requires IsRun(s, acts) && s.consumers == []
    ensures After(s, acts).executed == s.executed && After(s, acts).consumers == []
    decreases |acts|
  {
    if acts != [] {
      NothingConsumed(Next(s, acts[0]), acts[1..]);
    }
  }

  lemma {:induction false} ReversedLength<T>(list: seq<T>)
    ensures |Reversed(list)| == |list|
  {
    if list != [] {
      ReversedLength(list[1..]);
    }
  }

  lemma {:induction false} ItemsLengths<T>(order: seq<Added<T>>, i: nat)
    ensures |ItemsOf(order, i)| <= |order| == |Items(order)|
  {
    if order != [] {
      ItemsLengths(order[..|order| - 1], i);
    }
  }

  /** A state in which nobody can move and a producer still sleeps, with no consumer at all: the list is
      full. */
  lemma StuckAsleepMeansFull<T>(s: State<T>, i: nat)
    requires Safe(s) && Stuck(s) && s.consumers == [] && i < |s.producers| && s.producers[i].pc.Asleep?
    ensures |s.list| == s.maxsize
  {
    StuckThreads(s);
    StuckProducerMeansFull(s, i);
  }

  /** With no consumer and a producer that has more than ten items to add, the run ends with exactly ten
      items in the list, none executed, and that producer asleep. */
  lemma TenItemsFillTheQueue<T>(programs: seq<seq<T>>, acts: seq<Action>, i: nat)
    requires IsRun(Init(programs, 0), acts) && Stuck(After(Init(programs, 0), acts))
    requires i < |programs| && |programs[i]| > 10
    ensures var s := After(Init(programs, 0), acts);
            |s.list| == 10 && s.executed == [] && i < |s.producers| && s.producers[i].pc.Asleep?
  {
    var s := After(Init(programs, 0), acts);
    FirstInFirstOut(programs, 0, acts);
    NothingConsumed(Init(programs, 0), acts);
    InitSafe(programs, 0);
    RunKeepsSafe(Init(programs, 0), acts);
    StuckThreads(s);
    ItemsLengths(s.order, i);
    ReversedLength(s.list);
    assert s.producers[i].pc.Asleep?;
    StuckAsleepMeansFull(s, i);
    RunKeepsSize(Init(programs, 0), acts);
  }

  /** And there is such a run. */
  lemma QueueCanFill<T>(programs: seq<seq<T>>, i: nat) returns (acts: seq<Action>)
    requires i < |programs| && |programs[i]| > 10
    ensures IsRun(Init(programs, 0), acts)
    ensures var s := After(Init(programs, 0), acts);
            |s.list| == 10 && s.executed == [] && i < |s.producers| && s.producers[i].pc.Asleep?
  {
    InitSafe(programs, 0);
    acts := CanStop(Init(programs, 0));
    TenItemsFillTheQueue(programs, acts, i);
  }
}
