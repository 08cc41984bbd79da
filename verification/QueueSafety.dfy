/** What every reachable state of the command queue keeps: mutual exclusion, the bound, no lost
    wakeup, and the roles of the threads. */
module QueueSafety {
  import opened Options
  import opened Sums
  import opened CommandQueue

  // ------------------------------------------------------------ counting heads

  /** A thread that holds the mutex. */
  predicate Holds<T>(pc: Pc<T>) {
    pc.Checking? || pc.Calling? || pc.Unlocking?
  }

  /** A woken thread that has not tested its condition again. */
  predicate Rechecks<T>(pc: Pc<T>) {
    pc.Woken? || (pc.Checking? && pc.again)
  }

  function ConsumerRechecks<T>(pc: Pc<T>): nat { if Rechecks(pc) then 1 else 0 }

  function ProducerRechecks<T>(p: Producer<T>): nat { if Rechecks(p.pc) then 1 else 0 }

  /** A consumer that has taken an item and not yet signalled not_full. */
  function ConsumerSignals<T>(pc: Pc<T>): nat {
    if pc.Calling? || pc.Unlocking? || pc.Signalling? then 1 else 0
  }

  /** A producer that has added an item and not yet signalled not_empty. */
  function ProducerSignals<T>(p: Producer<T>): nat {
    if p.pc.Unlocking? || p.pc.Signalling? then 1 else 0
  }

  function SleepingProducers<T>(s: State<T>): nat { Sum(s.producers, ProducerSleeps) }

  function SleepingConsumers<T>(s: State<T>): nat { Sum(s.consumers, ConsumerSleeps) }

  /** Help on its way to the sleeping producers. */
  function ProducersHelp<T>(s: State<T>): nat {
    Sum(s.consumers, ConsumerSignals) + Sum(s.producers, ProducerRechecks)
  }

  function ConsumersHelp<T>(s: State<T>): nat {
    Sum(s.producers, ProducerSignals) + Sum(s.consumers, ConsumerRechecks)
  }

  // ------------------------------------------------------------- the invariant

  ghost predicate MutualExclusion<T>(s: State<T>) {
    && (s.owner.ByProducer? ==> s.owner.i < |s.producers|)
    && (s.owner.ByConsumer? ==> s.owner.j < |s.consumers|)
    && (forall i :: 0 <= i < |s.producers| ==> (Holds(s.producers[i].pc) <==> s.owner == ByProducer(i)))
    && (forall j :: 0 <= j < |s.consumers| ==> (Holds(s.consumers[j]) <==> s.owner == ByConsumer(j)))
  }

  /** Producers never run the callback, consumers never idle, and an add always has its item. */
  ghost predicate Roles<T>(s: State<T>) {
    && (forall i :: 0 <= i < |s.producers| ==>
          var p := s.producers[i];
          !p.pc.Calling? && (p.pc.Locking? || p.pc.Checking? || p.pc.Asleep? || p.pc.Woken? ==> p.todo != []))
    && (forall j :: 0 <= j < |s.consumers| ==> !s.consumers[j].Idle?)
  }

  ghost predicate NoLostWakeup<T>(s: State<T>) {
    && (SleepingProducers(s) > 0 ==> s.maxsize - |s.list| <= ProducersHelp(s))
    && (SleepingConsumers(s) > 0 ==> |s.list| <= ConsumersHelp(s))
  }

  ghost predicate Bounded<T>(s: State<T>) {
    0 < s.maxsize && |s.list| <= s.maxsize
  }

  ghost predicate Shaped<T>(s: State<T>) {
    Bounded(s) && MutualExclusion(s) && Roles(s)
  }

  ghost predicate Safe<T>(s: State<T>) {
    Shaped(s) && NoLostWakeup(s)
  }

  // -------------------------------------------------------------- every step

  lemma ProducerCounts<T>(s: State<T>, i: nat, p: Producer<T>)
    requires i < |s.producers|
    ensures var ps, q := s.producers[i := p], s.producers[i];
            && Sum(ps, ProducerSleeps) + ProducerSleeps(q) == Sum(s.producers, ProducerSleeps) + ProducerSleeps(p)
            && Sum(ps, ProducerRechecks) + ProducerRechecks(q) == Sum(s.producers, ProducerRechecks) + ProducerRechecks(p)
            && Sum(ps, ProducerSignals) + ProducerSignals(q) == Sum(s.producers, ProducerSignals) + ProducerSignals(p)
  {
    SumUpdate(s.producers, i, p, ProducerSleeps);
    SumUpdate(s.producers, i, p, ProducerRechecks);
    SumUpdate(s.producers, i, p, ProducerSignals);
  }

  lemma ConsumerCounts<T>(s: State<T>, j: nat, c: Pc<T>)
    requires j < |s.consumers|
    ensures var cs, d := s.consumers[j := c], s.consumers[j];
            && Sum(cs, ConsumerSleeps) + ConsumerSleeps(d) == Sum(s.consumers, ConsumerSleeps) + ConsumerSleeps(c)
            && Sum(cs, ConsumerRechecks) + ConsumerRechecks(d) == Sum(s.consumers, ConsumerRechecks) + ConsumerRechecks(c)
            && Sum(cs, ConsumerSignals) + ConsumerSignals(d) == Sum(s.consumers, ConsumerSignals) + ConsumerSignals(c)
  {
    SumUpdate(s.consumers, j, c, ConsumerSleeps);
    SumUpdate(s.consumers, j, c, ConsumerRechecks);
    SumUpdate(s.consumers, j, c, ConsumerSignals);
  }

  lemma NobodySleeps<T>(s: State<T>)
    ensures WakesConsumer(s.consumers, None) ==> SleepingConsumers(s) == 0
    ensures WakesProducer(s.producers, None) ==> SleepingProducers(s) == 0
  {
    if WakesConsumer(s.consumers, None) {
      SumZero(s.consumers, ConsumerSleeps);
    }
    if WakesProducer(s.producers, None) {
      SumZero(s.producers, ProducerSleeps);
    }
  }

  lemma ProducerKeepsWakeups<T>(s: State<T>, i: nat, w: Option<nat>)
    requires Safe(s) && Enabled(s, Produce(i, w))
    ensures NoLostWakeup(ProducerMove(s, i, w))
  {
    var t := ProducerMove(s, i, w);
    if s.producers[i].pc.Signalling? {
      NobodySleeps(s);
      var m := WakeConsumer(s, w);
      if w.Some? {
        ConsumerCounts(s, w.value, Woken);
      }
      ProducerCounts(m, i, t.producers[i]);
    } else {
      ProducerCounts(s, i, t.producers[i]);
    }
  }

  lemma ConsumerKeepsWakeups<T>(s: State<T>, j: nat, w: Option<nat>)
    requires Safe(s) && Enabled(s, Consume(j, w))
    ensures NoLostWakeup(ConsumerMove(s, j, w))
  {
    var t := ConsumerMove(s, j, w);
    if s.consumers[j].Signalling? {
      NobodySleeps(s);
      var m := WakeProducer(s, w);
      if w.Some? {
        ProducerCounts(s, w.value, s.producers[w.value].(pc := Woken));
      }
      ConsumerCounts(m, j, t.consumers[j]);
    } else {
      ConsumerCounts(s, j, t.consumers[j]);
    }
  }

  lemma SpuriousKeepsWakeups<T>(s: State<T>, a: Action)
    requires Safe(s) && Enabled(s, a) && Spurious(a)
    ensures NoLostWakeup(Next(s, a))
  {
    if a.SpuriousProducer? {
      ProducerCounts(s, a.i, s.producers[a.i].(pc := Woken));
    } else {
      ConsumerCounts(s, a.j, Woken);
    }
  }

  lemma ProducerKeepsShape<T>(s: State<T>, i: nat, w: Option<nat>)
    requires Shaped(s) && Enabled(s, Produce(i, w))
    ensures Shaped(ProducerMove(s, i, w))
  {
  }

  lemma ConsumerKeepsShape<T>(s: State<T>, j: nat, w: Option<nat>)
    requires Shaped(s) && Enabled(s, Consume(j, w))
    ensures Shaped(ConsumerMove(s, j, w))
  {
  }

  lemma StepKeepsShape<T>(s: State<T>, a: Action)
    requires Shaped(s) && Enabled(s, a)
    ensures Shaped(Next(s, a))
  {
    match a {
      case Produce(i, w) => ProducerKeepsShape(s, i, w);
      case Consume(j, w) => ConsumerKeepsShape(s, j, w);
      case _ =>
    }
  }

  lemma StepKeepsSafe<T>(s: State<T>, a: Action)
    requires Safe(s) && Enabled(s, a)
    ensures Safe(Next(s, a))
  {
    StepKeepsShape(s, a);
    match a {
      case Produce(i, w) => ProducerKeepsWakeups(s, i, w);
      case Consume(j, w) => ConsumerKeepsWakeups(s, j, w);
      case _ => SpuriousKeepsWakeups(s, a);
    }
  }

  lemma {:induction false} RunKeepsSafe<T>(s: State<T>, acts: seq<Action>)
    requires Safe(s) && IsRun(s, acts)
    ensures Safe(After(s, acts))
    decreases |acts|
  {
    if acts != [] {
      StepKeepsSafe(s, acts[0]);
      RunKeepsSafe(Next(s, acts[0]), acts[1..]);
    }
  }

  lemma InitSafe<T>(programs: seq<seq<T>>, consumers: nat)
    ensures Safe(Init(programs, consumers))
  {
    SumZero(Init(programs, consumers).producers, ProducerSleeps);
    SumZero(Init(programs, consumers).consumers, ConsumerSleeps);
  }
}
