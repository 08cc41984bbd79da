/** The bounded command queue of src/transport.c as a protocol: any number of producer threads in
    `bitu_queue_add`, any number of consumer threads in `bitu_queue_consume`, one mutex and the
    condition variables not_full and not_empty, with the signal sent after the unlock.

    `pthread_cond_wait` releases the mutex and falls asleep in one step, a signal wakes one
    sleeper when there is one, and a sleeper may wake up without a signal. */
module CommandQueue {
  import opened Options

  const COMMAND_QUEUE_SIZE := 10

  // ------------------------------------------------------------------ the list

  /** The list has the newest element at its head; `ta_list_pop` takes the tail. */
  function Prepend<T>(list: seq<T>, x: T): seq<T> {
    [x] + list
  }

  function Oldest<T>(list: seq<T>): T
    requires list != []
  {
    list[|list| - 1]
  }

  function WithoutOldest<T>(list: seq<T>): seq<T>
    requires list != []
  {
    list[..|list| - 1]
  }

  /** The queue as its own fields, touched only between lock and unlock. */
  class Queue<T> {
    var list: seq<T>
    const maxsize: nat

    constructor ()
      ensures list == [] && maxsize == 10
    {
      list := [];
      maxsize := COMMAND_QUEUE_SIZE;
    }

    /** `bitu_queue_add` between lock and unlock; false stands for going to sleep on not_full. */
    method TryAdd(data: T) returns (added: bool)
      modifies this
      ensures added <==> old(|list|) < maxsize
      ensures list == if added then [data] + old(list) else old(list)
    {
      added := |list| < maxsize;
      if added {
        list := Prepend(list, data);
      }
    }

    /** `_bitu_queue_pop`: None is the NULL of an empty list. */
    method Pop() returns (data: Option<T>)
      modifies this
      ensures old(list) == [] ==> data == None && list == []
      ensures old(list) != [] ==>
                var last := |old(list)| - 1; data == Some(old(list)[last]) && list == old(list)[..last]
    {
      if list == [] {
        data := None;
      } else {
        data := Some(list[|list| - 1]);
        list := list[..|list| - 1];
      }
    }
  }

  // --------------------------------------------------------------- the threads

  /** Where a thread stands. A producer goes Idle, Locking, Checking, Unlocking, Signalling; a
      consumer Locking, Checking, Calling, Unlocking, Signalling; both may sleep when checking, and
      check again when woken. */
  datatype Pc<T> =
    | Idle
    | Locking
    | Checking(again: bool)  // after a wakeup, or for the first time
    | Asleep
    | Woken
    | Calling(item: T)
    | Unlocking
    | Signalling

  datatype Producer<T> = Producer(pc: Pc<T>, todo: seq<T>)

  datatype Owner = Nobody | ByProducer(i: nat) | ByConsumer(j: nat)

  /** An add, with the producer that made it. */
  datatype Added<T> = Added(producer: nat, item: T)

  /** `order` records the adds as they took the lock, `executed` the items whose callback returned. */
  datatype State<T> = State(
    maxsize: nat,
    list: seq<T>,
    owner: Owner,
    producers: seq<Producer<T>>,
    consumers: seq<Pc<T>>,
    order: seq<Added<T>>,
    executed: seq<T>)

  /** A producer or a consumer makes its next move; a signal says which sleeper it wakes. */
  datatype Action =
    | Produce(i: nat, wakes: Option<nat>)
    | Consume(j: nat, wakes: Option<nat>)
    | SpuriousProducer(i: nat)
    | SpuriousConsumer(j: nat)

  predicate Spurious(a: Action) {
    a.SpuriousProducer? || a.SpuriousConsumer?
  }

  function ConsumerSleeps<T>(pc: Pc<T>): nat { if pc.Asleep? then 1 else 0 }

  function ProducerSleeps<T>(p: Producer<T>): nat { if p.pc.Asleep? then 1 else 0 }

  /** A signal wakes one sleeper, and none only when nobody sleeps. */
  predicate WakesConsumer<T>(consumers: seq<Pc<T>>, w: Option<nat>) {
    if w.Some? then
      w.value < |consumers| && consumers[w.value].Asleep?
    else
      forall j :: 0 <= j < |consumers| ==> !consumers[j].Asleep?
  }

  predicate WakesProducer<T>(producers: seq<Producer<T>>, w: Option<nat>) {
    if w.Some? then
      w.value < |producers| && producers[w.value].pc.Asleep?
    else
      forall i :: 0 <= i < |producers| ==> !producers[i].pc.Asleep?
  }

  predicate Enabled<T>(s: State<T>, a: Action) {
    match a
    case Produce(i, w) =>
      i < |s.producers| &&
      (match s.producers[i].pc
       case Idle => s.producers[i].todo != []
       case Locking => s.owner == Nobody
       case Woken => s.owner == Nobody
       case Checking(_) => s.producers[i].todo != []
       case Unlocking => true
       case Signalling => WakesConsumer(s.consumers, w)
       case _ => false)
    case Consume(j, w) =>
      j < |s.consumers| &&
      (match s.consumers[j]
       case Locking => s.owner == Nobody
       case Woken => s.owner == Nobody
       case Checking(_) => true
       case Calling(_) => true
       case Unlocking => true
       case Signalling => WakesProducer(s.producers, w)
       case _ => false)
    case SpuriousProducer(i) => i < |s.producers| && s.producers[i].pc.Asleep?
    case SpuriousConsumer(j) => j < |s.consumers| && s.consumers[j].Asleep?
  }

  function SetProducer<T>(s: State<T>, i: nat, pc: Pc<T>): State<T>
    requires i < |s.producers|
  {
    s.(producers := s.producers[i := s.producers[i].(pc := pc)])
  }

  function SetConsumer<T>(s: State<T>, j: nat, pc: Pc<T>): State<T>
    requires j < |s.consumers|
  {
    s.(consumers := s.consumers[j := pc])
  }

  /** The producer holding the mutex tests for room: it sleeps on not_full or prepends. */
  function ProducerCheck<T>(s: State<T>, i: nat): State<T>
    requires i < |s.producers| && s.producers[i].todo != []
  {
    if |s.list| >= s.maxsize then
      SetProducer(s, i, Asleep).(owner := Nobody)
    else
      var p := s.producers[i];
      s.(list := Prepend(s.list, p.todo[0]),
         order := s.order + [Added(i, p.todo[0])],
         producers := s.producers[i := Producer(Unlocking, p.todo[1..])])
  }

  /** The consumer holding the mutex tests for work: it sleeps on not_empty or pops. */
  function ConsumerCheck<T>(s: State<T>, j: nat): State<T>
    requires j < |s.consumers|
  {
    if |s.list| == 0 then
      SetConsumer(s, j, Asleep).(owner := Nobody)
    else
      SetConsumer(s, j, Calling(Oldest(s.list))).(list := WithoutOldest(s.list))
  }

  function WakeConsumer<T>(s: State<T>, w: Option<nat>): State<T>
    requires WakesConsumer(s.consumers, w)
  {
    if w.Some? then SetConsumer(s, w.value, Woken) else s
  }

  function WakeProducer<T>(s: State<T>, w: Option<nat>): State<T>
    requires WakesProducer(s.producers, w)
  {
    if w.Some? then SetProducer(s, w.value, Woken) else s
  }

  function ProducerMove<T>(s: State<T>, i: nat, w: Option<nat>): State<T>
    requires Enabled(s, Produce(i, w))
  {
    match s.producers[i].pc
    case Idle => SetProducer(s, i, Locking)
    case Checking(_) => ProducerCheck(s, i)
    case Unlocking => SetProducer(s, i, Signalling).(owner := Nobody)
    case Signalling => SetProducer(WakeConsumer(s, w), i, Idle)
    case pc => SetProducer(s, i, Checking(pc.Woken?)).(owner := ByProducer(i))
  }

  function ConsumerMove<T>(s: State<T>, j: nat, w: Option<nat>): State<T>
    requires Enabled(s, Consume(j, w))
  {
    match s.consumers[j]
    case Checking(_) => ConsumerCheck(s, j)
    case Calling(item) => SetConsumer(s, j, Unlocking).(executed := s.executed + [item])
    case Unlocking => SetConsumer(s, j, Signalling).(owner := Nobody)
    case Signalling => SetConsumer(WakeProducer(s, w), j, Locking)
    case pc => SetConsumer(s, j, Checking(pc.Woken?)).(owner := ByConsumer(j))
  }

  function Next<T>(s: State<T>, a: Action): State<T>
    requires Enabled(s, a)
  {
    match a
    case Produce(i, w) => ProducerMove(s, i, w)
    case Consume(j, w) => ConsumerMove(s, j, w)
    case SpuriousProducer(i) => SetProducer(s, i, Woken)
    case SpuriousConsumer(j) => SetConsumer(s, j, Woken)
  }

  /** The queue as created, with each producer about to add the items of its program. */
  function Init<T>(programs: seq<seq<T>>, consumers: nat): State<T> {
    State(COMMAND_QUEUE_SIZE, [], Nobody,
          seq(|programs|, i requires 0 <= i < |programs| => Producer(Idle, programs[i])),
          seq(consumers, _ => Locking), [], [])
  }

  predicate IsRun<T>(s: State<T>, acts: seq<Action>)
    decreases |acts|
  {
    acts == [] || (Enabled(s, acts[0]) && IsRun(Next(s, acts[0]), acts[1..]))
  }

  function After<T>(s: State<T>, acts: seq<Action>): State<T>
    requires IsRun(s, acts)
    decreases |acts|
  {
    if acts == [] then s else After(Next(s, acts[0]), acts[1..])
  }
}
