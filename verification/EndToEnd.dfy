/** From the shell to the hash table: requests are printed, read, put into the bounded queue by any
    number of producers, and executed in order on the table of the environment; every `get` answers
    the last `set` before it. */
module EndToEnd {
  import opened Options
  import opened Util
  import opened Shell
  import opened RoundTrip
  import opened CommandQueue
  import opened QueueSafety
  import opened QueueDelivery
  import opened App

  datatype Request = SetVar(key: string, value: string) | GetVar(key: string) | UnsetVar(key: string)

  function Words(r: Request): (string, seq<string>) {
    match r
    case SetVar(k, v) => ("set", [k, v])
    case GetVar(k) => ("get", [k])
    case UnsetVar(k) => ("unset", [k])
  }

  /** What the shell sends for a request. */
  function Printed(r: Request): string {
    CommandLine(Words(r).0, Words(r).1)
  }

  /** The request lies in the domain on which printing and reading undo each other. */
  predicate Sendable(r: Request) {
    Printable(Words(r).0, Words(r).1)
  }

  predicate AllSendable(requests: seq<Request>) {
    forall i :: 0 <= i < |requests| ==> Sendable(requests[i])
  }

  /** The command that `bitu_command_new` makes of it. */
  function CommandOf(r: Request): Parsed {
    Parse(Printed(r))
  }

  function Commands(requests: seq<Request>): seq<Parsed> {
    seq(|requests|, i requires 0 <= i < |requests| => CommandOf(requests[i]))
  }

  /** The value of the last set of the key that no unset follows. */
  function LastSet(requests: seq<Request>, key: string): Option<string> {
    if requests == [] then
      None
    else
      var head := requests[..|requests| - 1];
      match requests[|requests| - 1]
      case SetVar(k, v) => if k == key then Some(v) else LastSet(head, key)
      case UnsetVar(k) => if k == key then None else LastSet(head, key)
      case GetVar(_) => LastSet(head, key)
  }

  /** A request that sets or unsets the key. */
  predicate Names(r: Request, key: string) {
    !r.GetVar? && r.key == key
  }

  /** The history answers with the value of the last request that names the key, if that was a set. */
  lemma {:induction false} LastSetMeans(requests: seq<Request>, key: string, i: nat)
    requires i < |requests| && Names(requests[i], key) && forall j :: i < j < |requests| ==> !Names(requests[j], key)
    ensures LastSet(requests, key) == if requests[i].SetVar? then Some(requests[i].value) else None
  {
    if i + 1 < |requests| {
      assert !Names(requests[|requests| - 1], key);
      LastSetMeans(requests[..|requests| - 1], key, i);
    }
  }

  lemma {:induction false} NeverSet(requests: seq<Request>, key: string)
    requires forall j :: 0 <= j < |requests| ==> !Names(requests[j], key)
    ensures LastSet(requests, key) == None
  {
    if requests != [] {
      assert !Names(requests[|requests| - 1], key);
      NeverSet(requests[..|requests| - 1], key);
    }
  }

  /** What a request answers, given the requests executed before it. */
  function Answer(before: seq<Request>, r: Request): Output {
    if r.GetVar? && LastSet(before, r.key).Some? then Text(LastSet(before, r.key).value) else Nothing
  }

  /** What requests answer, one after the other, after those before them. */
  function Answers(before: seq<Request>, requests: seq<Request>): seq<Output> {
    seq(|requests|, i requires 0 <= i < |requests| => Answer(before + requests[..i], requests[i]))
  }

  ghost predicate Agrees(env: Env, requests: seq<Request>) {
    forall k :: (k in env <==> LastSet(requests, k).Some?) && (k in env ==> LastSet(requests, k) == Some(env[k]))
  }

  lemma SendableIsParsed(r: Request)
    ensures Sendable(r) <==> Parse(Printed(r)) == Parsed(Words(r).0, Words(r).1)
  {
    RoundTrip.RoundTrip(Words(r).0, Words(r).1);
  }

  /** The effect of a request on the variables. */
  function Effect(env: Env, r: Request): Env {
    match r
    case SetVar(k, v) => env[k := v]
    case UnsetVar(k) => env - {k}
    case GetVar(_) => env
  }

  /** The variables that requests make of an empty environment. */
  function Vars(requests: seq<Request>): Env {
    if requests == [] then map[] else Effect(Vars(requests[..|requests| - 1]), requests[|requests| - 1])
  }

  /** They are what the history says. */
  lemma {:induction false} VarsAgree(requests: seq<Request>)
    ensures Agrees(Vars(requests), requests)
  {
    if requests != [] {
      VarsAgree(requests[..|requests| - 1]);
    }
  }

  lemma VarsNext(before: seq<Request>, r: Request)
    ensures Vars(before + [r]) == Effect(Vars(before), r)
  {
    assert (before + [r])[..|before|] == before;
  }

  lemma OneMore(before: seq<Request>, requests: seq<Request>, r: Request)
    ensures before + requests + [r] == before + (requests + [r])
  {
  }

  lemma AnswersNext(before: seq<Request>, requests: seq<Request>, r: Request)
    ensures Answers(before, requests + [r]) == Answers(before, requests) + [Answer(before + requests, r)]
  {
    var now := requests + [r];
    assert now[..|requests|] == requests;
    forall i | 0 <= i < |requests| ensures Answers(before, now)[i] == Answers(before, requests)[i] {
      assert now[..i] == requests[..i];
    }
  }

  /** At no time are there more variables than the limit. */
  ghost predicate FitsAfter(before: seq<Request>, requests: seq<Request>, limit: nat) {
    forall i :: 0 <= i <= |requests| ==> |Vars(before + requests[..i])| <= limit
  }

  // ---------------------------------------------------------- on the commands

  /** The command of a request, executed, has its effect; a `get` answers from the environment. */
  lemma ExecWords(env: Env, r: Request)
    ensures ExecHandler(env, HandlerOf(Words(r).0), Words(r).1)
         == (Effect(env, r), if r.GetVar? && r.key in env then Text(env[r.key]) else Nothing)
  {
    HandlersByName();
  }

  /** One printed request, read and executed, has its effect and answers from the history. */
  lemma PrintedLine(before: seq<Request>, r: Request)
    requires Sendable(r)
    ensures CommandOf(r).Parsed?
    ensures ExecParsed(Vars(before), CommandOf(r)) == (Vars(before + [r]), Answer(before, r))
  {
    SendableIsParsed(r);
    ExecWords(Vars(before), r);
    VarsAgree(before);
    VarsNext(before, r);
  }

  lemma CommandsNext(requests: seq<Request>, r: Request)
    ensures Commands(requests + [r]) == Commands(requests) + [CommandOf(r)]
  {
  }

  lemma OneMoreCommand(env: Env, commands: seq<Parsed>, command: Parsed, was: Env, now: Env, out: Output)
    requires AllParsed(commands) && command.Parsed?
    requires EnvAfter(env, commands) == was && ExecParsed(was, command) == (now, out)
    ensures AllParsed(commands + [command]) && EnvAfter(env, commands + [command]) == now
    ensures Outputs(env, commands + [command]) == Outputs(env, commands) + [out]
  {
    assert AllParsed(commands + [command]);
    NextOutput(env, commands, command);
  }

  /** What a queue of printed requests must do to the variables, and answer. */
  ghost predicate Executes(before: seq<Request>, requests: seq<Request>) {
    && AllParsed(Commands(requests))
    && EnvAfter(Vars(before), Commands(requests)) == Vars(before + requests)
    && Outputs(Vars(before), Commands(requests)) == Answers(before, requests)
  }

  lemma NothingExecuted(before: seq<Request>)
    ensures Executes(before, [])
  {
    assert before + [] == before;
  }

  lemma ExecutedNext(before: seq<Request>, head: seq<Request>, last: Request)
    requires Executes(before, head) && Sendable(last)
    ensures Executes(before, head + [last])
  {
    PrintedLine(before + head, last);
    OneMoreCommand(Vars(before), Commands(head), CommandOf(last), Vars(before + head), Vars(before + head + [last]),
                Answer(before + head, last));
    CommandsNext(head, last);
    AnswersNext(before, head, last);
    OneMore(before, head, last);
  }

  /** A queue of printed requests, consumed, gives the answers of the history. */
  lemma {:induction false} ExecutedAnswers(before: seq<Request>, requests: seq<Request>)
    requires AllSendable(requests)
    ensures Executes(before, requests)
  {
    if requests == [] {
      NothingExecuted(before);
    } else {
      var head, last := requests[..|requests| - 1], requests[|requests| - 1];
      ExecutedAnswers(before, head);
      ExecutedNext(before, head, last);
      assert requests == head + [last];
    }
  }

  // -------------------------------------------------------- on the hash table

  /** The command of a printed request on the program: it is executed on the hash table. */
  method ExecPrinted(p: Program, command: Parsed, ghost before: seq<Request>, ghost r: Request) returns (out: Output)
    requires p.Valid() && p.Environment() == Vars(before) && Sendable(r) && command == CommandOf(r)
    requires |Vars(before + [r])| <= p.MaxSize()
    modifies p.Repr()
    ensures p.Valid() && p.Environment() == Vars(before + [r]) && out == Answer(before, r)
    ensures forall o :: o in p.Repr() ==> o in old(p.Repr()) || fresh(o)
  {
    PrintedLine(before, r);
    out := p.ExecCommand(command);
  }

  /** What the shell prints for a request. */
  method Print(r: Request) returns (line: string)
    ensures line == Printed(r)
  {
    var words := Words(r);
    line := AssembleCommandLine([words.0] + words.1);
    assert ([words.0] + words.1)[1..] == words.1;
  }

  /** The same while the program stands by. */
  method PrintBeside(p: Program, r: Request) returns (line: string)
    requires p.Valid()
    ensures line == Printed(r)
    ensures p.Valid() && p.Environment() == old(p.Environment()) && p.Repr() == old(p.Repr())
  {
    line := Print(r);
  }

  lemma PrefixNext(before: seq<Request>, requests: seq<Request>, i: nat)
    requires i < |requests|
    ensures before + requests[..i] + [requests[i]] == before + requests[..i + 1]
  {
  }

  lemma PrefixAnswers(before: seq<Request>, requests: seq<Request>, i: nat)
    requires i < |requests|
    ensures Answers(before, requests[..i + 1])
         == Answers(before, requests[..i]) + [Answer(before + requests[..i], requests[i])]
  {
    assert requests[..i] + [requests[i]] == requests[..i + 1];
    AnswersNext(before, requests[..i], requests[i]);
  }

  /** The request at position i, printed and executed. */
  method LoadAt(p: Program, ghost before: seq<Request>, requests: seq<Request>, i: nat) returns (out: Output)
    requires i < |requests| && Sendable(requests[i])
    requires p.Valid() && p.Environment() == Vars(before + requests[..i])
    requires |Vars(before + requests[..i + 1])| <= p.MaxSize()
    modifies p.Repr()
    ensures p.Valid() && p.Environment() == Vars(before + requests[..i + 1])
    ensures out == Answer(before + requests[..i], requests[i])
    ensures forall o :: o in p.Repr() ==> o in old(p.Repr()) || fresh(o)
  {
    PrefixNext(before, requests, i);
    var line := PrintBeside(p, requests[i]);
    var command := p.NewCommand(line);
    out := ExecPrinted(p, command, before + requests[..i], requests[i]);
  }

  /** `bitu_app_load_config` on the lines of requests: one after the other, on the hash table. */
  method LoadConfig(p: Program, ghost before: seq<Request>, requests: seq<Request>) returns (answers: seq<Output>)
    requires p.Valid() && p.Environment() == Vars(before) && AllSendable(requests)
    requires FitsAfter(before, requests, p.MaxSize())
    modifies p.Repr()
    ensures p.Valid() && p.Environment() == Vars(before + requests)
    ensures answers == Answers(before, requests)
    ensures forall o :: o in p.Repr() ==> o in old(p.Repr()) || fresh(o)
  {
    answers := [];
    NothingLoaded(before, requests);
    for i := 0 to |requests|
      invariant p.Valid() && p.Environment() == Vars(before + requests[..i])
      invariant answers == Answers(before, requests[..i])
      invariant forall o :: o in p.Repr() ==> o in old(p.Repr()) || fresh(o)
    {
      var out := LoadAt(p, before, requests, i);
      PrefixAnswers(before, requests, i);
      answers := answers + [out];
    }
  }

  lemma NothingLoaded(before: seq<Request>, requests: seq<Request>)
    ensures before + requests[..0] == before && Answers(before, requests[..0]) == []
    ensures requests[..|requests|] == requests
  {
  }

  // --------------------------------------------------------- through the queue

  lemma {:induction false} ItemsComeFromPrograms<T>(order: seq<Added<T>>, k: nat)
    requires k < |order|
    ensures order[k].item in ItemsOf(order, order[k].producer)
    ensures |Items(order)| == |order| && Items(order)[k] == order[k].item
  {
    var n := |order| - 1;
    if k < n {
      ItemsComeFromPrograms(order[..n], k);
    } else {
      ItemsLength(order[..n]);
    }
  }

  lemma {:induction false} ItemsLength<T>(order: seq<Added<T>>)
    ensures |Items(order)| == |order|
  {
    if order != [] {
      ItemsLength(order[..|order| - 1]);
    }
  }

  /** Whatever has been executed was in the program of the producer that added it. */
  lemma ExecutedIsFromPrograms(programs: seq<seq<Request>>, s: State<Request>, r: Request)
    requires Sound(s, programs) && r in s.executed
    ensures exists p :: 0 <= p < |programs| && r in programs[p]
  {
    ItemsLength(s.order);
    var k :| 0 <= k < |s.executed| && s.executed[k] == r;
    assert Items(s.order)[k] == r;
    ItemsComeFromPrograms(s.order, k);
    var p := s.order[k].producer;
    assert ItemsOf(s.order, p) + s.producers[p].todo == programs[p];
    assert r in programs[p];
  }

  /** So what has been executed can be sent, if the programs can. */
  lemma ExecutedIsSendable(programs: seq<seq<Request>>, s: State<Request>)
    requires Sound(s, programs) && forall i :: 0 <= i < |programs| ==> AllSendable(programs[i])
    ensures AllSendable(s.executed)
  {
    forall k | 0 <= k < |s.executed| ensures Sendable(s.executed[k]) {
      ExecutedIsFromPrograms(programs, s, s.executed[k]);
    }
  }

  // -------------------------------------------------------------- the room

  /** The keys that requests set. */
  ghost function SetKeys(requests: seq<Request>): set<string> {
    set r | r in requests && r.SetVar? :: r.key
  }

  ghost function AllSetKeys(programs: seq<seq<Request>>): set<string> {
    set program, r | program in programs && r in program && r.SetVar? :: r.key
  }

  lemma {:induction false} VarsWereSet(requests: seq<Request>)
    ensures Vars(requests).Keys <= SetKeys(requests)
  {
    if requests != [] {
      var n := |requests| - 1;
      VarsWereSet(requests[..n]);
      assert requests[n] in requests;
      assert SetKeys(requests[..n]) <= SetKeys(requests);
    }
  }

  lemma SubsetSize<T>(a: set<T>, b: set<T>)
    requires a <= b
    ensures |a| <= |b|
  {
    assert b == a + (b - a);
  }

  /** When the configuration and the programs set no more distinct keys than the limit, no run of theirs
      ever exceeds it. */
  lemma FewKeysFit(config: seq<Request>, programs: seq<seq<Request>>, consumers: nat, acts: seq<Action>, limit: nat)
    requires IsRun(Init(programs, consumers), acts)
    requires |SetKeys(config) + AllSetKeys(programs)| <= limit
    ensures FitsAfter(config, After(Init(programs, consumers), acts).executed, limit)
  {
    var s := After(Init(programs, consumers), acts);
    InitSound(programs, consumers);
    RunKeepsSound(Init(programs, consumers), acts, programs);
    forall i | 0 <= i <= |s.executed| ensures |Vars(config + s.executed[..i])| <= limit {
      var done := config + s.executed[..i];
      forall r | r in done && r.SetVar? ensures r.key in SetKeys(config) + AllSetKeys(programs) {
        if r !in config {
          ExecutedIsFromPrograms(programs, s, r);
        }
      }
      VarsWereSet(done);
      SubsetSize(Vars(done).Keys, SetKeys(config) + AllSetKeys(programs));
    }
  }

  // ---------------------------------------------------------- the whole system

  /** The queue object holds the commands of the requests in the protocol's list. */
  ghost predicate Mirrors(queue: Queue<Parsed>, s: State<Request>)
    reads queue
  {
    queue.list == Commands(s.list) && queue.maxsize == s.maxsize
  }

  /** The command is the one whose callback runs, if one does. */
  ghost predicate RunsCommand(command: Parsed, s: State<Request>) {
    InCallback(s) != [] ==> command == CommandOf(InCallback(s)[0])
  }

  /** The request printed, and its line cut into words. */
  method MakeCommand(r: Request) returns (command: Parsed)
    ensures command == CommandOf(r)
  {
    var line := Print(r);
    command := ExtractParams(line);
  }

  lemma CommandsPrepend(list: seq<Request>, r: Request)
    ensures Commands(Prepend(list, r)) == [CommandOf(r)] + Commands(list)
  {
  }

  lemma CommandsPop(list: seq<Request>)
    requires list != []
    ensures |Commands(list)| == |list| && Commands(WithoutOldest(list)) == Commands(list)[..|list| - 1]
    ensures Commands(list)[|list| - 1] == CommandOf(Oldest(list))
  {
  }

  /** What the check of a producer does to the list. */
  lemma CheckAdds(s: State<Request>, i: nat)
    requires i < |s.producers| && s.producers[i].todo != []
    ensures var t := ProducerCheck(s, i);
            && t.maxsize == s.maxsize
            && t.list == if |s.list| < s.maxsize then Prepend(s.list, s.producers[i].todo[0]) else s.list
  {
  }

  /** A producer under the lock: the request is printed, cut into words, and `TryAdd` does what the
      protocol says. */
  method AddStep(queue: Queue<Parsed>, s: State<Request>, i: nat)
    requires Mirrors(queue, s) && i < |s.producers| && s.producers[i].todo != []
    modifies queue
    ensures Mirrors(queue, ProducerCheck(s, i))
  {
    var r := s.producers[i].todo[0];
    CommandsPrepend(s.list, r);
    CheckAdds(s, i);
    var command := MakeCommand(r);
    var added := queue.TryAdd(command);
  }

  /** A consumer under the lock: `Pop` does what the protocol says. */
  method PopStep(queue: Queue<Parsed>, s: State<Request>, j: nat) returns (command: Parsed)
    requires Mirrors(queue, s) && j < |s.consumers|
    modifies queue
    ensures Mirrors(queue, ConsumerCheck(s, j))
    ensures s.list != [] ==> command == CommandOf(Oldest(s.list))
  {
    if s.list != [] {
      CommandsPop(s.list);
    }
    var data := queue.Pop();
    command := if data.Some? then data.value else Failed;
  }

  /** The moves of the other kinds leave list and callback alone, or end the callback. */
  lemma OtherMoves(s: State<Request>, a: Action, command: Parsed)
    requires Safe(s) && Enabled(s, a) && RunsCommand(command, s)
    requires !(a.Produce? && s.producers[a.i].pc.Checking?) && !(a.Consume? && s.consumers[a.j].Checking?)
    ensures Next(s, a).list == s.list && Next(s, a).maxsize == s.maxsize && RunsCommand(command, Next(s, a))
  {
    match a {
      case Produce(i, w) => OtherProducerMoves(s, i, w);
      case Consume(j, w) => OtherConsumerMoves(s, j, w);
      case _ =>
    }
  }

  lemma OtherProducerMoves(s: State<Request>, i: nat, w: Option<nat>)
    requires Safe(s) && Enabled(s, Produce(i, w)) && !s.producers[i].pc.Checking?
    ensures var t := ProducerMove(s, i, w);
            t.list == s.list && t.maxsize == s.maxsize && (InCallback(t) == [] || InCallback(t) == InCallback(s))
  {
  }

  lemma OtherConsumerMoves(s: State<Request>, j: nat, w: Option<nat>)
    requires Safe(s) && Enabled(s, Consume(j, w)) && !s.consumers[j].Checking?
    ensures var t := ConsumerMove(s, j, w);
            t.list == s.list && t.maxsize == s.maxsize && (InCallback(t) == [] || InCallback(t) == InCallback(s))
  {
  }

  lemma CheckedMoves(s: State<Request>, a: Action, command: Parsed)
    requires Safe(s) && Enabled(s, a) && RunsCommand(command, s)
    ensures a.Produce? && s.producers[a.i].pc.Checking? ==> RunsCommand(command, Next(s, a))
    ensures a.Consume? && s.consumers[a.j].Checking? && s.list == [] ==> RunsCommand(command, Next(s, a))
    ensures a.Consume? && s.consumers[a.j].Checking? && s.list != [] ==> InCallback(Next(s, a)) == [Oldest(s.list)]
  {
  }

  /** Both again while the program stands by. */
  method AddBeside(p: Program, queue: Queue<Parsed>, s: State<Request>, i: nat)
    requires Mirrors(queue, s) && i < |s.producers| && s.producers[i].todo != []
    requires p.Valid() && queue as object !in p.Objects()
    modifies queue
    ensures Mirrors(queue, ProducerCheck(s, i))
    ensures p.Valid() && p.Environment() == old(p.Environment()) && p.Repr() == old(p.Repr())
  {
    AddStep(queue, s, i);
  }

  method PopBeside(p: Program, queue: Queue<Parsed>, s: State<Request>, j: nat) returns (command: Parsed)
    requires Mirrors(queue, s) && j < |s.consumers|
    requires p.Valid() && queue as object !in p.Objects()
    modifies queue
    ensures Mirrors(queue, ConsumerCheck(s, j))
    ensures s.list != [] ==> command == CommandOf(Oldest(s.list))
    ensures p.Valid() && p.Environment() == old(p.Environment()) && p.Repr() == old(p.Repr())
  {
    command := PopStep(queue, s, j);
  }

  /** Every action of the protocol, as far as the queue object is concerned. */
  method QueueStep(p: Program, queue: Queue<Parsed>, s: State<Request>, a: Action, running: Parsed)
      returns (command: Parsed)
    requires Safe(s) && Enabled(s, a) && Mirrors(queue, s) && RunsCommand(running, s)
    requires p.Valid() && queue as object !in p.Objects()
    modifies queue
    ensures Mirrors(queue, Next(s, a)) && RunsCommand(command, Next(s, a))
    ensures p.Valid() && p.Environment() == old(p.Environment()) && p.Repr() == old(p.Repr())
  {
    command := running;
    CheckedMoves(s, a, running);
    if a.Produce? && s.producers[a.i].pc.Checking? {
      AddBeside(p, queue, s, a.i);
    } else if a.Consume? && s.consumers[a.j].Checking? {
      var popped := PopBeside(p, queue, s, a.j);
      command := if s.list != [] then popped else running;
    } else {
      OtherMoves(s, a, running);
    }
  }

  /** The action in which a callback returns. */
  predicate Returns(s: State<Request>, a: Action) {
    a.Consume? && a.j < |s.consumers| && s.consumers[a.j].Calling?
  }

  lemma ReturnsExecuted(s: State<Request>, a: Action)
    requires Safe(s) && Enabled(s, a)
    ensures Next(s, a).executed == s.executed + if Returns(s, a) then InCallback(s) else []
    ensures Returns(s, a) ==> |InCallback(s)| == 1
  {
  }

  /** A callback on the command that was popped. */
  method CallbackStep(p: Program, ghost config: seq<Request>, ghost executed: seq<Request>, ghost r: Request,
                      command: Parsed)
      returns (out: Output)
    requires Sendable(r) && command == CommandOf(r)
    requires p.Valid() && p.Environment() == Vars(config + executed)
    requires |Vars(config + (executed + [r]))| <= p.MaxSize()
    modifies p.Repr()
    ensures p.Valid() && p.Environment() == Vars(config + (executed + [r]))
    ensures Answers(config, executed + [r]) == Answers(config, executed) + [out]
    ensures forall o :: o in p.Repr() ==> o in old(p.Repr()) || fresh(o)
  {
    OneMore(config, executed, r);
    AnswersNext(config, executed, r);
    out := ExecPrinted(p, command, config + executed, r);
  }

  /** Every action, as far as the program is concerned: only a callback that returns does anything. */
  method ProgramStep(p: Program, ghost config: seq<Request>, ghost executed: seq<Request>, ghost calling: seq<Request>,
                     returning: bool, command: Parsed)
      returns (outputs: seq<Output>)
    requires returning ==> |calling| == 1 && Sendable(calling[0]) && command == CommandOf(calling[0])
    requires p.Valid() && p.Environment() == Vars(config + executed)
    requires returning ==> |Vars(config + (executed + calling))| <= p.MaxSize()
    modifies p.Repr()
    ensures var now := if returning then executed + calling else executed;
            && p.Valid() && p.Environment() == Vars(config + now)
            && Answers(config, now) == Answers(config, executed) + outputs
    ensures forall o :: o in p.Repr() ==> o in old(p.Repr()) || fresh(o)
  {
    outputs := [];
    if returning {
      assert calling == [calling[0]];
      var out := CallbackStep(p, config, executed, calling[0], command);
      outputs := [out];
    }
  }

  /** What has been executed stays executed. */
  lemma {:induction false} ExecutedGrows<T>(s: State<T>, acts: seq<Action>)
    requires IsRun(s, acts)
    ensures s.executed <= After(s, acts).executed
    decreases |acts|
  {
    if acts != [] {
      assert s.executed <= Next(s, acts[0]).executed;
      ExecutedGrows(Next(s, acts[0]), acts[1..]);
    }
  }

  /** A state on its way: the protocol's invariant holds, and the remaining actions lead to the end. */
  ghost predicate OnTrack(s: State<Request>, rest: seq<Action>, end: State<Request>, programs: seq<seq<Request>>) {
    Sound(s, programs) && IsRun(s, rest) && After(s, rest) == end
  }

  lemma Start(programs: seq<seq<Request>>, consumers: nat, config: seq<Request>)
    ensures var s := Init(programs, consumers);
            && Sound(s, programs) && InCallback(s) == [] && s.list == [] && s.executed == []
            && config + s.executed == config && Answers(config, s.executed) == []
  {
    InitSound(programs, consumers);
  }

  /** All that the next action needs: the invariant, requests that can be sent, and room. */
  lemma NextOnTrack(s: State<Request>, rest: seq<Action>, end: State<Request>, programs: seq<seq<Request>>,
                    config: seq<Request>, limit: nat)
    requires OnTrack(s, rest, end, programs) && rest != []
    requires (forall i :: 0 <= i < |programs| ==> AllSendable(programs[i])) && FitsAfter(config, end.executed, limit)
    ensures OnTrack(Next(s, rest[0]), rest[1..], end, programs)
    ensures var now := Next(s, rest[0]).executed; AllSendable(now) && |Vars(config + now)| <= limit
  {
    var t := Next(s, rest[0]);
    StepKeepsSafe(s, rest[0]);
    StepConserves(s, rest[0]);
    StepFollowsPrograms(s, rest[0], programs);
    ExecutedIsSendable(programs, t);
    ExecutedGrows(t, rest[1..]);
    assert end.executed[..|t.executed|] == t.executed;
  }

  lemma CallbackIsFine(s: State<Request>, a: Action, command: Parsed)
    requires Safe(s) && Enabled(s, a) && AllSendable(Next(s, a).executed) && RunsCommand(command, s)
    ensures Next(s, a).executed == if Returns(s, a) then s.executed + InCallback(s) else s.executed
    ensures Returns(s, a) ==>
              |InCallback(s)| == 1 && Sendable(InCallback(s)[0]) && command == CommandOf(InCallback(s)[0])
  {
    ReturnsExecuted(s, a);
    if Returns(s, a) {
      assert Sendable(Next(s, a).executed[|s.executed|]);
    }
  }

  /** The queue object and the program stand where the protocol does. */
  ghost predicate InStep(p: Program, queue: Queue<Parsed>, config: seq<Request>, s: State<Request>, command: Parsed)
    reads p, p.environment, p.environment.Repr(), p.commands, p.commands.Repr(), queue
  {
    && Mirrors(queue, s) && RunsCommand(command, s) && queue as object !in p.Objects()
    && p.Valid() && p.Environment() == Vars(config + s.executed)
  }

  /** The program moves, and the queue stands still. */
  method ProgramBeside(p: Program, queue: Queue<Parsed>, ghost config: seq<Request>, ghost executed: seq<Request>,
                       ghost calling: seq<Request>, returning: bool, command: Parsed)
      returns (outputs: seq<Output>)
    requires returning ==> |calling| == 1 && Sendable(calling[0]) && command == CommandOf(calling[0])
    requires p.Valid() && p.Environment() == Vars(config + executed) && queue as object !in p.Objects()
    requires returning ==> |Vars(config + (executed + calling))| <= p.MaxSize()
    modifies p.Repr()
    ensures var now := if returning then executed + calling else executed;
            && p.Valid() && p.Environment() == Vars(config + now)
            && Answers(config, now) == Answers(config, executed) + outputs
    ensures queue.list == old(queue.list) && queue as object !in p.Objects()
    ensures forall o :: o in p.Repr() ==> o in old(p.Repr()) || fresh(o)
  {
    outputs := ProgramStep(p, config, executed, calling, returning, command);
  }

  /** One action of any thread on the whole system. */
  method SystemStep(p: Program, queue: Queue<Parsed>, ghost config: seq<Request>, s: State<Request>, a: Action,
                    running: Parsed)
      returns (t: State<Request>, command: Parsed, outputs: seq<Output>)
    requires Safe(s) && Enabled(s, a) && AllSendable(Next(s, a).executed) && InStep(p, queue, config, s, running)
    requires |Vars(config + Next(s, a).executed)| <= p.MaxSize()
    modifies p.Repr(), queue
    ensures t == Next(s, a) && InStep(p, queue, config, t, command)
    ensures Answers(config, t.executed) == Answers(config, s.executed) + outputs
    ensures forall o :: o in p.Repr() ==> o in old(p.Repr()) || fresh(o)
  {
    CallbackIsFine(s, a, running);
    t := Next(s, a);
    command := QueueStep(p, queue, s, a, running);
    outputs := ProgramBeside(p, queue, config, s.executed, InCallback(s), Returns(s, a), running);
  }

  /** The next action of a run. */
  method StepOn(p: Program, queue: Queue<Parsed>, ghost config: seq<Request>, ghost programs: seq<seq<Request>>,
                s: State<Request>, rest: seq<Action>, ghost end: State<Request>, running: Parsed)
      returns (t: State<Request>, command: Parsed, outputs: seq<Output>)
    requires OnTrack(s, rest, end, programs) && rest != [] && InStep(p, queue, config, s, running)
    requires forall i :: 0 <= i < |programs| ==> AllSendable(programs[i])
    requires FitsAfter(config, end.executed, p.MaxSize())
    modifies p.Repr(), queue
    ensures OnTrack(t, rest[1..], end, programs) && InStep(p, queue, config, t, command)
    ensures Answers(config, t.executed) == Answers(config, s.executed) + outputs
    ensures forall o :: o in p.Repr() ==> o in old(p.Repr()) || fresh(o)
  {
    NextOnTrack(s, rest, end, programs, config, p.MaxSize());
    t, command, outputs := SystemStep(p, queue, config, s, rest[0], running);
  }

  /** `bitu_conn_manager_new` makes the queue; the program stands by. */
  method NewQueue(p: Program, ghost config: seq<Request>, ghost start: State<Request>) returns (queue: Queue<Parsed>)
    requires p.Valid() && p.Environment() == Vars(config + start.executed)
    requires start.list == [] && start.maxsize == COMMAND_QUEUE_SIZE && InCallback(start) == []
    ensures fresh(queue) && InStep(p, queue, config, start, Failed)
    ensures p.Repr() == old(p.Repr())
  {
    queue := new Queue<Parsed>();
  }

  /** The rest of a run, one action after the other. */
  method RunOn(p: Program, queue: Queue<Parsed>, ghost config: seq<Request>, ghost programs: seq<seq<Request>>,
               start: State<Request>, acts: seq<Action>, ghost end: State<Request>)
      returns (s: State<Request>, outputs: seq<Output>)
    requires OnTrack(start, acts, end, programs) && InStep(p, queue, config, start, Failed) && start.executed == []
    requires forall i :: 0 <= i < |programs| ==> AllSendable(programs[i])
    requires FitsAfter(config, end.executed, p.MaxSize())
    modifies p.Repr(), queue
    ensures s == end && Sound(s, programs)
    ensures p.Valid() && p.Environment() == Vars(config + s.executed) && outputs == Answers(config, s.executed)
    ensures forall o :: o in p.Repr() ==> o in old(p.Repr()) || fresh(o)
  {
    s, outputs := start, [];
    var running: Parsed, rest := Failed, acts;
    while rest != []
      invariant OnTrack(s, rest, end, programs) && InStep(p, queue, config, s, running)
      invariant outputs == Answers(config, s.executed)
      invariant forall o :: o in p.Repr() ==> o in old(p.Repr()) || fresh(o)
      decreases |rest|
    {
      var out;
      s, running, out := StepOn(p, queue, config, programs, s, rest, end, running);
      outputs := outputs + out;
      rest := rest[1..];
    }
  }

  lemma EndIsRight(s: State<Request>, programs: seq<seq<Request>>, config: seq<Request>)
    requires Sound(s, programs)
    ensures s.executed <= Items(s.order) && Agrees(Vars(config + s.executed), config + s.executed)
  {
    VarsAgree(config + s.executed);
  }

  /** Any run of the whole system, on a program whose variables were set by its configuration: the
      producers print requests, cut the lines into words and queue the commands, the consumers pop
      commands and execute them on the hash table, and the threads interleave as they like. The requests
      executed so far have been executed in the order of the adds, and each `get` among them has answered
      the last `set` of its key that no `unset` followed. */
  method EveryGetAnswersTheLastSet(p: Program, ghost config: seq<Request>, programs: seq<seq<Request>>,
                                   consumers: nat, acts: seq<Action>)
      returns (s: State<Request>, outputs: seq<Output>)
    requires p.Valid() && p.Environment() == Vars(config)
    requires forall i :: 0 <= i < |programs| ==> AllSendable(programs[i])
    requires IsRun(Init(programs, consumers), acts)
    requires FitsAfter(config, After(Init(programs, consumers), acts).executed, p.MaxSize())
    modifies p.Repr()
    ensures s == After(Init(programs, consumers), acts) && s.executed <= Items(s.order)
    ensures p.Valid() && Agrees(p.Environment(), config + s.executed)
    ensures outputs == Answers(config, s.executed)
  {
    Start(programs, consumers, config);
    var start := Init(programs, consumers);
    var queue := NewQueue(p, config, start);
    s, outputs := RunOn(p, queue, config, programs, start, acts, After(start, acts));
    EndIsRight(s, programs, config);
  }

  /** And when nothing moves any more, every request of every producer has been answered. */
  method EveryRequestIsAnswered(p: Program, ghost config: seq<Request>, programs: seq<seq<Request>>,
                                consumers: nat, acts: seq<Action>)
      returns (s: State<Request>, outputs: seq<Output>)
    requires p.Valid() && p.Environment() == Vars(config)
    requires forall i :: 0 <= i < |programs| ==> AllSendable(programs[i])
    requires IsRun(Init(programs, consumers), acts) && consumers > 0 && Stuck(After(Init(programs, consumers), acts))
    requires FitsAfter(config, After(Init(programs, consumers), acts).executed, p.MaxSize())
    modifies p.Repr()
    ensures s == After(Init(programs, consumers), acts) && s.executed == Items(s.order)
    ensures forall i :: 0 <= i < |programs| ==> ItemsOf(s.order, i) == programs[i]
    ensures p.Valid() && Agrees(p.Environment(), config + s.executed)
    ensures outputs == Answers(config, s.executed)
  {
    MaximalRunDelivers(programs, consumers, acts);
    s, outputs := EveryGetAnswersTheLastSet(p, config, programs, consumers, acts);
  }
}
