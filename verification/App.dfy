/** The commands of src/app.c on the environment, as the consumer of the queue executes them. */
module App {
  import opened Options
  import opened ListRing
  import opened Primes
  import opened Pairs
  import opened HashTables
  import Runs = HashTableRuns
  import opened HashUtils
  import opened Util
  import opened CommandQueue
  import opened QueueDelivery

  datatype Handler =
    | CmdHelp | CmdSet | CmdGet | CmdUnset | CmdEnv | CmdTransport | CmdLoad | CmdUnload | CmdSend
    | CmdList | CmdSetLogFile | CmdSetLogLevel | CmdSetLogUseColors

  /** Who handles a command. */
  function HandlerOf(name: string): Option<Handler> {
    if name == "help" then Some(CmdHelp)
    else if name == "set" then Some(CmdSet)
    else if name == "get" then Some(CmdGet)
    else if name == "unset" then Some(CmdUnset)
    else if name == "env" then Some(CmdEnv)
    else if name == "transport" then Some(CmdTransport)
    else if name == "load" then Some(CmdLoad)
    else if name == "unload" then Some(CmdUnload)
    else if name == "send" then Some(CmdSend)
    else if name == "list" then Some(CmdList)
    else if name == "set-log-file" then Some(CmdSetLogFile)
    else if name == "set-log-level" then Some(CmdSetLogLevel)
    else if name == "set-log-use-colors" then Some(CmdSetLogUseColors)
    else None
  }

  /** What a command answers: NULL, a text, the complaint of `_validate_num_params`, the answer of
      a command outside this model, or the report that nobody handles the line. */
  datatype Output =
    | Nothing
    | Text(text: string)
    | WrongCount(cmd: string, takes: nat, given: nat)
    | Elsewhere(handler: Handler)
    | NoHandler

  type Env = map<string, string>

  function ExecSet(env: Env, params: seq<string>): (Env, Output) {
    if |params| != 2 then (env, WrongCount("set", 2, |params|)) else (env[params[0] := params[1]], Nothing)
  }

  /** The complaint of `cmd_get` names the command "set". */
  function ExecGet(env: Env, params: seq<string>): (Env, Output) {
    if |params| != 1 then
      (env, WrongCount("set", 1, |params|))
    else
      (env, if params[0] in env then Text(env[params[0]]) else Nothing)
  }

  function ExecUnset(env: Env, params: seq<string>): (Env, Output) {
    if |params| != 1 then (env, WrongCount("unset", 1, |params|)) else (env - {params[0]}, Nothing)
  }

  function ExecHandler(env: Env, h: Option<Handler>, params: seq<string>): (Env, Output) {
    if h == Some(CmdSet) then ExecSet(env, params)
    else if h == Some(CmdGet) then ExecGet(env, params)
    else if h == Some(CmdUnset) then ExecUnset(env, params)
    else (env, if h.Some? then Elsewhere(h.value) else NoHandler)
  }

  /** A command as `bitu_command_new` has read it from its line, executed. */
  function ExecParsed(env: Env, command: Parsed): (Env, Output)
    requires command.Parsed?
  {
    ExecHandler(env, HandlerOf(command.name), command.params)
  }

  /** The environment and the answer after a command, by its name and the number of its parameters. */
  lemma SetMeans(env: Env, params: seq<string>)
    ensures ExecParsed(env, Parsed("set", params)) ==
            if |params| == 2 then (env[params[0] := params[1]], Nothing) else (env, WrongCount("set", 2, |params|))
  {
  }

  lemma GetMeans(env: Env, params: seq<string>)
    ensures ExecParsed(env, Parsed("get", params)) ==
            if |params| != 1 then (env, WrongCount("set", 1, |params|))
            else if params[0] in env then (env, Text(env[params[0]]))
            else (env, Nothing)
  {
  }

  lemma UnsetMeans(env: Env, params: seq<string>)
    ensures ExecParsed(env, Parsed("unset", params)) ==
            if |params| == 1 then (env - {params[0]}, Nothing) else (env, WrongCount("unset", 1, |params|))
  {
  }

  /** Whose handler a name has: thirteen names have one. */
  lemma HandlersByName()
    ensures HandlerOf("help") == Some(CmdHelp) && HandlerOf("set") == Some(CmdSet) && HandlerOf("get") == Some(CmdGet)
    ensures HandlerOf("unset") == Some(CmdUnset) && HandlerOf("env") == Some(CmdEnv)
    ensures HandlerOf("transport") == Some(CmdTransport) && HandlerOf("load") == Some(CmdLoad)
    ensures HandlerOf("unload") == Some(CmdUnload) && HandlerOf("send") == Some(CmdSend)
  {
  }

  lemma MoreHandlersByName()
    ensures HandlerOf("list") == Some(CmdList) && HandlerOf("set-log-file") == Some(CmdSetLogFile)
    ensures HandlerOf("set-log-level") == Some(CmdSetLogLevel)
    ensures HandlerOf("set-log-use-colors") == Some(CmdSetLogUseColors)
  {
  }

  predicate IsRegistered(name: string) {
    || name == "help" || name == "set" || name == "get" || name == "unset" || name == "env" || name == "transport"
    || name == "load" || name == "unload" || name == "send" || name == "list" || name == "set-log-file"
    || name == "set-log-level" || name == "set-log-use-colors"
  }

  /** A command other than `set`, `get` and `unset` leaves the environment alone; it is answered by its
      own handler, or with the report that it has none. */
  lemma OthersMean(env: Env, name: string, params: seq<string>)
    requires name != "set" && name != "get" && name != "unset"
    ensures ExecParsed(env, Parsed(name, params)) ==
            (env, if HandlerOf(name).Some? then Elsewhere(HandlerOf(name).value) else NoHandler)
    ensures HandlerOf(name) == None <==> !IsRegistered(name)
  {
  }

  predicate AllParsed(commands: seq<Parsed>) {
    forall i :: 0 <= i < |commands| ==> commands[i].Parsed?
  }

  function EnvAfter(env: Env, commands: seq<Parsed>): Env
    requires AllParsed(commands)
  {
    if commands == [] then
      env
    else
      ExecParsed(EnvAfter(env, commands[..|commands| - 1]), commands[|commands| - 1]).0
  }

  /** What the commands answer, one after the other. */
  function Outputs(env: Env, commands: seq<Parsed>): (r: seq<Output>)
    requires AllParsed(commands)
    ensures |r| == |commands|
  {
    if commands == [] then
      []
    else
      var head := commands[..|commands| - 1];
      Outputs(env, head) + [ExecParsed(EnvAfter(env, head), commands[|commands| - 1]).1]
  }

  /** At no time are there more variables than the limit. */
  ghost predicate Fits(env: Env, commands: seq<Parsed>, limit: nat)
    requires AllParsed(commands)
  {
    forall i :: 0 <= i <= |commands| ==> |EnvAfter(env, commands[..i])| <= limit
  }

  // ------------------------------------------------------ the table of commands

  /** What the values of a table point to. */
  function Pointees<V>(m: map<string, Ptr<V>>): map<string, V> {
    map k | k in m :: m[k].at
  }

  lemma PointeesUpdate<V>(m: map<string, Ptr<V>>, k: string, v: Ptr<V>)
    ensures Pointees(m[k := v]) == Pointees(m)[k := v.at] && Pointees(m - {k}) == Pointees(m) - {k}
  {
  }

  lemma PointeesSize<V>(m: map<string, Ptr<V>>)
    ensures |Pointees(m)| == |m|
  {
    assert Pointees(m).Keys == m.Keys;
    assert |Pointees(m).Keys| == |m.Keys|;
  }

  /** `hashtable_set`, in terms of what the values point to. */
  method Put<V>(t: HashTable<V>, key: Str, value: Ptr<V>)
    requires t.Valid() && t.RoomFor(key.at)
    modifies t.Repr()
    ensures t.Valid() && t.ledger.sets == old(t.ledger.sets) + 1
    ensures Pointees(t.Map()) == old(Pointees(t.Map()))[key.at := value.at]
    ensures t.ledger.keysGiven == old(t.ledger.keysGiven) + multiset{key.addr}
    ensures t.ledger.valuesGiven == old(t.ledger.valuesGiven) + multiset{value.addr}
    ensures forall o :: o in t.Repr() ==> o in old(t.Repr()) || fresh(o)
  {
    PointeesUpdate(t.Map(), key.at, value);
    var r, pair := t.Set(key, value);
  }

  /** The table has been set n times and now holds these handlers. */
  ghost predicate Registered(t: HashTable<Handler>, m: map<string, Handler>, n: nat)
    reads t, t.Repr()
  {
    t.Valid() && Pointees(t.Map()) == m && t.ledger.sets == n
  }

  /** `hashtable_set` on the table of commands; the name is a literal lying at an address. */
  method Register(t: HashTable<Handler>, literal: nat, name: string, handler: Handler, ghost was: map<string, Handler>)
    requires Registered(t, was, literal) && literal < t.primes[|t.primes| - 1]
    modifies t.Repr()
    ensures Registered(t, was[name := handler], literal + 1)
    ensures forall o :: o in t.Repr() ==> o in old(t.Repr()) || fresh(o)
  {
    Put(t, Ptr(literal, name), Ptr(0, handler));
  }

  /** `_register_commands`, lines 766 to 769. */
  method RegisterFirst(t: HashTable<Handler>, ghost was: map<string, Handler>)
    requires Registered(t, was, 0) && 13 <= t.primes[|t.primes| - 1]
    modifies t.Repr()
    ensures Registered(t, was["help" := CmdHelp]["set" := CmdSet]["get" := CmdGet]["unset" := CmdUnset], 4)
    ensures forall o :: o in t.Repr() ==> o in old(t.Repr()) || fresh(o)
  {
    Register(t, 0, "help", CmdHelp, was);
    Register(t, 1, "set", CmdSet, was["help" := CmdHelp]);
    Register(t, 2, "get", CmdGet, was["help" := CmdHelp]["set" := CmdSet]);
    Register(t, 3, "unset", CmdUnset, was["help" := CmdHelp]["set" := CmdSet]["get" := CmdGet]);
  }

  /** Lines 770 to 773. */
  method RegisterSecond(t: HashTable<Handler>, ghost was: map<string, Handler>)
    requires Registered(t, was, 4) && 13 <= t.primes[|t.primes| - 1]
    modifies t.Repr()
    ensures Registered(t, was["env" := CmdEnv]["transport" := CmdTransport]
                             ["load" := CmdLoad]["unload" := CmdUnload], 8)
    ensures forall o :: o in t.Repr() ==> o in old(t.Repr()) || fresh(o)
  {
    Register(t, 4, "env", CmdEnv, was);
    Register(t, 5, "transport", CmdTransport, was["env" := CmdEnv]);
    Register(t, 6, "load", CmdLoad, was["env" := CmdEnv]["transport" := CmdTransport]);
    Register(t, 7, "unload", CmdUnload, was["env" := CmdEnv]["transport" := CmdTransport]["load" := CmdLoad]);
  }

  /** Lines 774 and 775. */
  method RegisterThird(t: HashTable<Handler>, ghost was: map<string, Handler>)
    requires Registered(t, was, 8) && 13 <= t.primes[|t.primes| - 1]
    modifies t.Repr()
    ensures Registered(t, was["send" := CmdSend]["list" := CmdList], 10)
    ensures forall o :: o in t.Repr() ==> o in old(t.Repr()) || fresh(o)
  {
    Register(t, 8, "send", CmdSend, was);
    Register(t, 9, "list", CmdList, was["send" := CmdSend]);
  }

  /** Lines 776 to 778. */
  method RegisterFourth(t: HashTable<Handler>, ghost was: map<string, Handler>)
    requires Registered(t, was, 10) && 13 <= t.primes[|t.primes| - 1]
    modifies t.Repr()
    ensures Registered(t, was["set-log-file" := CmdSetLogFile]["set-log-level" := CmdSetLogLevel]
                             ["set-log-use-colors" := CmdSetLogUseColors], 13)
    ensures forall o :: o in t.Repr() ==> o in old(t.Repr()) || fresh(o)
  {
    Register(t, 10, "set-log-file", CmdSetLogFile, was);
    Register(t, 11, "set-log-level", CmdSetLogLevel, was["set-log-file" := CmdSetLogFile]);
    Register(t, 12, "set-log-use-colors", CmdSetLogUseColors,
             was["set-log-file" := CmdSetLogFile]["set-log-level" := CmdSetLogLevel]);
  }

  /** These handlers answer every name. */
  ghost predicate Complete(handlers: map<string, Handler>) {
    forall name :: Lookup(handlers, name) == HandlerOf(name)
  }

  /** The table is made of these objects and holds these handlers. */
  ghost predicate Serving(t: HashTable<Handler>, handlers: map<string, Handler>, objects: set<object>)
    reads t, t.Repr()
  {
    t.Valid() && t.Repr() == objects && Pointees(t.Map()) == handlers
  }

  lemma AllRegistered(m: map<string, Handler>)
    requires m == map["help" := CmdHelp, "set" := CmdSet, "get" := CmdGet, "unset" := CmdUnset, "env" := CmdEnv,
                      "transport" := CmdTransport, "load" := CmdLoad, "unload" := CmdUnload, "send" := CmdSend,
                      "list" := CmdList, "set-log-file" := CmdSetLogFile, "set-log-level" := CmdSetLogLevel,
                      "set-log-use-colors" := CmdSetLogUseColors]
    ensures Complete(m)
  {
  }

  /** `_register_commands`: afterwards the table answers every name with its handler. */
  method RegisterCommands(t: HashTable<Handler>)
    requires Registered(t, map[], 0) && 13 <= t.primes[|t.primes| - 1]
    modifies t.Repr()
    ensures t.Valid() && Complete(Pointees(t.Map()))
    ensures forall o :: o in t.Repr() ==> o in old(t.Repr()) || fresh(o)
  {
    ghost var first := map["help" := CmdHelp, "set" := CmdSet, "get" := CmdGet, "unset" := CmdUnset];
    ghost var second := first["env" := CmdEnv]["transport" := CmdTransport]["load" := CmdLoad]["unload" := CmdUnload];
    RegisterFirst(t, map[]);
    RegisterSecond(t, first);
    RegisterThird(t, second);
    RegisterFourth(t, second["send" := CmdSend]["list" := CmdList]);
    AllRegistered(Pointees(t.Map()));
  }

  /** A new table of commands, with everything registered; it frees nothing. */
  method NewCommands(signed: bool) returns (t: HashTable<Handler>, ghost handlers: map<string, Handler>)
    ensures Serving(t, handlers, t.Repr()) && Complete(handlers) && fresh(t.Repr())
    ensures !t.ledger.freeKey && !t.ledger.freeValue && forall s :: t.hashKey(s) == Hash(signed, s)
  {
    t := new HashTable<Handler>(s => Hash(signed, s), false, false);
    assert 13 <= t.primes[|t.primes| - 1];
    assert Pointees(t.Map()) == map[];
    RegisterCommands(t);
    handlers := Pointees(t.Map());
  }

  /** The lookup with which `bitu_app_exec_command` starts. */
  method FindCommand(t: HashTable<Handler>, name: string, ghost handlers: map<string, Handler>,
                     ghost objects: set<object>)
      returns (h: Option<Handler>)
    requires Serving(t, handlers, objects) && Complete(handlers)
    ensures h == HandlerOf(name)
  {
    assert Lookup(handlers, name) == HandlerOf(name);
    var func := t.Get(name);
    h := if func.Some? then Some(func.value.at) else None;
  }

  // -------------------------------------------------------------- the program

  /** The copies in a history lie one after the other below n, and no others were made. */
  predicate OwnCopies(history: seq<Runs.Op<string>>, n: nat) {
    if history == [] then
      n == 1
    else
      var head, last := history[..|history| - 1], history[|history| - 1];
      if last.SetOp? then
        n >= 2 && last.key.addr == n - 2 && last.value.addr == n - 1 && OwnCopies(head, n - 2)
      else
        OwnCopies(head, n)
  }

  lemma TwoMoreCopies(history: seq<Runs.Op<string>>, n: nat, key: string, value: string)
    requires OwnCopies(history, n)
    ensures OwnCopies(history + [Runs.SetOp(Ptr(n, key), Ptr(n + 1, value))], n + 2)
  {
    assert (history + [Runs.SetOp(Ptr(n, key), Ptr(n + 1, value))])[..|history|] == history;
  }

  lemma NoMoreCopies(history: seq<Runs.Op<string>>, n: nat, key: string)
    requires OwnCopies(history, n)
    ensures OwnCopies(history + [Runs.DelOp(key)], n)
  {
    assert (history + [Runs.DelOp(key)])[..|history|] == history;
  }

  /** All copies lie below n. */
  ghost predicate Below(history: seq<Runs.Op<string>>, n: nat) {
    forall i :: 0 <= i < |history| && history[i].SetOp? ==> history[i].key.addr < n && history[i].value.addr < n
  }

  lemma OneMoreDistinct(head: seq<Runs.Op<string>>, n: nat, op: Runs.Op<string>)
    requires Runs.DistinctBlocks(head) && Below(head, n)
    requires op.SetOp? ==> op.key.addr == n && op.value.addr == n + 1
    ensures Runs.DistinctBlocks(head + [op]) && Below(head + [op], if op.SetOp? then n + 2 else n)
  {
  }

  /** So every copy has an address of its own, and the copies are as many as the keys and values that
      were handed over. */
  lemma {:induction false} CopiesAreDistinct(history: seq<Runs.Op<string>>, n: nat)
    requires OwnCopies(history, n)
    ensures Runs.DistinctBlocks(history) && Below(history, n) && n == 1 + 2 * Runs.SetCount(history)
  {
    if history != [] {
      var head, last := history[..|history| - 1], history[|history| - 1];
      var m := if last.SetOp? then n - 2 else n;
      CopiesAreDistinct(head, m);
      OneMoreDistinct(head, m, last);
      assert history == head + [last];
    }
  }

  /** A new environment; it frees keys and values. */
  method NewEnvironment(signed: bool) returns (t: HashTable<string>)
    ensures Runs.Tracks(t, []) && Pointees(t.Map()) == map[] && fresh(t.Repr())
    ensures t.ledger.freeKey && t.ledger.freeValue
    ensures t.primes == PRIMES && forall s :: t.hashKey(s) == Hash(signed, s)
  {
    t := new HashTable<string>(s => Hash(signed, s), true, true);
  }

  /** Both tables, which share no object. */
  method NewTables(signed: bool)
      returns (env: HashTable<string>, cmds: HashTable<Handler>,
               ghost handlers: map<string, Handler>, ghost table: set<object>)
    ensures Runs.Tracks(env, []) && Pointees(env.Map()) == map[] && fresh(env.Repr())
    ensures env.ledger.freeKey && env.ledger.freeValue && env.primes == PRIMES
    ensures Serving(cmds, handlers, table) && Complete(handlers) && fresh(table)
    ensures !cmds.ledger.freeKey && !cmds.ledger.freeValue
    ensures forall s :: env.hashKey(s) == Hash(signed, s) && cmds.hashKey(s) == Hash(signed, s)
    ensures forall o :: o in env.Repr() ==> o !in table
  {
    env := NewEnvironment(signed);
    ghost var mine := env.Repr();
    cmds, handlers := NewCommands(signed);
    table := cmds.Repr();
    assert forall o :: o in table ==> o !in mine;
  }

  class Program {
    const environment: HashTable<string>
    const commands: HashTable<Handler>
    ghost const handlers: map<string, Handler>  // what the table of commands holds
    ghost const table: set<object>  // and the objects it is made of
    var nextAddr: nat  // where `strdup` puts the next copy
    ghost var history: seq<Runs.Op<string>>  // of the environment

    /** The environment is where its history has brought it. */
    ghost predicate Holding()
      reads this, environment, environment.Repr()
    {
      && Runs.Tracks(environment, history) && environment.ledger.freeKey && environment.ledger.freeValue
      && this as object !in environment.Repr() && OwnCopies(history, nextAddr)
    }

    /** What executing a line may change. */
    ghost function Repr(): set<object>
      reads this, environment
    {
      {this} + environment.Repr()
    }

    /** The program may change none of these objects. */
    ghost predicate Apart(other: set<object>)
      reads this, environment
    {
      forall o :: o in Repr() ==> o !in other
    }

    ghost predicate Valid()
      reads this, environment, environment.Repr(), commands, commands.Repr()
    {
      Holding() && Serving(commands, handlers, table) && Complete(handlers) && Apart(table)
    }

    /** All objects of the program. */
    ghost function Objects(): set<object>
      reads this, environment
    {
      Repr() + table
    }

    ghost function Environment(): Env
      reads environment
    {
      Pointees(environment.Map())
    }

    /** The most variables the environment can hold. */
    function MaxSize(): nat
      requires environment.primes != []
    {
      environment.primes[|environment.primes| - 1]
    }

    /** `bitu_app_new`: both tables hash with `hash_string`; the environment frees keys and values, the
        table of commands frees nothing. */
    constructor (signed: bool)
      ensures Valid() && Environment() == map[] && environment.primes == PRIMES && fresh(Objects())
      ensures environment.ledger.freeKey && environment.ledger.freeValue
      ensures !commands.ledger.freeKey && !commands.ledger.freeValue
      ensures forall s :: environment.hashKey(s) == Hash(signed, s) && commands.hashKey(s) == Hash(signed, s)
    {
      var env, cmds, hs, objects := NewTables(signed);
      environment, commands, handlers, table := env, cmds, hs, objects;
      nextAddr, history := 1, [];
      new;
      NewIsValid();
      assert fresh({this} + env.Repr() + objects);
    }

    lemma NewIsValid()
      requires Runs.Tracks(environment, []) && history == [] && nextAddr == 1 && Pointees(environment.Map()) == map[]
      requires environment.ledger.freeKey && environment.ledger.freeValue && this as object !in environment.Repr()
      requires Serving(commands, handlers, table) && Complete(handlers) && this as object !in table
      requires forall o :: o in environment.Repr() ==> o !in table
      ensures Valid() && Environment() == map[] && Objects() == {this} + environment.Repr() + table
    {
    }

    /** `strdup`; the table stands by. */
    method Strdup(text: string, ghost was: seq<Runs.Op<string>>) returns (copy: Str)
      requires Runs.Tracks(environment, was) && this as object !in environment.Repr()
      modifies this`nextAddr
      ensures copy == Ptr(old(nextAddr), text) && nextAddr == old(nextAddr) + 1
      ensures Runs.Tracks(environment, was) && environment.Repr() == old(environment.Repr())
    {
      copy := Ptr(nextAddr, text);
      nextAddr := nextAddr + 1;
    }

    method DupBoth(k: string, v: string) returns (key: Str, value: Str)
      requires Holding()
      modifies this`nextAddr
      ensures key == Ptr(old(nextAddr), k) && value == Ptr(old(nextAddr) + 1, v) && nextAddr == old(nextAddr) + 2
      ensures Runs.Tracks(environment, history) && environment.Repr() == old(environment.Repr())
    {
      key := Strdup(k, history);
      value := Strdup(v, history);
    }

    /** One more operation in the history, before the table is asked for it. */
    ghost method Record(op: Runs.Op<string>)
      requires Runs.Tracks(environment, history) && this as object !in environment.Repr()
      modifies this`history
      ensures history == old(history) + [op]
      ensures Runs.Tracks(environment, old(history)) && environment.Repr() == old(environment.Repr())
    {
      history := history + [op];
    }

    /** When the variables after a `set` do not exceed the last prime, the table has room for it. */
    lemma SetHasRoom(key: string, value: string)
      requires environment.Valid() && |Environment()[key := value]| <= MaxSize()
      ensures environment.RoomFor(key)
    {
      PointeesSize(environment.Map());
      CountKeys(environment.nodes);
    }

    /** `hashtable_set` of two copies on the environment. */
    method StoreCopies(key: Str, value: Str, ghost was: seq<Runs.Op<string>>)
      requires Runs.Tracks(environment, was) && |Environment()[key.at := value.at]| <= MaxSize()
      modifies environment.Repr()
      ensures Runs.Tracks(environment, was + [Runs.SetOp(key, value)])
      ensures Environment() == old(Environment())[key.at := value.at]
      ensures forall o :: o in environment.Repr() ==> o in old(environment.Repr()) || fresh(o)
    {
      SetHasRoom(key.at, value.at);
      PointeesUpdate(environment.Map(), key.at, value);
      Runs.OneMore(was, Runs.SetOp(key, value));
      var a := Runs.StepSet(environment, was, Runs.SetOp(key, value));
    }

    /** Copies of a key and a value, about to be handed over. */
    method TakeCopies(k: string, v: string) returns (key: Str, value: Str)
      requires Holding()
      modifies this`nextAddr, this`history
      ensures key == Ptr(old(nextAddr), k) && value == Ptr(old(nextAddr) + 1, v) && nextAddr == old(nextAddr) + 2
      ensures history == old(history) + [Runs.SetOp(key, value)]
      ensures Runs.Tracks(environment, old(history)) && environment.Repr() == old(environment.Repr())
    {
      key, value := DupBoth(k, v);
      Record(Runs.SetOp(key, value));
    }

    /** The two copies and the `hashtable_set` of `cmd_set`. */
    method SetVariable(k: string, v: string)
      requires Holding() && |Environment()[k := v]| <= MaxSize()
      modifies Repr()
      ensures Holding() && Environment() == old(Environment())[k := v]
      ensures forall o :: o in Repr() ==> o in old(Repr()) || fresh(o)
    {
      ghost var was := history;
      TwoMoreCopies(was, nextAddr, k, v);
      var key, value := TakeCopies(k, v);
      StoreCopies(key, value, was);
    }

    /** `cmd_set`. */
    method CmdSet(params: seq<string>) returns (out: Output)
      requires Holding() && |ExecSet(Environment(), params).0| <= MaxSize()
      modifies Repr()
      ensures Holding() && (Environment(), out) == ExecSet(old(Environment()), params)
      ensures |params| == 2 ==> Environment() == old(Environment())[params[0] := params[1]] && out == Nothing
      ensures |params| != 2 ==> Environment() == old(Environment()) && out == WrongCount("set", 2, |params|)
      ensures forall o :: o in Repr() ==> o in old(Repr()) || fresh(o)
    {
      if |params| != 2 {
        return WrongCount("set", 2, |params|);
      }
      SetVariable(params[0], params[1]);
      out := Nothing;
    }

    /** `cmd_get`. */
    method CmdGet(params: seq<string>) returns (out: Output)
      requires Holding()
      ensures (Environment(), out) == ExecGet(Environment(), params)
      ensures |params| == 1 ==> out == if params[0] in Environment() then Text(Environment()[params[0]]) else Nothing
      ensures |params| != 1 ==> out == WrongCount("set", 1, |params|)
    {
      if |params| != 1 {
        return WrongCount("set", 1, |params|);
      }
      var val := environment.Get(params[0]);
      out := if val.Some? then Text(val.value.at) else Nothing;
    }

    /** `hashtable_del` on the environment. */
    method DropCopies(key: string, ghost was: seq<Runs.Op<string>>)
      requires Runs.Tracks(environment, was)
      modifies environment.Repr()
      ensures Runs.Tracks(environment, was + [Runs.DelOp(key)])
      ensures Environment() == old(Environment()) - {key}
      ensures forall o :: o in environment.Repr() ==> o in old(environment.Repr())
    {
      PointeesUpdate(environment.Map(), key, Ptr(0, ""));
      Runs.OneMore(was, Runs.DelOp(key));
      var a := Runs.StepDel(environment, was, Runs.DelOp(key));
    }

    /** `cmd_unset`. */
    method CmdUnset(params: seq<string>) returns (out: Output)
      requires Holding()
      modifies Repr()
      ensures Holding() && (Environment(), out) == ExecUnset(old(Environment()), params)
      ensures |params| == 1 ==> Environment() == old(Environment()) - {params[0]} && out == Nothing
      ensures |params| != 1 ==> Environment() == old(Environment()) && out == WrongCount("unset", 1, |params|)
      ensures forall o :: o in Repr() ==> o in old(Repr())
    {
      if |params| != 1 {
        return WrongCount("unset", 1, |params|);
      }
      ghost var was := history;
      NoMoreCopies(was, nextAddr, params[0]);
      Record(Runs.DelOp(params[0]));
      DropCopies(params[0], was);
      out := Nothing;
    }

    /** The call of the handler that was found, or the bad news. */
    method CallHandler(h: Option<Handler>, params: seq<string>) returns (out: Output)
      requires Holding() && |ExecHandler(Environment(), h, params).0| <= MaxSize()
      modifies Repr()
      ensures Holding() && (Environment(), out) == ExecHandler(old(Environment()), h, params)
      ensures forall o :: o in Repr() ==> o in old(Repr()) || fresh(o)
    {
      if h == Some(Handler.CmdSet) {
        out := this.CmdSet(params);
      } else if h == Some(Handler.CmdGet) {
        out := this.CmdGet(params);
      } else if h == Some(Handler.CmdUnset) {
        out := this.CmdUnset(params);
      } else if h.Some? {
        out := Elsewhere(h.value);
      } else {
        out := NoHandler;
      }
    }

    /** The same, with objects in view that are not the program's. */
    method CallBeside(h: Option<Handler>, params: seq<string>, ghost other: set<object>) returns (out: Output)
      requires Holding() && |ExecHandler(Environment(), h, params).0| <= MaxSize() && Apart(other)
      modifies Repr()
      ensures Holding() && (Environment(), out) == ExecHandler(old(Environment()), h, params)
      ensures unchanged(other) && Apart(other)
      ensures forall o :: o in Repr() ==> o in old(Repr()) || fresh(o)
    {
      out := CallHandler(h, params);
    }

    /** The same beside the table of commands. */
    method CallServed(h: Option<Handler>, params: seq<string>) returns (out: Output)
      requires Valid() && |ExecHandler(Environment(), h, params).0| <= MaxSize()
      modifies Repr()
      ensures Valid() && (Environment(), out) == ExecHandler(old(Environment()), h, params)
      ensures forall o :: o in Repr() ==> o in old(Repr()) || fresh(o)
    {
      out := CallBeside(h, params, table);
    }

    /** The lookup in the table of commands, which changes nothing. */
    method FindHandler(name: string) returns (h: Option<Handler>)
      requires Valid()
      ensures h == HandlerOf(name)
      ensures Valid() && Environment() == old(Environment()) && Repr() == old(Repr())
    {
      h := FindCommand(commands, name, handlers, table);
    }

    /** `bitu_command_new` cuts a line into words; the program stands by. */
    method NewCommand(line: string) returns (command: Parsed)
      requires Valid()
      ensures command == Parse(line)
      ensures Valid() && Environment() == old(Environment()) && Repr() == old(Repr())
    {
      command := ExtractParams(line);
    }

    /** `bitu_app_exec_command`: the handler is looked up in the table of commands and called. */
    method ExecCommand(command: Parsed) returns (out: Output)
      requires Valid() && command.Parsed? && |ExecParsed(Environment(), command).0| <= MaxSize()
      modifies Repr()
      ensures Valid() && (Environment(), out) == ExecParsed(old(Environment()), command)
      ensures forall o :: o in Repr() ==> o in old(Repr()) || fresh(o)
    {
      var h := FindHandler(command.name);
      out := CallServed(h, command.params);
    }

    /** `_bitu_queue_pop` on a queue that is not empty; the program stands by. */
    method PopCommand(queue: Queue<Parsed>) returns (command: Parsed)
      requires Valid() && queue.list != [] && queue as object !in Objects()
      modifies queue
      ensures command == Oldest(old(queue.list)) && queue.list == WithoutOldest(old(queue.list))
      ensures Valid() && Environment() == old(Environment()) && Repr() == old(Repr())
    {
      var data := queue.Pop();
      command := data.value;
    }

    /** One round of the consumer loop: pop the oldest command, execute it. */
    method ConsumeOne(queue: Queue<Parsed>) returns (out: Output)
      requires Valid() && queue.list != [] && Oldest(queue.list).Parsed?
      requires |ExecParsed(Environment(), Oldest(queue.list)).0| <= MaxSize() && queue as object !in Objects()
      modifies Repr(), queue
      ensures Valid() && queue.list == WithoutOldest(old(queue.list))
      ensures (Environment(), out) == ExecParsed(old(Environment()), old(Oldest(queue.list)))
      ensures forall o :: o in Repr() ==> o in old(Repr()) || fresh(o)
    {
      var command := PopCommand(queue);
      out := ExecCommand(command);
    }

    /** The same, with the commands executed before in view. */
    method ConsumeNext(queue: Queue<Parsed>, ghost env: Env, ghost done: seq<Parsed>) returns (out: Output)
      requires Valid() && queue.list != [] && AllParsed(done + [Oldest(queue.list)])
      requires |EnvAfter(env, done + [Oldest(queue.list)])| <= MaxSize()
      requires AllParsed(done) && Environment() == EnvAfter(env, done) && queue as object !in Objects()
      modifies Repr(), queue
      ensures Valid() && queue.list == WithoutOldest(old(queue.list))
      ensures var now := done + [old(Oldest(queue.list))];
              AllParsed(now) && Environment() == EnvAfter(env, now) && Outputs(env, now) == Outputs(env, done) + [out]
      ensures forall o :: o in Repr() ==> o in old(Repr()) || fresh(o)
    {
      NextOutput(env, done, Oldest(queue.list));
      out := ConsumeOne(queue);
    }

    /** The consumer on a queue of commands, whatever was executed before: oldest first, until nothing
        is left. */
    method Consume(queue: Queue<Parsed>) returns (outputs: seq<Output>)
      requires Valid() && AllParsed(Reversed(queue.list)) && queue as object !in Objects()
      requires Fits(Environment(), Reversed(queue.list), MaxSize())
      modifies Repr(), queue
      ensures Valid() && queue.list == []
      ensures outputs == Outputs(old(Environment()), Reversed(old(queue.list)))
      ensures Environment() == EnvAfter(old(Environment()), Reversed(old(queue.list)))
    {
      ghost var env, commands, done := Environment(), Reversed(queue.list), [];
      outputs := [];
      NothingDone(commands);
      while queue.list != []
        invariant commands == done + Reversed(queue.list) && AllParsed(done) && Valid()
        invariant Environment() == EnvAfter(env, done) && outputs == Outputs(env, done)
        invariant queue as object !in Objects()
        invariant forall o :: o in Repr() ==> o in old(Repr()) || fresh(o)
        decreases |queue.list|
      {
        ghost var command := Oldest(queue.list);
        NextInLine(commands, done, queue.list);
        var out := ConsumeNext(queue, env, done);
        outputs := outputs + [out];
        done := done + [command];
      }
      NothingLeft(done);
    }

    /** `bitu_app_free`, as far as the environment is concerned: every copy that was ever made for it
        was handed to it and has been freed exactly once. */
    method Free()
      requires Valid()
      modifies environment.ledger
      ensures Runs.AllFreedOnce(environment, history) && nextAddr == 1 + 2 * Runs.SetCount(history)
    {
      CopiesAreDistinct(history, nextAddr);
      environment.Close();
      Runs.ClosedFreesAll(environment, history);
    }
  }

  lemma NothingDone(commands: seq<Parsed>)
    ensures commands == [] + commands
  {
  }

  lemma NothingLeft(done: seq<Parsed>)
    ensures done + Reversed([]) == done
  {
  }

  /** The oldest command of the queue is the next of those it held. */
  lemma NextInLine(commands: seq<Parsed>, done: seq<Parsed>, list: seq<Parsed>)
    requires AllParsed(commands) && list != [] && commands == done + Reversed(list)
    ensures commands == done + [Oldest(list)] + Reversed(WithoutOldest(list))
    ensures |done| < |commands| && commands[..|done| + 1] == done + [Oldest(list)]
    ensures AllParsed(done + [Oldest(list)])
  {
    ReversedPop(list);
    NextInView(commands, done, Oldest(list), Reversed(WithoutOldest(list)));
    PrefixParsed(commands, |done| + 1);
  }

  lemma NextInView(commands: seq<Parsed>, done: seq<Parsed>, next: Parsed, rest: seq<Parsed>)
    requires commands == done + ([next] + rest)
    ensures commands == done + [next] + rest && commands[..|done| + 1] == done + [next]
  {
  }

  lemma PrefixParsed(commands: seq<Parsed>, n: nat)
    requires AllParsed(commands) && n <= |commands|
    ensures AllParsed(commands[..n])
  {
  }

  lemma NextOutput(env: Env, done: seq<Parsed>, command: Parsed)
    requires AllParsed(done + [command])
    ensures AllParsed(done) && command.Parsed?
    ensures EnvAfter(env, done + [command]) == ExecParsed(EnvAfter(env, done), command).0
    ensures Outputs(env, done + [command]) == Outputs(env, done) + [ExecParsed(EnvAfter(env, done), command).1]
  {
    var commands := done + [command];
    assert commands[..|done|] == done && commands[|done|] == command;
    assert forall i :: 0 <= i < |done| ==> commands[i] == done[i];
  }
}
