# bitU: a verified model of its core

bitU is a bot whose transports (a local socket, XMPP, IRC) put command lines into one bounded queue;
a consumer executes them in order against an environment of variables, and a small shell, `bituctl`,
prints its arguments into such lines. This project models that path and proves what it is for.

- **The command line** (`Shell`, `Util`, `Words`, `RoundTrip`, `QuotingForms`). The shell escapes and joins
  words, the server cuts them apart again with a quote and escape automaton. Printing and reading undo
  each other on exactly one domain (`RoundTrip.RoundTrip`, an equivalence over all commands and all
  parameter lists), and typing a parameter with backslashes or in double quotes gives the same list
  for every mixture. `Words` says for every line, by its positions alone, where quotes are open, where
  words are cut and what is left of them.
- **The queue** (`CommandQueue`, `QueueSafety`, `QueueDelivery`). Any number of producers and consumers
  share a mutex and two condition variables. The protocol is a step relation with the semantics of
  `pthread_cond_wait` and `pthread_cond_signal` in POSIX.1-2008, System Interfaces: waiting releases the
  mutex and sleeps in one step, a signal wakes a sleeper, and a sleeper may wake spuriously. Proved: no
  wakeup is lost, the protocol stops only when all is done, a weighted measure bounds every run, and
  items are executed in the order of the adds.
- **The hash table** (`ListRing`, `Buckets`, `Pairs`, `Primes`, `HashTables`, `HashTableRuns`,
  `HashUtils`). Nodes are objects with `prev` and `next`, buckets are windows into the one ring, and the
  table grows by re-linking the same nodes in place. Proved: it is a map, its growth is paid for by the
  sets, what it is handed is freed once, and iterators stay good.
- **The commands** (`App`, `EndToEnd`, `Listing`, `ConnManager`). `set`, `get` and `unset` on the
  environment, the listing of the commands, and the connection manager over `file` transports.
  `EndToEnd` runs the three parts together: the shell's loop prints requests, producers cut the lines
  into words and put the commands into the queue object, consumers pop them, look their handlers up in
  the table of commands and execute them on the hash table of the environment. In every interleaving
  each `get` answers the last `set` of its key that no `unset` followed.

Check everything with `dafny verify dfyconfig.toml`.

## How it is modelled

- A C string is a `seq<char>` without its NUL. A pointer that a table owns (a key or a value) is a
  `Ptr`: an address and what lies there. Ledgers count addresses. A NULL result is `None`, `null` or
  `Nothing`.
- `s[i - 1]` at `i == 0` is no character, so it is not a backslash and not a blank (`src/util.c:34`,
  `src/util.c:69`, `src/util.c:127`).
- Allocation succeeds, and the lists of the external library (`ta_list_prepend`, `ta_list_pop`) are
  sequences with the newest element at the head and pops at the tail.
- The pair fields of a list node are a constant `entry`; only the ring links change. A sentinel has no
  pair, so reading one through it does not verify.
- `Ledger` is the account of a table: the blocks `hashtable_set` was handed, the blocks the free
  functions were called on, the number of sets and the number of pairs moved, which the rehash counts
  one by one as it moves them. Only the proofs read it.
- A table can hold as many pairs as its last prime, 1610612741; the code would read behind its list of
  primes for one more. Runs are therefore required to `Fit`: at no time more live keys than that. How
  many operations they make is not bounded.
- The hash function is a field of the table, as in C. Keys compare by text, as `string_equal` does in
  every table of the repository.

## Where the code differs from its intent

- Printing and reading do not undo each other for an empty parameter, a backslash that protects
  nothing, a command with a blank, quote or backslash, or a line that ends in white space. `Printable`
  says exactly when they do; `RoundTrip.SomeWordsAreLost` shows concrete losses.
- `bitu_conn_manager_run` on a transport that is already connected takes the failure branch and shuts
  it down; the status "already running" that `src/app.c:205` expects never comes back
  (`ConnManager.RunOf`, and `ConnManager.RunTwice` on a concrete sequence of requests).
- `cmd_get` reports a wrong number of parameters under the name `set` (`App.Program.CmdGet`).

## Model

| member | source | states |
|---|---|---|
| Util.StripKeepsTheMiddle | src/util.c:28-39 | what is stripped is white space at both ends, what is kept is one stretch of the line |
| Util.StrStrip | src/util.c:28-39 | the two pointer loops compute exactly that stretch, for every text including blank ones |
| Util.ScanPersists | src/util.c:75-109 | going on reading never changes a word already cut, nor the start of the word being collected |
| Util.ExtractParams | src/util.c:41-146 | the index loop answers the command and the parameters that the automaton assigns to the stripped line, and fails exactly on blank lines |
| Words.SpaceCodes | src/util.c:34-36 | exactly blank, tab, line feed, vertical tab, form feed and carriage return are white space |
| Words.QuotesByParity | src/util.c:69-73 | a quote is open exactly after an odd number of quotes with no backslash directly before them, for every text |
| Words.ScanReads | src/util.c:67-134 | after any n characters the words cut are the texts between the unprotected blanks outside quotes at which a word had begun, each text being its characters without unprotected backslashes and quotes |
| Words.ParseMeans | src/util.c:41-146 | every line, told by its positions: an error exactly when all of it is white space, otherwise the texts between the cuts of the stripped line, the first as the command |
| Words.BeginIsLastCut | src/util.c:75-109 | a word begins after the last cut, and no cut lies in it |
| Shell.EscapePlaces | src/shell.c:37-59 | each character stands where the blanks and quotes before it have moved it, and each blank and quote has a backslash before it |
| Shell.CommandLineMeans | src/shell.c:247-290 | each parameter adds one blank and its escaped text |
| Shell.EscapeParam | src/shell.c:37-59 | the buffer holds the parameter with a backslash before each blank and quote, and its length |
| Shell.AssembleCommandLine | src/shell.c:247-290 | the command and the escaped parameters, joined by single blanks, with no blank at the end |
| RoundTrip.ScanTally | src/util.c:67-134 | reading may lose occurrences of a character but never invents any |
| RoundTrip.ScanCommandLine | src/util.c:67-134 | after a printed line the reader stands outside quotes with every word cut but the last |
| RoundTrip.PrintedIsRead | src/util.c:41-146 | every printable command with its parameters is read back unchanged, with their count |
| RoundTrip.ReadIsPrintable | src/util.c:41-146 | whatever is read back unchanged was printable |
| RoundTrip.RoundTrip | src/shell.c:247-290 | printing and reading undo each other if and only if the command is plain, every parameter is non-empty with only protecting backslashes, and the line does not end in white space |
| RoundTrip.SomeWordsAreLost | src/shell.c:49-54 | three concrete parameters that do not survive printing and reading |
| QuotingForms.ScanTypedLine | src/util.c:69-75 | for every mixture of escaped and quoted parameters, no quote is open at any separator |
| QuotingForms.TypedIsRead | src/util.c:67-134 | every mixture is read as the values it was typed for |
| QuotingForms.FormsAgree | src/util.c:67-134 | two ways of typing the same values are read alike |
| CommandQueue.Queue.constructor | src/transport.c:515-536 | an empty queue with room for ten items |
| CommandQueue.Queue.TryAdd | src/transport.c:563-567 | under the lock, an item is prepended exactly when there is room |
| CommandQueue.Queue.Pop | src/transport.c:576-589 | the oldest item leaves the list, or NULL when there is none |
| QueueSafety.InitSafe | src/transport.c:515-536 | the queue as created, with any producers and consumers, satisfies the invariant |
| QueueSafety.ProducerKeepsWakeups | src/transport.c:555-573 | every move of a producer keeps: somebody sleeping on not_full means no more free slots than consumers yet to signal and woken producers yet to test again, and the mirror image |
| QueueSafety.ConsumerKeepsWakeups | src/transport.c:592-618 | every move of a consumer keeps the same |
| QueueSafety.StepKeepsSafe | src/transport.c:555-618 | every step keeps the bound, mutual exclusion, the thread roles and the wakeup invariant |
| QueueSafety.RunKeepsSafe | src/transport.c:555-618 | so does every run, spurious wakeups included |
| QueueDelivery.StepConserves | src/transport.c:563-617 | executed items, the one in the callback and the list from its tail are always the adds in lock order |
| QueueDelivery.FirstInFirstOut | src/transport.c:563-617 | in every reachable state the list is at most ten long, nothing is lost, doubled or reordered, and each producer's adds are a prefix of its program |
| QueueDelivery.OneCallback | src/transport.c:612-615 | at most one callback runs at a time |
| QueueDelivery.LockDiscipline | src/transport.c:563-617 | in every reachable state the callback runs with the mutex held, and signalling and sleeping threads do not hold it |
| QueueDelivery.SignalWakesOne | src/transport.c:572-572 | a signal on not_empty wakes exactly one sleeping consumer if there is one, and any sleeper may wake up by itself |
| QueueDelivery.SignalWakesOneProducer | src/transport.c:617-617 | the same for not_full and the producers |
| QueueDelivery.StuckProducerMeansFull | src/transport.c:563-564 | a sleeping producer with no signal and no woken peer in flight faces a full list |
| QueueDelivery.StuckConsumerMeansEmpty | src/transport.c:608-609 | a sleeping consumer in the same situation faces an empty list |
| QueueDelivery.NeverAllAsleep | src/transport.c:555-618 | producers and consumers are never all asleep together |
| QueueDelivery.StuckOnlyWhenFinished | src/transport.c:555-618 | no thread can move if and only if all producers are done, the list is empty and all consumers wait |
| QueueDelivery.StepDecreases | src/transport.c:555-618 | every move of a thread decreases the measure; a spurious wakeup adds exactly two |
| QueueDelivery.RunIsBounded | src/transport.c:555-618 | a run is no longer than its initial measure plus three per spurious wakeup |
| QueueDelivery.MaximalRunDelivers | src/transport.c:555-618 | a run that cannot go on has executed every item of every program, in the order of the adds |
| QueueDelivery.TenItemsFillTheQueue | src/transport.c:33-33 | with no consumer and a producer of more than ten items, every run that cannot go on ends with exactly ten items in the list, none executed and that producer asleep |
| QueueDelivery.QueueCanFill | src/transport.c:555-573 | and there is such a run |
| QueueDelivery.CanStop | src/transport.c:555-618 | from every reachable state the threads can go on without spurious wakeups until none can move |
| QueueDelivery.CanFinish | src/transport.c:555-618 | every reachable state can be completed without spurious wakeups |
| ListRing.Node.constructor | src/hashtable.c:255-262 | a new pair with its own one-element ring |
| ListRing.ListInit | src/hashtable.c:20-24 | the head alone is a ring |
| ListRing.ListInsert | src/hashtable.c:26-32 | inserting in front of a node keeps the doubly linked ring, with the node at that place |
| ListRing.ListRemove | src/hashtable.c:34-38 | removing keeps the ring and leaves the removed node's own pointers |
| Buckets.InsertKeepsBuckets | src/hashtable.c:45-58 | inserting where `insert_to_bucket` does, and setting the bucket as it does, keeps every bucket one contiguous, disjoint stretch of exactly its own pairs |
| Buckets.RemoveKeepsBuckets | src/hashtable.c:114-121 | the four cases of moving a bucket's ends keep every bucket's stretch when a pair goes |
| Pairs.SearchIsLookup | src/hashtable.c:74-97 | a linear search of the whole list answers like the map |
| Pairs.CountKeys | src/hashtable.c:239-293 | the map has as many keys as the list has pairs, so `size` counts the keys |
| Pairs.KeptMeans | src/hashtable.c:100-134 | the list without the pair of a key, in the same order, stands for the map without the key |
| Pairs.Rehashed | src/hashtable.c:160-165 | moving one more node keeps the same pairs, the same map and the same owned blocks |
| Primes.PrimesGrow | src/hashtable.c:60-65 | twenty-nine counts from 5 to 1610612741, each at least half as large again as the one before |
| Primes.NearlyDoubled | src/hashtable.c:60-65 | each bucket count is close to twice the one before |
| Primes.AllGrowths | src/hashtable.c:60-65 | the pairs a table has moved when it has grown through all counts |
| Primes.MovedBound | src/hashtable.c:60-71 | all growths up to index k move at most three times the last bucket count |
| HashTables.Ledger.Release | src/hashtable.c:125-128 | freeing a pair's key and value keeps the account of all blocks handed over |
| HashTables.HashTable.constructor | src/hashtable.c:193-219 | a valid empty table over the first prime |
| HashTables.HashTable.BucketIsEmpty | src/hashtable.c:40-43 | the pointer test tells whether any pair of the list has this bucket as its home |
| HashTables.HashTable.InsertToBucket | src/hashtable.c:45-58 | ring and buckets stay good and the node is in the list |
| HashTables.HashTable.FindPair | src/hashtable.c:74-97 | the walk through one bucket finds the pair of a key, and NULL means that no pair of the whole list has it |
| HashTables.HashTable.ShrinkBucket | src/hashtable.c:114-121 | the boundary branches leave every bucket right for the list without the pair |
| HashTables.HashTable.Detach | src/hashtable.c:107-131 | the pair of the key leaves bucket, ring and count; all others stay in order |
| HashTables.HashTable.DoDel | src/hashtable.c:100-134 | 0 or -1 as the key was there or not, the list without its pair, and the account kept |
| HashTables.HashTable.Relink | src/hashtable.c:160-165 | one round of the rehash moves one node, counts it, and leaves the rest of the old chain untouched |
| HashTables.HashTable.RelinkAll | src/hashtable.c:157-165 | the walk ends with the same pairs in a good ring and good buckets, each moved once |
| HashTables.HashTable.DoRehash | src/hashtable.c:136-168 | growing keeps exactly the pairs and establishes the buckets of the next prime |
| HashTables.HashTable.MakeRoom | src/hashtable.c:250-253 | the table grows exactly when it is full, once is enough, and the rehash counts exactly as many moved pairs as there were buckets |
| HashTables.HashTable.Set | src/hashtable.c:239-271 | for every key that is replaced, and for every new one while the last prime is not filled: the map with the key set, one new pair for it, all pairs of other keys still linked, key and value taken over |
| HashTables.HashTable.Get | src/hashtable.c:273-287 | answers like the map and like the linear search |
| HashTables.HashTable.Del | src/hashtable.c:289-293 | the list without the key's pair, in the same order |
| HashTables.HashTable.Iter | src/hashtable.c:295-298 | the first pair, or NULL for an empty table |
| HashTables.HashTable.IterNext | src/hashtable.c:300-306 | the next pair in list order, or NULL at the end |
| HashTables.HashTable.Close | src/hashtable.c:221-237 | every pair is freed, `next` is read before its pair is freed, and the account ends with nothing live |
| HashTableRuns.Run | src/hashtable.c:193-293 | over any run, however long, every set, get and delete answers as the history says, and growing has moved at most three pairs per set |
| HashTableRuns.GrowthIsAmortised | src/hashtable.c:136-168 | in every valid state the pairs moved are the sum of the primes passed and at most three times the sets |
| HashTableRuns.LastSetMeans | src/hashtable.c:239-293 | the last set or delete of a key decides what the history answers for it |
| HashTableRuns.NeverSet | src/hashtable.c:239-293 | without any, the history answers nothing |
| HashTableRuns.MapAnswersLikeHistory | src/hashtable.c:239-293 | the map that a run makes answers each key with its last set that no delete follows |
| HashTableRuns.Lifetime | src/hashtable.c:193-237 | from init to close the blocks freed are exactly the blocks handed over, or none with a NULL free function; distinct blocks are freed exactly once each, keys and values alike |
| HashTableRuns.DistinctKeysOnce | src/hashtable.h:107-111 | with distinct blocks an address is handed over as a key once or never |
| HashTableRuns.DistinctValuesOnce | src/hashtable.h:107-111 | the same for values |
| HashTableRuns.LiveKeyNotFreed | src/hashtable.h:107-111 | a key block handed over once is not freed while the list refers to it |
| HashTableRuns.LiveValueNotFreed | src/hashtable.h:107-111 | the same for values |
| HashTableRuns.NothingFreedEarly | src/hashtable.h:107-111 | after any run on distinct blocks no block has been freed twice by either function, and no key or value of a pair in the list has been freed |
| HashTableRuns.ClosedFreesAll | src/hashtable.c:221-237 | when all that was handed over has been freed, each distinct block has been freed exactly once |
| HashTableRuns.Visit | src/hashtable.c:295-312 | iterating lists every pair's key in list order in `size` steps |
| HashTableRuns.VisitMeetsAll | src/hashtable.h:137-151 | these are the keys of the map, each once |
| HashTableRuns.Drain | src/hashtable.h:146-150 | advancing and then deleting the pair just left meets every key once and leaves a valid empty table |
| HashTableRuns.HoldIterator | src/hashtable.h:146-150 | a held node stays linked through any sequence of operations on other keys, growth included, and every answer is the right one |
| HashTableRuns.WalkToEnd | src/hashtable.c:300-306 | from any linked node NULL is reached in at most `size` steps |
| HashUtils.HashString | src/hashtable-utils.c:10-23 | the wrapping shift-and-add loop equals 5381 * 33^n plus the sum of c_i * 33^(n-1-i), modulo 2^32, for signed and unsigned `char` |
| HashUtils.HashRecurrence | src/hashtable-utils.c:13-20 | the hash of the empty string is 5381, and one more character c makes h to 33 * h + c modulo 2^32 |
| HashUtils.CharWordMeans | src/hashtable-utils.c:16-16 | a byte from 128 up is added as its signed value modulo 2^32 where `char` is signed, and as itself otherwise |
| HashUtils.HashConcat | src/hashtable-utils.c:10-23 | the hash of a concatenation from the hash of its first part |
| Listing.AppendLine | src/app.c:566-586 | one round adds the key and a line break inside a block of exactly the grown size |
| Listing.ListKeys | src/app.c:556-591 | the buffer is the newline-join of the keys in iteration order and its NUL; every write is inside it |
| Listing.ListingReadsBack | src/app.c:556-591 | splitting the listing gives the keys back if and only if no key has a line break |
| Listing.ListingIsTheKeys | src/app.c:556-591 | the lines are the keys of the table, each once |
| ConnManager.Transport.Connect | src/transport-local.c:84-99 | a server is made only for a transport without one, and stays attached even when it cannot be bound |
| ConnManager.Transport.Disconnect | src/transport-local.c:103-123 | the server is freed and the slot cleared, or there was none |
| ConnManager.RunningOf | src/transport-local.c:136-141 | under the manager's invariant a transport runs if and only if it owns a server |
| ConnManager.RunOf | src/transport.c:197-212 | spawned if and only if the transport is not connected and can be bound, in all other cases the status is a failed connection, so "already running" never comes back; a failed connect leaves no server and a connected transport is shut down |
| ConnManager.Manager.DoAdd | src/transport.c:109-127 | a known URI keeps its transport; a new one starts without a server |
| ConnManager.Manager.DoRemove | src/transport.c:130-145 | an unknown URI is reported as not found, one whose transport owns a server as still running, and the table stays; every other one is removed |
| ConnManager.Manager.DoRun | src/transport.c:189-213 | an unknown URI is reported as not found; a known one has a server afterwards exactly when it had none and the socket could be bound, and is spawned exactly then |
| ConnManager.Manager.DoShutdown | src/transport.c:216-230 | an unknown URI is reported as not found; the transport of a known one owns no server afterwards, and the status says whether it did |
| ConnManager.Manager.Serve | src/transport.c:109-230 | one request keeps the transport of every URI that stays known, and only a successful remove forgets one |
| ConnManager.RemovesMeans | src/transport.c:130-145 | a successful remove of a URI is exactly a request at which it stops being known |
| ConnManager.ServeOn | src/transport.c:109-230 | over any sequence of requests from any state live servers and connected transports match one to one, every status is the one the history calls for, and a URI keeps the same transport until a successful remove |
| ConnManager.ServeAll | src/transport.c:109-230 | statuses and matching over any sequence of requests from a new manager |
| ConnManager.ServeSinceAdd | src/transport.c:109-145 | from a new manager and after any requests, a URI keeps the transport its add answered with through any later requests until a successful remove |
| ConnManager.RunTwice | src/transport.c:197-212 | adding a transport and running it twice ends with it shut down |
| App.RegisterCommands | src/app.c:763-779 | the thirteen sets make a table that answers every name with its handler, and no other name |
| App.FindCommand | src/app.c:136-138 | the lookup in that table finds the handler of a name, or nothing |
| App.CopiesAreDistinct | src/app.c:261-269 | all copies made for the environment lie at addresses of their own and are as many as the keys and values handed over |
| App.HandlersByName | src/app.c:763-779 | whose handler each of the first nine names has |
| App.MoreHandlersByName | src/app.c:763-779 | whose handler each of the other four names has |
| App.SetMeans | src/app.c:261-269 | `set` with two parameters stores; with any other count it changes nothing and complains |
| App.GetMeans | src/app.c:272-280 | `get` with one parameter answers the value or NULL; with any other count it complains under the name `set` |
| App.UnsetMeans | src/app.c:283-291 | `unset` with one parameter removes; with any other count it changes nothing and complains |
| App.OthersMean | src/app.c:136-158 | no other command changes the environment; a registered name is answered by its own handler and exactly the other names have none |
| App.Program.CmdSet | src/app.c:261-269 | the environment with the variable set, or the complaint about the count; every copy made so far was handed over and lies at an address of its own |
| App.Program.CmdGet | src/app.c:272-280 | the variable's value, NULL without one, or the complaint |
| App.Program.CmdUnset | src/app.c:283-291 | the environment without the variable, or the complaint |
| App.Program.ExecCommand | src/app.c:128-158 | the handler of a command is looked up in the table of commands and executed on the table of the environment as on a map; the table of commands stays as it is |
| App.Program.Consume | src/transport.c:601-617 | a queue of commands is executed oldest first until it is empty, on whatever environment there was, with the outputs of that order |
| App.Program.Free | src/app.c:67-85 | every copy that `cmd_set` handed over has been freed exactly once, and it made no others |
| EndToEnd.SendableIsParsed | src/transport.c:435-465 | a request's line carries the request if and only if it is printable |
| EndToEnd.LastSetMeans | src/app.c:261-291 | the last request that sets or unsets a key decides what the history answers for it |
| EndToEnd.NeverSet | src/app.c:261-291 | without any, the history answers nothing |
| EndToEnd.VarsAgree | src/app.c:261-291 | the variables that requests leave are what the history says |
| EndToEnd.ExecutedAnswers | src/app.c:261-291 | printed requests, read and executed in order, answer each `get` with the last set not followed by an unset |
| EndToEnd.ExecPrinted | src/app.c:128-183 | the command of a printed request, executed on the hash table, has its effect and answers from the history |
| EndToEnd.LoadConfig | src/app.c:87-118 | a configuration of printed requests, executed one after the other on the hash table, leaves the variables of the history |
| EndToEnd.FewKeysFit | src/transport.c:555-618 | no run has more variables at a time than the configuration and the programs set distinct keys, so the room of the table can be seen to suffice beforehand |
| EndToEnd.AddStep | src/transport.c:555-573 | printing a request, cutting its line into words and trying to add the command moves the queue object as the protocol says |
| EndToEnd.PopStep | src/transport.c:601-611 | popping moves the queue object as the protocol says and gives the command of the oldest request |
| EndToEnd.SystemStep | src/transport.c:555-618 | every action of every thread keeps queue object, running command and hash table in step with the protocol |
| EndToEnd.EveryGetAnswersTheLastSet | src/transport.c:555-618 | over any run of shell, queue, tokenizer and hash table, for any producers, consumers and interleaving and after any configuration, requests are executed in the order of the adds and each `get` answers the last set not followed by an unset |
| EndToEnd.EveryRequestIsAnswered | src/transport.c:555-618 | and when no thread can move any more, every request of every producer has been executed |

## Left out

- StrStrip: reading in front of the string on a blank line (`src/util.c:34`) is modelled as meeting no blank.
- ExtractParams: the capacities of the token buffer (`src/util.c:112-124`). They matter for one kind of line: while all words so far have one character `allocated` is still 0, and a word that then starts with a protected blank or quote, as in command `x` with parameter ` y`, makes a second `realloc (tok, 0)` on a live block; where that answers NULL the line is reported as an error.
- EscapeParam: the size of the buffer, `strlen (param) * 2`.
- AssembleCommandLine: the growth of the line buffer (`src/shell.c:251-278`).
- Set: a new key for a table that has filled its last prime, where the code would read behind its list of primes.
- Set: allocation failure, the only cause of its result -1.
- DoDel: the count goes down when the pair is unlinked, a few statements earlier than in C.
- FindPair: `cmp_keys` is equality of texts, not an arbitrary function pointer.
- NewBuckets: the loop that sets both ends of each bucket to the sentinel is an array initialiser.
- ExecCommand: a line without a word has no name to look up (`src/transport.c:456-461`), so a word is required; the server sends on any line of two characters or more.
- ExecCommand: plugins, and what the commands other than `set`, `get` and `unset` do; they leave the environment alone.
- WrongCount: complaints are values with their numbers, not texts.
- Serve: the manager keeps its transports in a map, which `HashTables` proves its table to be.
- DoRun: the thread it starts, and a server still running during a shutdown; the manager is sequential.
- DoAdd: parsing the URI, and transports other than `file`, are the input `supported`.
- TryAdd: waiting is part of the step relation in `CommandQueue`; `EndToEnd.AddStep` ties the two.
- LoadConfig: how the lines of a configuration file are read; and only configurations made of printed `set`, `get` and `unset` requests are covered.
- `queue->running` is set once and never cleared in the repository, so the consumer loop has no end in the model.
- Queue items are never NULL, and the callback ends and does not add to the queue.
- `list plugins`, which builds its text like `list commands`, and `cmd_env`, which grows its buffer in fixed steps.
- Sockets, XMPP and IRC transports, plugin loading, regular expressions, logging, options, configuration files.
