/** The connection manager of src/transport.c over the `file` transports of
    src/transport-local.c: which transports are known, and which of them own a server. */
module ConnManager {
  /** `bitu_conn_status_t`. */
  datatype Status =
    | Ok
    | Error
    | Spawned
    | TransportNotFound
    | ConnectionFailed
    | AlreadyRunning
    | RunningFailed
    | AlreadyShutdown
    | StillRunning

  class Server {
    var canRun: bool

    /** `bitu_server_new`. */
    constructor ()
      ensures canRun
    {
      canRun := true;
    }
  }

  /** The servers allocated and not yet freed. */
  class ServerHeap {
    ghost var live: set<Server>

    constructor ()
      ensures live == {}
    {
      live := {};
    }
  }

  /** A `file` transport; its `data` slot holds its server. */
  class Transport {
    var data: Server?

    /** `bitu_transport_new`. */
    constructor ()
      ensures data == null
    {
      data := null;
    }

    /** `_local_connect`; whether the socket can be bound is up to the system. */
    method Connect(heap: ServerHeap, bound: bool) returns (status: Status)
      modifies this, heap
      ensures old(data) != null ==> status == AlreadyRunning && data == old(data) && heap.live == old(heap.live)
      ensures old(data) == null ==>
                && status == (if bound then Ok else ConnectionFailed)
                && data != null && fresh(data) && data.canRun && heap.live == old(heap.live) + {data}
    {
      if data == null {
        var server := new Server();
        heap.live := heap.live + {server};
        data := server;
        status := if bound then Ok else ConnectionFailed;
      } else {
        status := AlreadyRunning;
      }
    }

    /** `_local_disconnect`: stops and frees the server, if there is one. */
    method Disconnect(heap: ServerHeap) returns (status: Status)
      modifies this, heap, data
      ensures data == null
      ensures old(data) == null ==> status == AlreadyShutdown && heap.live == old(heap.live)
      ensures old(data) != null ==>
                status == Ok && heap.live == old(heap.live) - {old(data)} && !old(data).canRun
    {
      if data == null {
        return AlreadyShutdown;
      }
      data.canRun := false;
      heap.live := heap.live - {data};
      data := null;
      status := Ok;
    }

    /** `_local_is_running`. */
    method IsRunning() returns (r: bool)
      ensures r <==> data != null && data.canRun
    {
      r := data != null && data.canRun;
    }
  }

  ghost predicate OwnedBySome(m: map<string, Transport>, s: Server)
    reads m.Values
  {
    exists u :: u in m && m[u].data == s
  }

  /** Live servers and transports with a server are in one-to-one correspondence, and every live
      server may run. */
  ghost predicate Matched(m: map<string, Transport>, live: set<Server>)
    reads m.Values, live
  {
    && (forall u :: u in m && m[u].data != null ==> m[u].data in live)
    && (forall s :: s in live ==> s.canRun && OwnedBySome(m, s))
    && (forall u, v :: u in m && v in m && u != v ==> m[u] != m[v] && (m[u].data != null ==> m[u].data != m[v].data))
  }

  lemma MatchedAdd(m: map<string, Transport>, live: set<Server>, uri: string, t: Transport)
    requires Matched(m, live) && uri !in m && t.data == null && forall u :: u in m ==> m[u] != t
    ensures Matched(m[uri := t], live)
  {
    var now := m[uri := t];
    forall s | s in live ensures OwnedBySome(now, s) {
      assert OwnedBySome(m, s);
      var u :| u in m && m[u].data == s;
      assert u in now && now[u].data == s;
    }
  }

  lemma MatchedDrop(m: map<string, Transport>, live: set<Server>, uri: string)
    requires Matched(m, live) && uri in m && m[uri].data == null
    ensures Matched(m - {uri}, live)
  {
    var now := m - {uri};
    forall s | s in live ensures OwnedBySome(now, s) {
      assert OwnedBySome(m, s);
      var u :| u in m && m[u].data == s;
      assert u in now && now[u].data == s;
    }
  }

  /** Which of the transports are connected. */
  ghost function View(m: map<string, Transport>): map<string, bool>
    reads m.Values
  {
    map u | u in m :: m[u].data != null
  }

  lemma ViewAdd(m: map<string, Transport>, uri: string, t: Transport)
    ensures View(m[uri := t]) == View(m)[uri := t.data != null]
  {
  }

  lemma ViewDrop(m: map<string, Transport>, uri: string)
    ensures View(m - {uri}) == View(m) - {uri}
  {
  }

  /** `bitu_transport_disconnect` on the transport of a URI. */
  method DisconnectOf(ghost m: map<string, Transport>, ghost uri: string, t: Transport, heap: ServerHeap)
      returns (status: Status)
    requires uri in m && m[uri] == t && Matched(m, heap.live)
    modifies t, heap, t.data
    ensures Matched(m, heap.live) && View(m) == old(View(m))[uri := false]
    ensures status == if old(View(m))[uri] then Ok else AlreadyShutdown
    ensures forall s :: s in heap.live <==> s in old(heap.live) && s != old(t.data)
  {
    status := t.Disconnect(heap);
  }

  /** `bitu_transport_connect` on the transport of a URI. */
  method ConnectOf(ghost m: map<string, Transport>, ghost uri: string, t: Transport, heap: ServerHeap, bound: bool)
      returns (status: Status)
    requires uri in m && m[uri] == t && Matched(m, heap.live)
    modifies t, heap
    ensures Matched(m, heap.live) && View(m) == old(View(m))[uri := true]
    ensures status == if old(View(m))[uri] then AlreadyRunning else if bound then Ok else ConnectionFailed
    ensures if old(View(m))[uri] then heap.live == old(heap.live) else heap.live - {t.data} == old(heap.live)
    ensures t.data != null && (t.data in old(heap.live) || fresh(t.data))
  {
    status := t.Connect(heap, bound);
  }

  /** `bitu_transport_is_running` on the transport of a URI: it runs exactly when it owns a server. */
  method RunningOf(ghost m: map<string, Transport>, ghost uri: string, t: Transport, ghost heap: ServerHeap)
      returns (running: bool)
    requires uri in m && m[uri] == t && Matched(m, heap.live)
    ensures running <==> View(m)[uri]
    ensures Matched(m, heap.live) && View(m) == old(View(m))
  {
    running := t.IsRunning();
  }

  /** `bitu_transport_new`, while the others stand by. */
  method NewTransport(ghost m: map<string, Transport>, ghost heap: ServerHeap) returns (t: Transport)
    requires Matched(m, heap.live)
    ensures fresh(t) && t.data == null && forall u :: u in m ==> m[u] != t
    ensures Matched(m, heap.live) && View(m) == old(View(m))
  {
    t := new Transport();
  }

  /** The body of `bitu_conn_manager_run` after the lookup: a transport that is already connected
      takes the failure branch and is shut down. */
  method RunOf(ghost m: map<string, Transport>, ghost uri: string, t: Transport, heap: ServerHeap, bound: bool)
      returns (status: Status)
    requires uri in m && m[uri] == t && Matched(m, heap.live)
    modifies t, heap, t.data
    ensures Matched(m, heap.live) && View(m) == old(View(m))[uri := !old(View(m))[uri] && bound]
    ensures status == if !old(View(m))[uri] && bound then Spawned else ConnectionFailed
    ensures status != Spawned ==> forall s :: s in heap.live <==> s in old(heap.live) && s != old(t.data)
    ensures forall s :: s in heap.live ==> s in old(heap.live) || fresh(s)
  {
    status := ConnectOf(m, uri, t, heap, bound);
    assert View(m)[uri := false] == old(View(m))[uri := false];
    if status == Ok {
      status := Spawned;
    } else {
      var down := DisconnectOf(m, uri, t, heap);
      status := ConnectionFailed;
    }
  }

  /** What the manager is asked to do; whether a URI names a transport that can be made and whether
      a socket can be bound is up to the outside. */
  datatype Request =
    | Add(uri: string, supported: bool)
    | Remove(uri: string)
    | Run(uri: string, bound: bool)
    | Shutdown(uri: string)

  /** Which URIs are known, and which of them have a server, after a request. */
  function Next(view: map<string, bool>, r: Request): map<string, bool> {
    match r
    case Add(u, supported) => if u !in view && supported then view[u := false] else view
    case Remove(u) => if u in view && !view[u] then view - {u} else view
    case Run(u, bound) => if u in view then view[u := !view[u] && bound] else view
    case Shutdown(u) => if u in view then view[u := false] else view
  }

  /** The status a request answers with; `Add` has none. */
  function Reply(view: map<string, bool>, r: Request): Status {
    match r
    case Add(_, _) => Ok
    case Remove(u) => if u !in view then TransportNotFound else if view[u] then StillRunning else Ok
    case Run(u, bound) =>
      if u !in view then TransportNotFound else if !view[u] && bound then Spawned else ConnectionFailed
    case Shutdown(u) => if u !in view then TransportNotFound else if view[u] then Ok else AlreadyShutdown
  }

  /** The table of transports is used through the map that module HashTables proves it to be. */
  class Manager {
    var transports: map<string, Transport>
    const heap: ServerHeap

    ghost predicate Valid()
      reads this, transports.Values, heap, heap.live
    {
      Matched(transports, heap.live)
    }

    /** Every object this manager works on. */
    ghost function Repr(): set<object>
      reads this, heap
    {
      {this, heap} + transports.Values + heap.live
    }

    /** `bitu_conn_manager_new`. */
    constructor ()
      ensures Valid() && transports == map[] && heap.live == {} && fresh(heap)
    {
      transports := map[];
      heap := new ServerHeap();
    }

    /** `bitu_conn_manager_add`: a known URI keeps its transport. */
    method DoAdd(uri: string, supported: bool) returns (t: Transport?)
      requires Valid()
      modifies this`transports
      ensures Valid() && View(transports) == Next(old(View(transports)), Add(uri, supported))
      ensures if uri in old(transports) || !supported
              then transports == old(transports)
              else t != null && fresh(t) && transports == old(transports)[uri := t]
      ensures if uri in old(transports) then t == old(transports)[uri] else supported <==> t != null
    {
      if uri in transports {
        return transports[uri];
      }
      if !supported {
        return null;
      }
      t := NewTransport(transports, heap);
      MatchedAdd(transports, heap.live, uri, t);
      ViewAdd(transports, uri, t);
      transports := transports[uri := t];
    }

    /** The transport of a URI, which owns no server, leaves the table. */
    method Forget(uri: string)
      requires Valid() && uri in transports && transports[uri].data == null
      modifies this`transports
      ensures Valid() && transports == old(transports) - {uri} && View(transports) == old(View(transports)) - {uri}
    {
      MatchedDrop(transports, heap.live, uri);
      ViewDrop(transports, uri);
      transports := transports - {uri};
    }

    /** `bitu_conn_manager_remove`: a transport that owns a server stays. */
    method DoRemove(uri: string) returns (status: Status)
      requires Valid()
      modifies this`transports
      ensures Valid() && View(transports) == Next(old(View(transports)), Remove(uri))
      ensures status == Reply(old(View(transports)), Remove(uri))
      ensures uri !in old(transports) ==> status == TransportNotFound && transports == old(transports)
      ensures uri in old(transports) && old(transports[uri].data) != null ==>
                status == StillRunning && transports == old(transports)
      ensures uri in old(transports) && old(transports[uri].data) == null ==>
                status == Ok && transports == old(transports) - {uri}
    {
      status := TransportNotFound;
      if uri in transports {
        var t := transports[uri];
        var running := RunningOf(transports, uri, t, heap);
        status := StillRunning;
        if !running {
          Forget(uri);
          status := Ok;
        }
      }
    }

    /** `bitu_conn_manager_shutdown`. */
    method DoShutdown(uri: string) returns (status: Status)
      requires Valid()
      modifies transports.Values, heap, heap.live
      ensures Valid() && View(transports) == Next(old(View(transports)), Shutdown(uri))
      ensures status == Reply(old(View(transports)), Shutdown(uri))
      ensures uri !in transports ==> status == TransportNotFound && heap.live == old(heap.live)
      ensures uri in transports ==>
                && transports[uri].data == null
                && status == (if old(transports[uri].data) != null then Ok else AlreadyShutdown)
                && forall s :: s in heap.live <==> s in old(heap.live) && s != old(transports[uri].data)
      ensures forall s :: s in heap.live ==> s in old(heap.live)
    {
      if uri !in transports {
        return TransportNotFound;
      }
      status := DisconnectOf(transports, uri, transports[uri], heap);
    }

    /** `bitu_conn_manager_run`; the thread it starts is not part of this model. */
    method DoRun(uri: string, bound: bool) returns (status: Status)
      requires Valid()
      modifies transports.Values, heap, heap.live
      ensures Valid() && View(transports) == Next(old(View(transports)), Run(uri, bound))
      ensures status == Reply(old(View(transports)), Run(uri, bound))
      ensures forall s :: s in heap.live ==> s in old(heap.live) || fresh(s)
      ensures uri !in transports ==> status == TransportNotFound && heap.live == old(heap.live)
      ensures uri in transports ==>
                && (transports[uri].data != null <==> old(transports[uri].data) == null && bound)
                && status == if transports[uri].data != null then Spawned else ConnectionFailed
      ensures status == ConnectionFailed ==>
                forall s :: s in heap.live <==> s in old(heap.live) && s != old(transports[uri].data)
    {
      if uri !in transports {
        return TransportNotFound;
      }
      status := RunOf(transports, uri, transports[uri], heap, bound);
    }

    method Serve(r: Request) returns (status: Status)
      requires Valid()
      modifies Repr()
      ensures Valid() && View(transports) == Next(old(View(transports)), r) && status == Reply(old(View(transports)), r)
      ensures forall o :: o in Repr() ==> o in old(Repr()) || fresh(o)
      ensures forall u :: u in old(transports) && u in transports ==> transports[u] == old(transports)[u]
      ensures forall u :: u in old(transports) && u !in transports ==> r == Remove(u) && status == Ok
    {
      match r {
        case Add(uri, supported) =>
          var t := DoAdd(uri, supported);
          status := Ok;
        case Remove(uri) => status := DoRemove(uri);
        case Run(uri, bound) => status := DoRun(uri, bound);
        case Shutdown(uri) => status := DoShutdown(uri);
      }
    }
  }

  /** Which URIs are known, and which of them have a server, after the first i requests. */
  function After(view: map<string, bool>, requests: seq<Request>, i: nat): map<string, bool>
    requires i <= |requests|
  {
    if i == 0 then view else Next(After(view, requests, i - 1), requests[i - 1])
  }

  ghost predicate RepliesRight(view: map<string, bool>, requests: seq<Request>, replies: seq<Status>) {
    && |replies| <= |requests|
    && forall i {:trigger replies[i]} :: 0 <= i < |replies| ==>
         replies[i] == Reply(After(view, requests, i), requests[i])
  }

  lemma ReplyRight(view: map<string, bool>, requests: seq<Request>, replies: seq<Status>, status: Status)
    requires RepliesRight(view, requests, replies) && |replies| < |requests|
    requires status == Reply(After(view, requests, |replies|), requests[|replies|])
    ensures RepliesRight(view, requests, replies + [status])
  {
  }

  /** The request removes the URI, and succeeds. */
  predicate Removes(view: map<string, bool>, requests: seq<Request>, k: nat, uri: string)
    requires k < |requests|
  {
    requests[k] == Remove(uri) && Reply(After(view, requests, k), requests[k]) == Ok
  }

  /** These are exactly the requests at which a known URI becomes unknown. */
  lemma RemovesMeans(view: map<string, bool>, requests: seq<Request>, k: nat, uri: string)
    requires k < |requests|
    ensures Removes(view, requests, k, uri) <==>
            uri in After(view, requests, k) && uri !in After(view, requests, k + 1)
  {
  }

  /** None of the first n requests removes the URI. */
  ghost predicate Stays(view: map<string, bool>, requests: seq<Request>, n: nat, uri: string)
    requires n <= |requests|
  {
    forall k :: 0 <= k < n ==> !Removes(view, requests, k, uri)
  }

  /** Every URI known at the start that none of the first i requests removes has the transport it had. */
  ghost predicate KeptSince(was: map<string, Transport>, now: map<string, Transport>, view: map<string, bool>,
                            requests: seq<Request>, i: nat)
    requires i <= |requests|
  {
    forall u :: u in was && Stays(view, requests, i, u) ==> u in now && now[u] == was[u]
  }

  /** The request at position i keeps the transport of every URI it does not remove. */
  ghost predicate KeepsAt(was: map<string, Transport>, now: map<string, Transport>, view: map<string, bool>,
                          requests: seq<Request>, i: nat)
    requires i < |requests|
  {
    forall u :: u in was && !Removes(view, requests, i, u) ==> u in now && now[u] == was[u]
  }

  lemma KeptNext(was: map<string, Transport>, mid: map<string, Transport>, now: map<string, Transport>,
                 view: map<string, bool>, requests: seq<Request>, i: nat)
    requires i < |requests| && KeptSince(was, mid, view, requests, i) && KeepsAt(mid, now, view, requests, i)
    ensures KeptSince(was, now, view, requests, i + 1)
  {
    forall u | u in was && Stays(view, requests, i + 1, u) ensures u in now && now[u] == was[u] {
      assert Stays(view, requests, i, u) && !Removes(view, requests, i, u);
    }
  }

  /** The next request of a sequence. */
  method ServeNext(m: Manager, ghost view: map<string, bool>, requests: seq<Request>, i: nat) returns (status: Status)
    requires m.Valid() && i < |requests| && View(m.transports) == After(view, requests, i)
    modifies m.Repr()
    ensures m.Valid() && View(m.transports) == After(view, requests, i + 1)
    ensures status == Reply(After(view, requests, i), requests[i])
    ensures KeepsAt(old(m.transports), m.transports, view, requests, i)
    ensures forall o :: o in m.Repr() ==> o in old(m.Repr()) || fresh(o)
  {
    status := m.Serve(requests[i]);
  }

  /** Any sequence of requests, to a manager in any state: live servers and connected transports match
      one to one all along, every status is the one the history calls for, and a URI that is known at
      the start keeps its transport until one of the requests removes it. */
  method ServeOn(m: Manager, requests: seq<Request>) returns (replies: seq<Status>)
    requires m.Valid()
    modifies m.Repr()
    ensures m.Valid() && View(m.transports) == After(old(View(m.transports)), requests, |requests|)
    ensures |replies| == |requests| && RepliesRight(old(View(m.transports)), requests, replies)
    ensures KeptSince(old(m.transports), m.transports, old(View(m.transports)), requests, |requests|)
    ensures forall o :: o in m.Repr() ==> o in old(m.Repr()) || fresh(o)
  {
    ghost var view := View(m.transports);
    replies := [];
    for i := 0 to |requests|
      invariant m.Valid() && View(m.transports) == After(view, requests, i)
      invariant |replies| == i && RepliesRight(view, requests, replies)
      invariant KeptSince(old(m.transports), m.transports, view, requests, i)
      invariant forall o :: o in m.Repr() ==> o in old(m.Repr()) || fresh(o)
    {
      ghost var mid := m.transports;
      var status := ServeNext(m, view, requests, i);
      KeptNext(old(m.transports), mid, m.transports, view, requests, i);
      ReplyRight(view, requests, replies, status);
      replies := replies + [status];
    }
  }

  method NewManager() returns (m: Manager)
    ensures fresh(m) && fresh(m.Repr()) && m.Valid() && View(m.transports) == map[]
  {
    m := new Manager();
  }

  /** The same for a new manager, which knows no transport. */
  method ServeAll(requests: seq<Request>) returns (m: Manager, replies: seq<Status>)
    ensures fresh(m) && fresh(m.Repr()) && m.Valid() && View(m.transports) == After(map[], requests, |requests|)
    ensures |replies| == |requests| && RepliesRight(map[], requests, replies)
  {
    m := NewManager();
    replies := ServeOn(m, requests);
  }

  /** `bitu_conn_manager_add` of a URI that can be made. */
  method AddOn(m: Manager, ghost view: map<string, bool>, uri: string) returns (t: Transport)
    requires m.Valid() && View(m.transports) == view
    modifies m.Repr()
    ensures m.Valid() && View(m.transports) == Next(view, Add(uri, true))
    ensures uri in m.transports && m.transports[uri] == t
    ensures forall o :: o in m.Repr() ==> o in old(m.Repr()) || fresh(o)
  {
    t := m.DoAdd(uri, true);
  }

  /** Any requests, with one URI in view. */
  method ServeLater(m: Manager, ghost view: map<string, bool>, later: seq<Request>,
                    ghost uri: string, ghost t: Transport)
      returns (replies: seq<Status>)
    requires m.Valid() && View(m.transports) == view && uri in m.transports && m.transports[uri] == t
    modifies m.Repr()
    ensures m.Valid() && View(m.transports) == After(view, later, |later|)
    ensures |replies| == |later| && RepliesRight(view, later, replies)
    ensures Stays(view, later, |later|, uri) ==> uri in m.transports && m.transports[uri] == t
    ensures forall o :: o in m.Repr() ==> o in old(m.Repr()) || fresh(o)
  {
    replies := ServeOn(m, later);
  }

  /** A new manager, any requests, the add of a URI, and any requests after it: the URI has the transport
      that the add answered with, until one of the later requests removes it. */
  method ServeSinceAdd(before: seq<Request>, uri: string, later: seq<Request>)
      returns (m: Manager, t: Transport, replies: seq<Status>)
    ensures fresh(m) && m.Valid()
    ensures var view := Next(After(map[], before, |before|), Add(uri, true));
            && View(m.transports) == After(view, later, |later|)
            && |replies| == |later| && RepliesRight(view, later, replies)
            && (Stays(view, later, |later|, uri) ==> uri in m.transports && m.transports[uri] == t)
  {
    var earlier;
    m, earlier := ServeAll(before);
    ghost var view := View(m.transports);
    t := AddOn(m, view, uri);
    replies := ServeLater(m, Next(view, Add(uri, true)), later, uri, t);
  }

  /** `bitu_conn_manager_run` spawns exactly the transports that are known, not connected and can be
      bound, and the status "already running" never comes back. */
  lemma NeverAlreadyRunning(view: map<string, bool>, r: Request)
    ensures Reply(view, r) != AlreadyRunning
    ensures r.Run? ==> (Reply(view, r) == Spawned <==> r.uri in view && !view[r.uri] && r.bound)
    ensures r.Run? && r.uri in view && view[r.uri] ==> Reply(view, r) == ConnectionFailed && !Next(view, r)[r.uri]
  {
  }

  /** Running a running transport: it is shut down. */
  lemma RunTwice(uri: string, bound: bool)
    ensures var requests := [Add(uri, true), Run(uri, true), Run(uri, bound)];
            var once, twice := After(map[], requests, 2), After(map[], requests, 3);
            once == map[uri := true] && Reply(once, requests[2]) == ConnectionFailed && twice == map[uri := false]
  {
    var requests := [Add(uri, true), Run(uri, true), Run(uri, bound)];
    assert After(map[], requests, 1) == map[uri := false];
  }
}
