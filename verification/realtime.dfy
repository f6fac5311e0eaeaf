/** The WebSocket connection registry of `app/routes/realtime.py`: one socket
    per project id, kept in a dict whose key order (insertion order) is what
    the health endpoint lists. The dict is a sequence of entries in that
    order; sockets are opaque handles and sending on one is a foreign step
    whose outcome is an input. */
module Realtime {
  import opened Wrappers

  /** An accepted WebSocket, told apart from others by its handle. */
  datatype Socket = Socket(handle: nat)

  /** One `project_id: websocket` pair of `active_connections`. */
  datatype Entry = Entry(project: string, socket: Socket)

  /** `ConnectionManager`: `active_connections` in insertion order. */
  datatype Manager = Manager(entries: seq<Entry>)

  /** `ConnectionManager()`: no connection yet, so the one-socket-per-project
      invariant that every operation keeps holds from the start. */
  function NewManager(): (m: Manager)
    ensures Valid(m.entries)
    ensures forall p :: Lookup(m.entries, p).None?
    ensures Health(m) == HealthReport(0, [])
  {
    Manager([])
  }

  /** The project ids of a table, in table order (`list(d.keys())`). */
  function Projects(es: seq<Entry>): (ps: seq<string>)
    ensures |ps| == |es|
    ensures forall i :: 0 <= i < |es| ==> ps[i] == es[i].project
  {
    if es == [] then [] else [es[0].project] + Projects(es[1..])
  }

  /** A dict has each key at most once. */
  predicate Valid(es: seq<Entry>)
  {
    forall i, j :: 0 <= i < j < |es| ==> es[i].project != es[j].project
  }

  /** `d.get(project)`. */
  function Lookup(es: seq<Entry>, p: string): (r: Option<Socket>)
    ensures r.Some? ==> exists i :: 0 <= i < |es| && es[i] == Entry(p, r.value)
  {
    if es == [] then None
    else if es[0].project == p then Some(es[0].socket)
    else Lookup(es[1..], p)
  }

  /** `d[p] = s`: an existing key keeps its place and gets the new value; a
      new key goes to the end. */
  function Put(es: seq<Entry>, p: string, s: Socket): (r: seq<Entry>)
    ensures Lookup(r, p) == Some(s)
  {
    if es == [] then [Entry(p, s)]
    else if es[0].project == p then [Entry(p, s)] + es[1..]
    else [es[0]] + Put(es[1..], p, s)
  }

  /** `del d[p]` for a key that is present, and nothing otherwise. */
  function Delete(es: seq<Entry>, p: string): (r: seq<Entry>)
    ensures Lookup(es, p).None? ==> r == es
    ensures Lookup(es, p).Some? ==> |r| == |es| - 1
  {
    if es == [] then []
    else if es[0].project == p then es[1..]
    else [es[0]] + Delete(es[1..], p)
  }

  /** Assigning a key changes no other key, and the key order changes only
      by a new key going last. */
  lemma PutSpec(es: seq<Entry>, p: string, s: Socket)
    ensures forall q :: q != p ==> Lookup(Put(es, p, s), q) == Lookup(es, q)
    ensures Lookup(es, p).Some? ==> Projects(Put(es, p, s)) == Projects(es)
    ensures Lookup(es, p).None? ==> Projects(Put(es, p, s)) == Projects(es) + [p]
  {
    forall q | q != p ensures Lookup(Put(es, p, s), q) == Lookup(es, q) {
      PutOther(es, p, s, q);
    }
    PutOrder(es, p, s);
  }

  lemma {:induction false} PutOther(es: seq<Entry>, p: string, s: Socket, q: string)
    requires q != p
    ensures Lookup(Put(es, p, s), q) == Lookup(es, q)
  {
    if es != [] {
      var r := Put(es, p, s);
      if es[0].project == p {
        assert r[1..] == es[1..];
      } else {
        PutOther(es[1..], p, s, q);
        assert r[0] == es[0] && r[1..] == Put(es[1..], p, s);
      }
    }
  }

  lemma {:induction false} PutOrder(es: seq<Entry>, p: string, s: Socket)
    ensures Lookup(es, p).Some? ==> Projects(Put(es, p, s)) == Projects(es)
    ensures Lookup(es, p).None? ==> Projects(Put(es, p, s)) == Projects(es) + [p]
  {
    if es != [] {
      var r := Put(es, p, s);
      if es[0].project == p {
        assert r[1..] == es[1..];
      } else {
        var t := es[1..];
        PutOrder(t, p, s);
        assert r[0] == es[0] && r[1..] == Put(t, p, s);
        assert Projects(r) == [es[0].project] + Projects(Put(t, p, s));
        assert Projects(es) == [es[0].project] + Projects(t);
      }
    }
  }

  /** Deleting a key changes no other key; on a table with distinct keys the
      key is gone afterwards. */
  lemma {:induction false} DeleteSpec(es: seq<Entry>, p: string)
    ensures forall q :: q != p ==> Lookup(Delete(es, p), q) == Lookup(es, q)
    ensures Valid(es) ==> Lookup(Delete(es, p), p) == None
  {
    if es != [] {
      var t := es[1..];
      DeleteSpec(t, p);
      if es[0].project == p {
        forall q | q != p ensures Lookup(t, q) == Lookup(es, q) {
        }
        if Valid(es) {
          forall k | 0 <= k < |t| ensures Projects(t)[k] != p {
            assert t[k] == es[k + 1];
          }
        }
      } else {
        var r := Delete(es, p);
        assert r[0] == es[0] && r[1..] == Delete(t, p);
      }
    }
  }

  /** A key is found exactly when it is among the listed keys. */
  lemma {:induction false} LookupListed(es: seq<Entry>, p: string)
    ensures Lookup(es, p).Some? <==> p in Projects(es)
  {
    if es != [] {
      LookupListed(es[1..], p);
      assert Projects(es) == [es[0].project] + Projects(es[1..]);
    }
  }

  /** In a table with distinct keys, the tail has distinct keys and does not
      hold the head's key. */
  lemma ValidTail(es: seq<Entry>)
    requires Valid(es) && es != []
    ensures Valid(es[1..]) && Lookup(es[1..], es[0].project).None?
  {
  }

  /** An entry whose key the table does not hold can go in front. */
  lemma ConsValid(e: Entry, t: seq<Entry>)
    requires Valid(t) && Lookup(t, e.project).None?
    ensures Valid([e] + t)
  {
    var r := [e] + t;
    forall j | 1 <= j < |r| ensures r[j].project != e.project {
      assert r[j] == t[j - 1];
      LookupFindsEntry(t, j - 1);
    }
  }

  /** Assigning a key keeps the keys distinct. */
  lemma {:induction false} PutValid(es: seq<Entry>, p: string, s: Socket)
    requires Valid(es)
    ensures Valid(Put(es, p, s))
  {
    if es != [] {
      var t := es[1..];
      ValidTail(es);
      if es[0].project == p {
        ConsValid(Entry(p, s), t);
      } else {
        PutValid(t, p, s);
        PutSpec(t, p, s);
        ConsValid(es[0], Put(t, p, s));
      }
    }
  }

  /** In a table with distinct keys, looking up the key of an entry finds
      that entry. */
  lemma {:induction false} LookupFindsEntry(es: seq<Entry>, i: nat)
    requires i < |es|
    ensures Lookup(es, es[i].project).Some?
  {
    if i > 0 && es[0].project != es[i].project {
      LookupFindsEntry(es[1..], i - 1);
    }
  }

  /** Deleting the key of the entry at `i`, when no earlier entry has that
      key (as in a table with distinct keys), removes that entry and keeps
      the others in order. */
  lemma {:induction false} DeleteRemovesEntry(es: seq<Entry>, i: nat)
    requires i < |es|
    requires forall k :: 0 <= k < i ==> es[k].project != es[i].project
    ensures Delete(es, es[i].project) == es[..i] + es[i + 1..]
  {
    if i > 0 {
      var t, p := es[1..], es[i].project;
      assert es[0].project != p;
      assert t[i - 1] == es[i];
      forall k | 0 <= k < i - 1 ensures t[k].project != p {
        assert t[k] == es[k + 1];
      }
      DeleteRemovesEntry(t, i - 1);
      assert Delete(es, p) == [es[0]] + Delete(t, p);
      SpliceCons(es, i);
    }
  }

  /** Removing position `i > 0` commutes with taking the head off. */
  lemma SpliceCons(es: seq<Entry>, i: nat)
    requires 0 < i < |es|
    ensures [es[0]] + (es[1..][..i - 1] + es[1..][i..]) == es[..i] + es[i + 1..]
  {
    assert es[..i] == [es[0]] + es[1..][..i - 1];
    assert es[i + 1..] == es[1..][i..];
  }

  /** Deleting a key keeps the keys distinct. */
  lemma {:induction false} DeleteValid(es: seq<Entry>, p: string)
    requires Valid(es)
    ensures Valid(Delete(es, p))
  {
    if es != [] {
      var t := es[1..];
      ValidTail(es);
      if es[0].project != p {
        DeleteValid(t, p);
        DeleteSpec(t, p);
        ConsValid(es[0], Delete(t, p));
      }
    }
  }

  // ----------------------------------------------------------- the manager

  /** `connect(websocket, project_id)`: `accept` is the outcome of
      `websocket.accept()`; when it raises, the registry is untouched and
      the fault propagates. Otherwise the socket replaces any earlier one
      for the project. */
  function Connect(m: Manager, p: string, s: Socket, accept: Outcome): (r: (Outcome, Manager))
    ensures r.0 == accept
    ensures accept.Fail? ==> r.1 == m
    ensures accept.Pass? ==> Lookup(r.1.entries, p) == Some(s)
  {
    if accept.Fail? then (accept, m) else (Pass, Manager(Put(m.entries, p, s)))
  }

  /** `disconnect(project_id)`: removes whatever socket is registered for the
      project, which need not be the caller's. */
  function Disconnect(m: Manager, p: string): (r: Manager)
    ensures Lookup(m.entries, p).None? ==> r == m
    ensures Lookup(m.entries, p).Some? ==> |r.entries| == |m.entries| - 1
    ensures Valid(m.entries) ==> Lookup(r.entries, p) == None
    ensures forall q :: q != p ==> Lookup(r.entries, q) == Lookup(m.entries, q)
  {
    DeleteSpec(m.entries, p);
    if Lookup(m.entries, p).Some? then Manager(Delete(m.entries, p)) else m
  }

  /** What `send_to_project` did with the message. */
  datatype Delivery =
    | NotConnected                        // no socket registered: nothing is sent
    | Sent(to: Socket)                    // `send_text` returned
    | Dropped(to: Socket, error: string)  // `send_text` raised: logged, and the project disconnected

  /** `send_to_project(project_id, message)`: `send` is the outcome of
      `send_text(json.dumps(message))` on the registered socket, covering a
      fault of either call. A failure is swallowed and disconnects the
      project. */
  function SendToProject(m: Manager, p: string, send: Outcome): (r: (Delivery, Manager))
    ensures Lookup(m.entries, p).None? <==> r.0 == NotConnected
    ensures r.0.Sent? || r.0.Dropped? ==> Lookup(m.entries, p) == Some(r.0.to)
    ensures r.0.Dropped? <==> Lookup(m.entries, p).Some? && send.Fail?
    ensures !r.0.Dropped? ==> r.1 == m
    ensures r.0.Dropped? ==> r.1 == Disconnect(m, p) && r.0.error == send.msg
  {
    match Lookup(m.entries, p)
    case None => (NotConnected, m)
    case Some(s) => SendResumed(m, p, s, send)
  }

  /** What `send_to_project` does once the awaited send on `s` has ended:
      `m` is the manager at that moment, which other handlers may have
      changed meanwhile, and a failure disconnects whatever is registered
      under `p` by then. */
  function SendResumed(m: Manager, p: string, s: Socket, send: Outcome): (r: (Delivery, Manager))
    ensures !r.0.NotConnected? && r.0.to == s
    ensures r.0.Dropped? <==> send.Fail?
    ensures send.Pass? ==> r.1 == m
    // whatever other handlers left behind, a failure leaves `p` unconnected
    // and every other project as it was
    ensures send.Fail? && Valid(m.entries) ==> Lookup(r.1.entries, p) == None
    ensures forall q :: q != p ==> Lookup(r.1.entries, q) == Lookup(m.entries, q)
  {
    match send
    case Pass => (Sent(s), m)
    case Fail(e) => (Dropped(s, e), Disconnect(m, p))
  }

  /** The dict `GET /ws/health` returns. */
  datatype HealthReport = HealthReport(activeConnections: nat, projects: seq<string>)

  /** `websocket_health()`. */
  function Health(m: Manager): (h: HealthReport)
    ensures h.activeConnections == |h.projects|
    ensures forall p :: p in h.projects <==> Lookup(m.entries, p).Some?
  {
    forall p ensures p in Projects(m.entries) <==> Lookup(m.entries, p).Some? {
      LookupListed(m.entries, p);
    }
    HealthReport(|m.entries|, Projects(m.entries))
  }

  // -------------------------------------------------------------- properties

  /** Connecting a project leaves every other project's socket alone. */
  lemma ConnectTouchesOnlyProject(m: Manager, p: string, s: Socket, accept: Outcome, q: string)
    requires q != p
    ensures Lookup(Connect(m, p, s, accept).1.entries, q) == Lookup(m.entries, q)
  {
    PutSpec(m.entries, p, s);
  }

  /** Every operation keeps one socket per project. */
  lemma OperationsKeepValid(m: Manager, p: string, s: Socket, accept: Outcome, send: Outcome)
    requires Valid(m.entries)
    ensures Valid(Connect(m, p, s, accept).1.entries)
    ensures Valid(Disconnect(m, p).entries)
    ensures Valid(SendToProject(m, p, send).1.entries)
  {
    PutValid(m.entries, p, s);
    DeleteValid(m.entries, p);
  }

  /** With one socket per project, the connection count is the number of
      distinct connected projects. */
  lemma HealthCountsProjects(m: Manager)
    requires Valid(m.entries)
    ensures Health(m).activeConnections == |Listed(Projects(m.entries))|
  {
    DistinctCount(m.entries);
  }

  /** The distinct elements of a listing. */
  function Listed(ps: seq<string>): (keys: set<string>)
    ensures forall p :: p in keys <==> p in ps
  {
    set p | p in ps
  }

  lemma {:induction false} DistinctCount(es: seq<Entry>)
    requires Valid(es)
    ensures |Listed(Projects(es))| == |es|
  {
    if es != [] {
      var t := es[1..];
      ValidTail(es);
      DistinctCount(t);
      LookupListed(t, es[0].project);
      assert Projects(es) == [es[0].project] + Projects(t);
      assert Listed(Projects(es)) == {es[0].project} + Listed(Projects(t));
    }
  }

  /** Connecting again replaces the socket: the last writer wins. */
  lemma {:induction false} LastConnectionWins(es: seq<Entry>, p: string, s1: Socket, s2: Socket)
    ensures Put(Put(es, p, s1), p, s2) == Put(es, p, s2)
  {
    if es != [] && es[0].project != p {
      LastConnectionWins(es[1..], p, s1, s2);
      assert Put(es, p, s1)[1..] == Put(es[1..], p, s1);
    }
  }

  /** A reconnecting project keeps its place in the health listing; a
      project connected for the first time is listed last. */
  lemma ConnectListing(m: Manager, p: string, s: Socket)
    ensures Lookup(m.entries, p).Some? ==> Health(Connect(m, p, s, Pass).1).projects == Health(m).projects
    ensures Lookup(m.entries, p).None? ==> Health(Connect(m, p, s, Pass).1).projects == Health(m).projects + [p]
  {
    PutSpec(m.entries, p, s);
  }

  /** Connecting a new project and disconnecting it restores the registry. */
  lemma {:induction false} ConnectDisconnectRoundTrip(es: seq<Entry>, p: string, s: Socket)
    requires Lookup(es, p).None?
    ensures Disconnect(Connect(Manager(es), p, s, Pass).1, p) == Manager(es)
  {
    if es != [] {
      ConnectDisconnectRoundTrip(es[1..], p, s);
      assert Put(es, p, s) == [es[0]] + Put(es[1..], p, s);
    }
  }

  /** Disconnecting twice is disconnecting once. */
  lemma DisconnectIdempotent(m: Manager, p: string)
    requires Valid(m.entries)
    ensures Disconnect(Disconnect(m, p), p) == Disconnect(m, p)
  {
  }

  /** The registry is keyed by project only: when a second client connects
      to a project and the first client's handler then ends, its
      `disconnect` removes the second client's socket. */
  lemma StaleDisconnectEvictsNewer(m: Manager, p: string, first: Socket, second: Socket)
    requires Valid(m.entries)
    ensures var m1 := Connect(m, p, first, Pass).1;
            var m2 := Connect(m1, p, second, Pass).1;
            Lookup(m2.entries, p) == Some(second) && Lookup(Disconnect(m2, p).entries, p) == None
  {
    PutValid(m.entries, p, first);
    PutValid(Put(m.entries, p, first), p, second);
  }

  /** `send_text` is awaited, so a `connect` for the same project can run
      while a send to its previous socket is pending. When that stale send
      then fails, its cleanup evicts the newer socket, and the project is
      left without any connection. */
  lemma StaleSendFailureEvictsNewer(m: Manager, p: string, stale: Socket, newer: Socket, e: string)
    requires Valid(m.entries) && Lookup(m.entries, p) == Some(stale)
    ensures var during := Connect(m, p, newer, Pass).1;
            var (d, after) := SendResumed(during, p, stale, Fail(e));
            && Lookup(during.entries, p) == Some(newer)
            && d == Dropped(stale, e)
            && Lookup(after.entries, p) == None
  {
    PutValid(m.entries, p, newer);
  }

  /** A failed send drops only the failing project: every other project keeps
      its socket, and a later send to the dropped project sends nothing. */
  lemma SendFailureDropsOnlyThatProject(m: Manager, p: string, e: string, later: Outcome)
    requires Valid(m.entries) && Lookup(m.entries, p).Some?
    ensures var m' := SendToProject(m, p, Fail(e)).1;
            && (forall q :: q != p ==> Lookup(m'.entries, q) == Lookup(m.entries, q))
            && SendToProject(m', p, later) == (NotConnected, m')
  {
  }
}
