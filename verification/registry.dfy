/** The two subscriber registries (`wsClients` and `sseClients`), the
    effects a handler produces, and the two broadcast helpers. */
module Registry {
  import opened Json

  /** Identity of a connection object (a WebSocket, or an HTTP response
      held open for server-sent events). JavaScript compares these by
      reference; each new connection is a new object. */
  type ConnId = nat

  /** The `readyState` value of an open WebSocket. */
  const OPEN: int := 1

  datatype WsClient = WsClient(conn: ConnId, readyState: int)

  /** An entry of `sseClients`: the id taken from the clock when the
      stream opened, and the response it writes to. */
  datatype SseClient = SseClient(id: int, res: ConnId)

  datatype Target = WsConn(conn: ConnId) | SseConn(res: ConnId)

  /** What a handler does to the world outside the three state variables:
      hand a record to the datastore, or write a payload to a connection. */
  datatype Effect = Persist(rec: Record) | Send(to: Target, payload: string)

  // ---------------------------------------------------------------------
  // Sequences: filtering and distinct keys

  /** `Array.prototype.filter`: the elements satisfying `keep`, in order. */
  function Filter<T(!new)>(xs: seq<T>, keep: T -> bool): (r: seq<T>)
    ensures |r| <= |xs|
    ensures forall x :: x in r <==> x in xs && keep(x)
  {
    if xs == [] then []
    else (if keep(xs[0]) then [xs[0]] else []) + Filter(xs[1..], keep)
  }

  /** Filtering a concatenation filters each part. */
  lemma {:induction false} FilterAppend<T(!new)>(xs: seq<T>, ys: seq<T>, keep: T -> bool)
    ensures Filter(xs + ys, keep) == Filter(xs, keep) + Filter(ys, keep)
  {
    if xs != [] {
      assert (xs + ys)[0] == xs[0];
      assert (xs + ys)[1..] == xs[1..] + ys;
      FilterAppend(xs[1..], ys, keep);
    } else {
      assert xs + ys == ys;
    }
  }

  /** Filtering keeps a sequence whole when every element passes. */
  lemma {:induction false} FilterKeepsAll<T(!new)>(xs: seq<T>, keep: T -> bool)
    requires forall x :: x in xs ==> keep(x)
    ensures Filter(xs, keep) == xs
  {
    if xs != [] {
      FilterKeepsAll(xs[1..], keep);
    }
  }

  /** The keys of the elements of a sequence. */
  function KeySet<T(==,!new), K(==,!new)>(xs: seq<T>, key: T -> K): (ks: set<K>)
    ensures forall x :: x in xs ==> key(x) in ks
    ensures forall k :: k in ks ==> exists x :: x in xs && key(x) == k
  {
    set x | x in xs :: key(x)
  }

  /** No two elements of the sequence share a key. */
  predicate Distinct<T(==,!new), K(==,!new)>(xs: seq<T>, key: T -> K) {
    xs == [] || (key(xs[0]) !in KeySet(xs[1..], key) && Distinct(xs[1..], key))
  }

  /** Appending an element with a fresh key keeps keys distinct. */
  lemma {:induction false} DistinctAppend<T(!new), K(!new)>(xs: seq<T>, y: T, key: T -> K)
    requires Distinct(xs, key) && key(y) !in KeySet(xs, key)
    ensures Distinct(xs + [y], key)
  {
    if xs != [] {
      assert (xs + [y])[0] == xs[0];
      assert (xs + [y])[1..] == xs[1..] + [y];
      DistinctAppend(xs[1..], y, key);
    } else {
      assert xs + [y] == [y];
    }
  }

  /** Filtering never adds a key. */
  lemma FilterKeySet<T(!new), K(!new)>(xs: seq<T>, keep: T -> bool, key: T -> K)
    ensures KeySet(Filter(xs, keep), key) <= KeySet(xs, key)
  {
  }

  /** Filtering keeps keys distinct. */
  lemma {:induction false} FilterDistinct<T(!new), K(!new)>(xs: seq<T>, keep: T -> bool, key: T -> K)
    requires Distinct(xs, key)
    ensures Distinct(Filter(xs, keep), key)
  {
    if xs != [] {
      FilterDistinct(xs[1..], keep, key);
      var rest := Filter(xs[1..], keep);
      assert Filter(xs, keep) == (if keep(xs[0]) then [xs[0]] else []) + rest;
      if keep(xs[0]) {
        var r := [xs[0]] + rest;
        assert r[0] == xs[0] && r[1..] == rest;
        FilterKeySet(xs[1..], keep, key);
      } else {
        assert Filter(xs, keep) == rest;
      }
    }
  }

  // ---------------------------------------------------------------------
  // Registry keys and removal

  const WsKey: WsClient -> ConnId := (c: WsClient) => c.conn
  const SseKey: SseClient -> ConnId := (c: SseClient) => c.res

  function OtherSocket(conn: ConnId): WsClient -> bool {
    (c: WsClient) => c.conn != conn
  }

  function OtherId(id: int): SseClient -> bool {
    (c: SseClient) => c.id != id
  }

  /** Removal of a closed socket: every entry for that socket object goes,
      the others stay in their order. */
  function RemoveWs(clients: seq<WsClient>, conn: ConnId): (r: seq<WsClient>)
    ensures forall c :: c in r <==> c in clients && c.conn != conn
  {
    Filter(clients, OtherSocket(conn))
  }

  /** Removal of a closed stream by its clock id: every entry carrying
      that id goes, not only the one that opened with it, and the others
      stay in their order. */
  function RemoveSse(clients: seq<SseClient>, id: int): (r: seq<SseClient>)
    ensures forall c :: c in r <==> c in clients && c.id != id
  {
    Filter(clients, OtherId(id))
  }

  /** Stream removal works entry by entry: a concatenation loses exactly
      what each part loses, and a single entry goes exactly when it
      carries the id. So the survivors keep their order, each once. */
  lemma RemoveSsePiecewise(xs: seq<SseClient>, ys: seq<SseClient>, c: SseClient, id: int)
    ensures RemoveSse(xs + ys, id) == RemoveSse(xs, id) + RemoveSse(ys, id)
    ensures RemoveSse([c], id) == if c.id == id then [] else [c]
  {
    FilterAppend(xs, ys, OtherId(id));
    assert [c][1..] == [];
  }

  /** Socket removal works entry by entry in the same way. */
  lemma RemoveWsPiecewise(xs: seq<WsClient>, ys: seq<WsClient>, c: WsClient, conn: ConnId)
    ensures RemoveWs(xs + ys, conn) == RemoveWs(xs, conn) + RemoveWs(ys, conn)
    ensures RemoveWs([c], conn) == if c.conn == conn then [] else [c]
  {
    FilterAppend(xs, ys, OtherSocket(conn));
    assert [c][1..] == [];
  }

  /** One registry entry after the socket `conn` moves to `readyState`. */
  function RetuneOne(c: WsClient, conn: ConnId, readyState: int): WsClient {
    if c.conn == conn then WsClient(conn, readyState) else c
  }

  /** The socket library moves a socket to another `readyState` (for
      instance CLOSING, before its `close` event fires). Every entry for
      that socket object sees the new value in its place; every other
      entry stays as it is, where it is. */
  function Retune(clients: seq<WsClient>, conn: ConnId, readyState: int): (r: seq<WsClient>)
    ensures |r| == |clients|
    ensures forall i :: 0 <= i < |r| ==> r[i] == RetuneOne(clients[i], conn, readyState)
  {
    if clients == [] then []
    else [RetuneOne(clients[0], conn, readyState)] + Retune(clients[1..], conn, readyState)
  }

  /** A change of `readyState` keeps the set of registered socket objects. */
  lemma RetuneKeySet(clients: seq<WsClient>, conn: ConnId, readyState: int)
    ensures KeySet(Retune(clients, conn, readyState), WsKey) == KeySet(clients, WsKey)
  {
    var r := Retune(clients, conn, readyState);
    forall k | k in KeySet(r, WsKey)
      ensures k in KeySet(clients, WsKey)
    {
      var d :| d in r && WsKey(d) == k;
      var i :| 0 <= i < |r| && r[i] == d;
      assert clients[i] in clients && WsKey(clients[i]) == k;
    }
    forall k | k in KeySet(clients, WsKey)
      ensures k in KeySet(r, WsKey)
    {
      var c :| c in clients && WsKey(c) == k;
      var i :| 0 <= i < |clients| && clients[i] == c;
      assert r[i] in r && WsKey(r[i]) == k;
    }
  }

  /** Changing a socket's `readyState` keeps sockets registered once. */
  lemma {:induction false} RetuneDistinct(clients: seq<WsClient>, conn: ConnId, readyState: int)
    requires Distinct(clients, WsKey)
    ensures Distinct(Retune(clients, conn, readyState), WsKey)
  {
    if clients != [] {
      var h := RetuneOne(clients[0], conn, readyState);
      var rest := Retune(clients[1..], conn, readyState);
      var r := Retune(clients, conn, readyState);
      assert r == [h] + rest;
      assert r[0] == h && r[1..] == rest;
      RetuneDistinct(clients[1..], conn, readyState);
      RetuneKeySet(clients[1..], conn, readyState);
    }
  }

  // ---------------------------------------------------------------------
  // Broadcast

  /** `broadcastWebSocket`: the payload is sent to every registered socket
      whose `readyState` is OPEN at the time of the broadcast, in
      registration order (`BroadcastWsPiecewise`); the others are skipped
      but stay registered. */
  function BroadcastWs(clients: seq<WsClient>, payload: string): (log: seq<Effect>)
    ensures |log| <= |clients|
    ensures forall e :: e in log <==>
      exists c :: c in clients && c.readyState == OPEN && e == Send(WsConn(c.conn), payload)
  {
    if clients == [] then []
    else
      var head := if clients[0].readyState == OPEN then [Send(WsConn(clients[0].conn), payload)] else [];
      var rest := BroadcastWs(clients[1..], payload);
      assert forall c :: c in clients <==> c == clients[0] || c in clients[1..];
      head + rest
  }

  /** A socket broadcast goes through the registry entry by entry: the
      sends for a concatenation are the sends for each part in turn, and
      one entry gets the payload exactly when it is open. */
  lemma {:induction false} BroadcastWsPiecewise(xs: seq<WsClient>, ys: seq<WsClient>, c: WsClient, payload: string)
    ensures BroadcastWs(xs + ys, payload) == BroadcastWs(xs, payload) + BroadcastWs(ys, payload)
    ensures BroadcastWs([c], payload) == if c.readyState == OPEN then [Send(WsConn(c.conn), payload)] else []
  {
    if xs != [] {
      assert (xs + ys)[0] == xs[0];
      assert (xs + ys)[1..] == xs[1..] + ys;
      BroadcastWsPiecewise(xs[1..], ys, c, payload);
    } else {
      assert xs + ys == ys;
    }
    assert [c][1..] == [];
  }

  /** The frame `broadcastSSE` and the stream handshake write:
      `data: <json>` followed by a blank line. */
  function SseFrame(json: string): string {
    "data: " + json + "\n\n"
  }

  /** `broadcastSSE`: the payload is written to every registered stream
      in registration order, with no readiness check. */
  function BroadcastSse(clients: seq<SseClient>, payload: string): (log: seq<Effect>)
    ensures |log| == |clients|
    ensures forall i :: 0 <= i < |clients| ==> log[i] == Send(SseConn(clients[i].res), payload)
  {
    if clients == [] then []
    else [Send(SseConn(clients[0].res), payload)] + BroadcastSse(clients[1..], payload)
  }

  // ---------------------------------------------------------------------
  // What each connection receives

  /** The payloads written to one connection, in the order written. */
  function DeliveredTo(log: seq<Effect>, t: Target): seq<string> {
    if log == [] then [] else PayloadFor(log[0], t) + DeliveredTo(log[1..], t)
  }

  /** The payload an effect writes to `t`, if it writes to `t`. */
  function PayloadFor(e: Effect, t: Target): seq<string> {
    if e.Send? && e.to == t then [e.payload] else []
  }

  /** A one-effect log delivers that effect's payload, if any. */
  lemma DeliveredToSingle(e: Effect, t: Target)
    ensures DeliveredTo([e], t) == PayloadFor(e, t)
  {
  }

  /** What a connection receives from two logs in turn is what it
      receives from each, in turn. */
  lemma {:induction false} DeliveredToAppend(a: seq<Effect>, b: seq<Effect>, t: Target)
    ensures DeliveredTo(a + b, t) == DeliveredTo(a, t) + DeliveredTo(b, t)
  {
    if a != [] {
      var p := PayloadFor(a[0], t);
      assert (a + b)[0] == a[0];
      assert (a + b)[1..] == a[1..] + b;
      DeliveredToAppend(a[1..], b, t);
      calc {
        DeliveredTo(a + b, t);
        p + DeliveredTo(a[1..] + b, t);
        p + (DeliveredTo(a[1..], t) + DeliveredTo(b, t));
        (p + DeliveredTo(a[1..], t)) + DeliveredTo(b, t);
        DeliveredTo(a, t) + DeliveredTo(b, t);
      }
    } else {
      assert a + b == b;
    }
  }

  /** One delivery followed by another is two deliveries, in that order. */
  lemma DeliveredInTurn(first: seq<Effect>, second: seq<Effect>, t: Target, x: string, y: string)
    requires DeliveredTo(first, t) == [x] && DeliveredTo(second, t) == [y]
    ensures DeliveredTo(first + second, t) == [x, y]
  {
    DeliveredToAppend(first, second, t);
  }

  /** A log with no write to `t` delivers nothing to it. */
  lemma {:induction false} DeliveredToNone(log: seq<Effect>, t: Target)
    requires forall e :: e in log ==> !(e.Send? && e.to == t)
    ensures DeliveredTo(log, t) == []
  {
    if log != [] {
      DeliveredToNone(log[1..], t);
    }
  }

  /** A socket broadcast reaches each registered socket exactly once if it
      is open and not at all otherwise, when sockets are registered once. */
  lemma {:induction false} BroadcastWsOnce(clients: seq<WsClient>, payload: string, c: WsClient)
    requires Distinct(clients, WsKey) && c in clients
    ensures DeliveredTo(BroadcastWs(clients, payload), WsConn(c.conn))
            == if c.readyState == OPEN then [payload] else []
  {
    var h := clients[0];
    var head := if h.readyState == OPEN then [Send(WsConn(h.conn), payload)] else [];
    var rest := BroadcastWs(clients[1..], payload);
    assert BroadcastWs(clients, payload) == head + rest;
    DeliveredToAppend(head, rest, WsConn(c.conn));
    if h == c {
      assert c.conn !in KeySet(clients[1..], WsKey);
      forall e | e in rest
        ensures !(e.Send? && e.to == WsConn(c.conn))
      {
        var d :| d in clients[1..] && d.readyState == OPEN && e == Send(WsConn(d.conn), payload);
        assert WsKey(d) in KeySet(clients[1..], WsKey);
      }
      DeliveredToNone(rest, WsConn(c.conn));
    } else {
      assert c in clients[1..];
      assert WsKey(c) in KeySet(clients[1..], WsKey);
      assert h.conn != c.conn;
      BroadcastWsOnce(clients[1..], payload, c);
    }
  }

  /** A stream broadcast writes nothing to a response that is not
      registered. */
  lemma BroadcastSseMisses(clients: seq<SseClient>, payload: string, res: ConnId)
    requires res !in KeySet(clients, SseKey)
    ensures DeliveredTo(BroadcastSse(clients, payload), SseConn(res)) == []
  {
    var log := BroadcastSse(clients, payload);
    forall e | e in log
      ensures !(e.Send? && e.to == SseConn(res))
    {
      var i :| 0 <= i < |log| && log[i] == e;
      assert SseKey(clients[i]) in KeySet(clients, SseKey);
    }
    DeliveredToNone(log, SseConn(res));
  }

  /** A stream broadcast writes to each registered response exactly once,
      when responses are registered once. */
  lemma {:induction false} BroadcastSseOnce(clients: seq<SseClient>, payload: string, c: SseClient)
    requires Distinct(clients, SseKey) && c in clients
    ensures DeliveredTo(BroadcastSse(clients, payload), SseConn(c.res)) == [payload]
  {
    var h := clients[0];
    var rest := BroadcastSse(clients[1..], payload);
    assert BroadcastSse(clients, payload) == [Send(SseConn(h.res), payload)] + rest;
    DeliveredToAppend([Send(SseConn(h.res), payload)], rest, SseConn(c.res));
    if h == c {
      BroadcastSseMisses(clients[1..], payload, c.res);
    } else {
      assert c in clients[1..];
      assert SseKey(c) in KeySet(clients[1..], SseKey);
      BroadcastSseOnce(clients[1..], payload, c);
    }
  }
}
