/** The dispatch state machine of the telemetry server: the latest-value
    cache and the two registries, moved by one handler at a time. The
    event loop runs every handler to completion, so each handler is one
    atomic transition from a state to a state plus the effects it caused
    and, for HTTP handlers, the reply. */
module Server {
  import opened Json
  import opened Registry

  /** `latestData`, `wsClients` and `sseClients`. */
  datatype State = State(cache: Record, ws: seq<WsClient>, sse: seq<SseClient>)

  /** At start-up the cache is the empty object and nobody is registered. */
  const Init: State := State(map[], [], [])

  datatype Reply = Reply(status: nat, body: Record)

  /** A transition caused by a bus message or a connection event. */
  datatype Step = Step(state: State, log: seq<Effect>)

  /** A transition caused by an HTTP request, with the reply sent. */
  datatype Exchange = Exchange(state: State, log: seq<Effect>, reply: Reply)

  /** The outcome of the awaited datastore write in manual submission. */
  datatype StoreOutcome = Stored | StoreFailed(message: string)

  const IdKey: SseClient -> int := (c: SseClient) => c.id

  /** What every reachable state satisfies: each socket and each response
      object is registered at most once, and the cache is either the
      initial empty object or a stamped record. Stream ids may repeat. */
  predicate Wf(s: State) {
    && Distinct(s.ws, WsKey)
    && Distinct(s.sse, SseKey)
    && (s.cache == map[] || IsStamped(s.cache))
  }

  // ---------------------------------------------------------------------
  // Ingestion and broadcast

  /** The handler accepts a parsed payload exactly when `typeof` calls it
      an object, which includes arrays and `null`. */
  predicate Accepted(p: ParseResult) {
    p.Parsed? && TypeofObject(p.value)
  }

  /** `broadcastSSE(rec)` followed by `broadcastWebSocket(rec)`. */
  function Fanout(s: State, rec: Record, enc: Encoder): seq<Effect> {
    BroadcastSse(s.sse, SseFrame(enc(rec))) + BroadcastWs(s.ws, enc(rec))
  }

  /** The MQTT `message` handler. A payload that does not parse, or parses
      to a number, string or boolean, changes nothing and causes nothing.
      Otherwise its own properties, stamped with `ts`, become the cache,
      are handed to the datastore without waiting for the outcome, and are
      broadcast to the streams and then to the sockets. */
  function OnMessage(s: State, parsed: ParseResult, ts: string, enc: Encoder): (r: Step)
    ensures r.state.ws == s.ws && r.state.sse == s.sse
    ensures !Accepted(parsed) ==> r == Step(s, [])
    ensures Accepted(parsed) ==>
      && r.state.cache == Stamp(Spread(parsed.value), ts)
      && r.log == [Persist(r.state.cache)] + Fanout(s, r.state.cache, enc)
  {
    match parsed
    case SyntaxError => Step(s, [])
    case Parsed(v) =>
      if !TypeofObject(v) then Step(s, [])
      else
        var rec := Stamp(Spread(v), ts);
        Step(s.(cache := rec), [Persist(rec)] + Fanout(s, rec, enc))
  }

  /** One broadcast reaches every registered stream exactly once with
      the framed encoding of the record. */
  lemma FanoutReachesStreams(s: State, rec: Record, enc: Encoder, c: SseClient)
    requires Distinct(s.sse, SseKey) && c in s.sse
    ensures DeliveredTo(Fanout(s, rec, enc), SseConn(c.res)) == [SseFrame(enc(rec))]
  {
    var sseLog := BroadcastSse(s.sse, SseFrame(enc(rec)));
    var wsLog := BroadcastWs(s.ws, enc(rec));
    DeliveredToAppend(sseLog, wsLog, SseConn(c.res));
    BroadcastSseOnce(s.sse, SseFrame(enc(rec)), c);
    DeliveredToNone(wsLog, SseConn(c.res));
  }

  /** One broadcast reaches every registered open socket exactly once with
      the encoding of the record; a socket that is not open receives
      nothing. */
  lemma FanoutReachesSockets(s: State, rec: Record, enc: Encoder, c: WsClient)
    requires Distinct(s.ws, WsKey) && c in s.ws
    ensures DeliveredTo(Fanout(s, rec, enc), WsConn(c.conn)) == if c.readyState == OPEN then [enc(rec)] else []
  {
    var sseLog := BroadcastSse(s.sse, SseFrame(enc(rec)));
    var wsLog := BroadcastWs(s.ws, enc(rec));
    DeliveredToAppend(sseLog, wsLog, WsConn(c.conn));
    forall e | e in sseLog
      ensures !(e.Send? && e.to == WsConn(c.conn))
    {
      var i :| 0 <= i < |sseLog| && sseLog[i] == e;
    }
    DeliveredToNone(sseLog, WsConn(c.conn));
    BroadcastWsOnce(s.ws, enc(rec), c);
  }

  /** An accepted message reaches every registered stream exactly once,
      framed. */
  lemma MessageReachesStream(s: State, parsed: ParseResult, ts: string, enc: Encoder, c: SseClient)
    requires Distinct(s.sse, SseKey) && Accepted(parsed) && c in s.sse
    ensures var r := OnMessage(s, parsed, ts, enc);
            DeliveredTo(r.log, SseConn(c.res)) == [SseFrame(enc(r.state.cache))]
  {
    var r := OnMessage(s, parsed, ts, enc);
    var rec := r.state.cache;
    FanoutReachesStreams(s, rec, enc, c);
    DeliveredToSingle(Persist(rec), SseConn(c.res));
    DeliveredToAppend([Persist(rec)], Fanout(s, rec, enc), SseConn(c.res));
  }

  /** An accepted message reaches every registered open socket exactly
      once and no socket that is not open. */
  lemma MessageReachesSocket(s: State, parsed: ParseResult, ts: string, enc: Encoder, c: WsClient)
    requires Distinct(s.ws, WsKey) && Accepted(parsed) && c in s.ws
    ensures var r := OnMessage(s, parsed, ts, enc);
            DeliveredTo(r.log, WsConn(c.conn)) == if c.readyState == OPEN then [enc(r.state.cache)] else []
  {
    var r := OnMessage(s, parsed, ts, enc);
    var rec := r.state.cache;
    FanoutReachesSockets(s, rec, enc, c);
    DeliveredToSingle(Persist(rec), WsConn(c.conn));
    DeliveredToAppend([Persist(rec)], Fanout(s, rec, enc), WsConn(c.conn));
  }

  /** A `null` payload passes the `typeof` test and spreads to nothing, so
      the cache becomes a record holding only the timestamp. */
  lemma NullPayloadStoresBareTimestamp(s: State, ts: string, enc: Encoder)
    ensures OnMessage(s, Parsed(Null), ts, enc).state.cache == map[TimestampKey := Str(ts)]
    ensures OnMessage(s, Parsed(Null), ts, enc).log[0] == Persist(map[TimestampKey := Str(ts)])
  {
  }

  // ---------------------------------------------------------------------
  // Connections

  /** A WebSocket connects: it is registered at the end of `wsClients` and
      sent the encoded cache. The cache is always an object, which is
      truthy, so this send happens even when nothing has arrived yet. */
  function OnWsConnect(s: State, c: WsClient, enc: Encoder): (r: Step)
    ensures r.state.cache == s.cache && r.state.sse == s.sse
    ensures r.state.ws == s.ws + [c]
    ensures r.log == [Send(WsConn(c.conn), enc(s.cache))]
  {
    Step(s.(ws := s.ws + [c]), [Send(WsConn(c.conn), enc(s.cache))])
  }

  /** A WebSocket closes: every registry entry for that socket goes. */
  function OnWsClose(s: State, conn: ConnId): (r: Step)
    ensures r.state.cache == s.cache && r.state.sse == s.sse && r.log == []
    ensures forall c :: c in r.state.ws <==> c in s.ws && c.conn != conn
  {
    Step(s.(ws := RemoveWs(s.ws, conn)), [])
  }

  /** A stream opens: the framed cache is written first, even when it is
      the empty object, then `{id, res}` is registered at the end of
      `sseClients`. */
  function OnSseOpen(s: State, res: ConnId, id: int, enc: Encoder): (r: Step)
    ensures r.state.cache == s.cache && r.state.ws == s.ws
    ensures r.state.sse == s.sse + [SseClient(id, res)]
    ensures r.log == [Send(SseConn(res), SseFrame(enc(s.cache)))]
  {
    Step(s.(sse := s.sse + [SseClient(id, res)]), [Send(SseConn(res), SseFrame(enc(s.cache)))])
  }

  /** A stream closes: every entry carrying its id goes, including any
      other stream that opened in the same millisecond. */
  function OnSseClose(s: State, id: int): (r: Step)
    ensures r.state.cache == s.cache && r.state.ws == s.ws && r.log == []
    ensures forall c :: c in r.state.sse <==> c in s.sse && c.id != id
  {
    Step(s.(sse := RemoveSse(s.sse, id)), [])
  }

  /** The socket library moves a registered socket to another
      `readyState`, as when it starts closing before its `close` event
      fires. The registries keep their members and order; only the state
      the next broadcast looks at changes. */
  function OnWsReadyState(s: State, conn: ConnId, readyState: int): (r: Step)
    ensures r.state.cache == s.cache && r.state.sse == s.sse && r.log == []
    ensures |r.state.ws| == |s.ws| && KeySet(r.state.ws, WsKey) == KeySet(s.ws, WsKey)
    ensures forall i :: 0 <= i < |r.state.ws| ==>
      r.state.ws[i] == RetuneOne(s.ws[i], conn, readyState)
    ensures forall c :: c in s.ws && c.conn != conn ==> c in r.state.ws
    ensures forall c :: c in s.ws && c.conn == conn ==> WsClient(conn, readyState) in r.state.ws
  {
    RetuneKeySet(s.ws, conn, readyState);
    Step(s.(ws := Retune(s.ws, conn, readyState)), [])
  }

  /** A socket that was open when it connected but is no longer open when
      the next message arrives stays registered and receives nothing: the
      broadcast skips it until its `close` handler removes it. */
  lemma ClosingSocketMissesNext(s: State, c: WsClient, readyState: int, parsed: ParseResult, ts: string, enc: Encoder)
    requires Distinct(s.ws, WsKey) && c in s.ws && readyState != OPEN
    ensures var t := OnWsReadyState(s, c.conn, readyState).state;
            && WsClient(c.conn, readyState) in t.ws
            && DeliveredTo(OnMessage(t, parsed, ts, enc).log, WsConn(c.conn)) == []
  {
    var t := OnWsReadyState(s, c.conn, readyState).state;
    RetuneDistinct(s.ws, c.conn, readyState);
    if Accepted(parsed) {
      MessageReachesSocket(t, parsed, ts, enc, WsClient(c.conn, readyState));
    }
  }

  /** Closing a stream whose id no other entry carries removes exactly its
      entry and keeps the others in their order. */
  lemma SseCloseRemovesExactly(s: State, before: seq<SseClient>, c: SseClient, after: seq<SseClient>)
    requires s.sse == before + [c] + after
    requires forall d :: d in before ==> d.id != c.id
    requires forall d :: d in after ==> d.id != c.id
    ensures OnSseClose(s, c.id).state.sse == before + after
  {
    var keep := OtherId(c.id);
    assert s.sse == before + ([c] + after);
    RemoveSsePiecewise(before, [c] + after, c, c.id);
    RemoveSsePiecewise([c], after, c, c.id);
    FilterKeepsAll(before, keep);
    FilterKeepsAll(after, keep);
    calc {
      OnSseClose(s, c.id).state.sse;
      RemoveSse(before, c.id) + (RemoveSse([c], c.id) + RemoveSse(after, c.id));
      before + ([] + after);
      { assert [] + after == after; }
      before + after;
    }
  }

  /** Closing a socket removes exactly its entry and keeps the others in
      their order. */
  lemma WsCloseRemovesExactly(s: State, before: seq<WsClient>, c: WsClient, after: seq<WsClient>)
    requires s.ws == before + [c] + after
    requires Distinct(s.ws, WsKey)
    ensures OnWsClose(s, c.conn).state.ws == before + after
  {
    var keep := OtherSocket(c.conn);
    assert s.ws == before + ([c] + after);
    DistinctSplit(before, c, after);
    FilterAppend(before, [c] + after, keep);
    FilterAppend([c], after, keep);
    assert Filter([c], keep) == [] by {
      assert !keep(c);
      assert [c][1..] == [];
    }
    FilterKeepsAll(before, keep);
    FilterKeepsAll(after, keep);
    calc {
      OnWsClose(s, c.conn).state.ws;
      Filter(before + ([c] + after), keep);
      Filter(before, keep) + (Filter([c], keep) + Filter(after, keep));
      before + ([] + after);
      { assert [] + after == after; }
      before + after;
    }
  }

  /** In a sequence of sockets with distinct keys, no socket before or
      after `c` shares its connection. */
  lemma {:induction false} DistinctSplit(before: seq<WsClient>, c: WsClient, after: seq<WsClient>)
    requires Distinct(before + [c] + after, WsKey)
    ensures forall d :: d in before ==> d.conn != c.conn
    ensures forall d :: d in after ==> d.conn != c.conn
  {
    var xs := before + [c] + after;
    if before == [] {
      assert xs[0] == c && xs[1..] == after;
      forall d | d in after
        ensures d.conn != c.conn
      {
        assert WsKey(d) in KeySet(after, WsKey);
      }
    } else {
      assert xs[0] == before[0];
      assert xs[1..] == before[1..] + [c] + after;
      DistinctSplit(before[1..], c, after);
      assert c in xs[1..];
      assert WsKey(c) in KeySet(xs[1..], WsKey);
    }
  }

  /** A socket that connects and then closes leaves the registries as they
      were, provided it was not registered already. */
  lemma WsConnectThenClose(s: State, c: WsClient, enc: Encoder)
    requires c.conn !in KeySet(s.ws, WsKey)
    ensures OnWsClose(OnWsConnect(s, c, enc).state, c.conn).state == s
  {
    FilterAppend(s.ws, [c], OtherSocket(c.conn));
    forall d | d in s.ws
      ensures OtherSocket(c.conn)(d)
    {
      assert WsKey(d) in KeySet(s.ws, WsKey);
    }
    FilterKeepsAll(s.ws, OtherSocket(c.conn));
  }

  /** A stream that opens and then closes leaves the registries as they
      were exactly when no stream already registered has the same id;
      otherwise the close takes those streams with it. */
  lemma SseOpenThenClose(s: State, res: ConnId, id: int, enc: Encoder)
    ensures var r := OnSseClose(OnSseOpen(s, res, id, enc).state, id).state;
      && r.sse == RemoveSse(s.sse, id)
      && (r == s <==> id !in KeySet(s.sse, IdKey))
  {
    var r := OnSseClose(OnSseOpen(s, res, id, enc).state, id).state;
    FilterAppend(s.sse, [SseClient(id, res)], OtherId(id));
    assert r.sse == RemoveSse(s.sse, id);
    if id !in KeySet(s.sse, IdKey) {
      forall d | d in s.sse
        ensures OtherId(id)(d)
      {
        assert IdKey(d) in KeySet(s.sse, IdKey);
      }
      FilterKeepsAll(s.sse, OtherId(id));
    } else {
      var d :| d in s.sse && IdKey(d) == id;
      assert d !in r.sse;
    }
  }

  // ---------------------------------------------------------------------
  // HTTP handlers

  /** `x == null` in JavaScript: the property is absent or holds `null`. */
  predicate Nullish(body: Record, key: string) {
    key !in body || body[key] == Null
  }

  /** The three readings `/manual` requires. */
  const RequiredFields: set<string> := {"jarak_cm", "gerakan", "mq2"}

  predicate Complete(body: Record) {
    forall k :: k in RequiredFields ==> !Nullish(body, k)
  }

  /** The record `/manual` builds: the three readings and the timestamp,
      nothing else from the body. */
  function ManualRecord(body: Record, ts: string): (rec: Record)
    requires Complete(body)
    ensures rec.Keys == RequiredFields + {TimestampKey}
    ensures forall k :: k in RequiredFields ==> rec[k] == body[k]
    ensures rec[TimestampKey] == Str(ts)
  {
    assert !Nullish(body, "jarak_cm") && !Nullish(body, "gerakan") && !Nullish(body, "mq2");
    map["jarak_cm" := body["jarak_cm"], "gerakan" := body["gerakan"], "mq2" := body["mq2"],
        TimestampKey := Str(ts)]
  }

  /** `POST /manual`. A body missing a reading is refused with 400 and
      nothing changes. Otherwise the cache is replaced before the
      datastore write is awaited; a stored record is broadcast and
      acknowledged with 200, a failed write gets 500 and no broadcast,
      with the cache already replaced. */
  function OnManual(s: State, body: Record, ts: string, outcome: StoreOutcome, enc: Encoder): (r: Exchange)
    ensures r.state.ws == s.ws && r.state.sse == s.sse
    ensures r.reply.status == 400 <==> !Complete(body)
    ensures r.reply.status == 200 <==> Complete(body) && outcome.Stored?
    ensures r.reply.status == 500 <==> Complete(body) && outcome.StoreFailed?
    ensures !Complete(body) ==> r.state == s && r.log == []
    ensures Complete(body) ==> r.state.cache == ManualRecord(body, ts)
    ensures r.reply.status == 200 ==> r.log == [Persist(r.state.cache)] + Fanout(s, r.state.cache, enc)
    ensures r.reply.status == 400 ==> r.reply.body == map["error" := Str("Data tidak lengkap")]
    ensures r.reply.status == 200 ==> r.reply.body == map["status" := Str("Tersimpan")]
    ensures r.reply.status == 500 ==>
      r.log == [Persist(r.state.cache)] && r.reply.body == map["error" := Str(outcome.message)]
  {
    if !Complete(body) then
      Exchange(s, [], Reply(400, map["error" := Str("Data tidak lengkap")]))
    else
      var rec := ManualRecord(body, ts);
      var s' := s.(cache := rec);
      match outcome
      case Stored => Exchange(s', [Persist(rec)] + Fanout(s, rec, enc), Reply(200, map["status" := Str("Tersimpan")]))
      case StoreFailed(m) => Exchange(s', [Persist(rec)], Reply(500, map["error" := Str(m)]))
  }

  /** Fields other than the three readings make no difference to
      `/manual`. */
  lemma ManualIgnoresExtraFields(s: State, body: Record, extra: Record, ts: string, outcome: StoreOutcome, enc: Encoder)
    requires extra.Keys !! RequiredFields
    ensures OnManual(s, body + extra, ts, outcome, enc) == OnManual(s, body - extra.Keys, ts, outcome, enc)
  {
  }

  /** `GET /realtime`: 204 when the cache has no keys, otherwise 200 with
      the cache. Nothing changes. The handler hands a message to the 204
      reply, but Express sends a 204 without a body, so the reply that
      goes out carries nothing. */
  function OnRealtime(s: State): (r: Exchange)
    ensures r.state == s && r.log == []
    ensures r.reply.status == 204 <==> s.cache == map[]
    ensures r.reply.status == 204 ==> r.reply.body == map[]
    ensures r.reply.status != 204 ==> r.reply == Reply(200, s.cache)
  {
    if |s.cache| == 0 then Exchange(s, [], Reply(204, map[]))
    else Exchange(s, [], Reply(200, s.cache))
  }

  /** Before any data, a new socket is sent the encoding of the empty
      object while `/realtime` reports that there is no data. */
  lemma EmptyHandshakeBeforeData(c: WsClient, enc: Encoder)
    ensures OnWsConnect(Init, c, enc).log == [Send(WsConn(c.conn), enc(map[]))]
    ensures OnRealtime(Init).reply.status == 204
  {
  }

  /** After an accepted message, `/realtime` returns exactly the stamped
      record. */
  lemma RealtimeAfterMessage(s: State, parsed: ParseResult, ts: string, enc: Encoder)
    requires Accepted(parsed)
    ensures OnRealtime(OnMessage(s, parsed, ts, enc).state).reply
            == Reply(200, Stamp(Spread(parsed.value), ts))
  {
  }

  /** A stream that opens between two records sees the cached one through
      the opening write and then the next one through the broadcast, each
      once and in that order. */
  lemma LateStreamSeesCacheThenNext(s: State, res: ConnId, id: int, parsed: ParseResult, ts: string, enc: Encoder)
    requires Distinct(s.sse, SseKey) && res !in KeySet(s.sse, SseKey)
    requires Accepted(parsed)
    ensures var a := OnSseOpen(s, res, id, enc);
            var b := OnMessage(a.state, parsed, ts, enc);
            DeliveredTo(a.log + b.log, SseConn(res))
            == [SseFrame(enc(s.cache)), SseFrame(enc(b.state.cache))]
  {
    var t := SseConn(res);
    var a := OnSseOpen(s, res, id, enc);
    var b := OnMessage(a.state, parsed, ts, enc);
    var f0 := SseFrame(enc(s.cache));
    var f1 := SseFrame(enc(b.state.cache));
    DistinctAppend(s.sse, SseClient(id, res), SseKey);
    MessageReachesStream(a.state, parsed, ts, enc, SseClient(id, res));
    assert DeliveredTo(b.log, t) == [f1];
    DeliveredToSingle(Send(t, f0), t);
    DeliveredInTurn(a.log, b.log, t, f0, f1);
  }

  /** A socket that connects between two records is sent the cached one on
      connection and then the next one, once each and in that order, as
      long as it stays open. */
  lemma LateSocketSeesCacheThenNext(s: State, c: WsClient, parsed: ParseResult, ts: string, enc: Encoder)
    requires Distinct(s.ws, WsKey) && c.conn !in KeySet(s.ws, WsKey) && c.readyState == OPEN
    requires Accepted(parsed)
    ensures var a := OnWsConnect(s, c, enc);
            var b := OnMessage(a.state, parsed, ts, enc);
            DeliveredTo(a.log + b.log, WsConn(c.conn)) == [enc(s.cache), enc(b.state.cache)]
  {
    var t := WsConn(c.conn);
    var a := OnWsConnect(s, c, enc);
    var b := OnMessage(a.state, parsed, ts, enc);
    DistinctAppend(s.ws, c, WsKey);
    MessageReachesSocket(a.state, parsed, ts, enc, c);
    DeliveredToSingle(Send(t, enc(s.cache)), t);
    DeliveredInTurn(a.log, b.log, t, enc(s.cache), enc(b.state.cache));
  }

  /** After a submission with all three readings, `/realtime` answers
      200 with the submitted record, whether or not the datastore write
      succeeded: the cache is replaced before the write is awaited. */
  lemma RealtimeAfterManual(s: State, body: Record, ts: string, outcome: StoreOutcome, enc: Encoder)
    requires Complete(body)
    ensures OnRealtime(OnManual(s, body, ts, outcome, enc).state).reply == Reply(200, ManualRecord(body, ts))
  {
    assert TimestampKey in ManualRecord(body, ts);
  }

  /** A socket that has closed receives nothing from the next message. */
  lemma NothingAfterWsClose(s: State, conn: ConnId, parsed: ParseResult, ts: string, enc: Encoder)
    ensures var closed := OnWsClose(s, conn).state;
            DeliveredTo(OnMessage(closed, parsed, ts, enc).log, WsConn(conn)) == []
  {
    var closed := OnWsClose(s, conn).state;
    var log := OnMessage(closed, parsed, ts, enc).log;
    forall e | e in log
      ensures !(e.Send? && e.to == WsConn(conn))
    {
      if Accepted(parsed) {
        var rec := Stamp(Spread(parsed.value), ts);
        var sseLog := BroadcastSse(closed.sse, SseFrame(enc(rec)));
        if e in sseLog {
          var i :| 0 <= i < |sseLog| && sseLog[i] == e;
        }
      }
    }
    DeliveredToNone(log, WsConn(conn));
  }

  /** A stream whose registrations all carry the closing id receives
      nothing from the next message. */
  lemma NothingAfterSseClose(s: State, id: int, res: ConnId, parsed: ParseResult, ts: string, enc: Encoder)
    requires forall d :: d in s.sse && d.res == res ==> d.id == id
    ensures var closed := OnSseClose(s, id).state;
            DeliveredTo(OnMessage(closed, parsed, ts, enc).log, SseConn(res)) == []
  {
    var closed := OnSseClose(s, id).state;
    var log := OnMessage(closed, parsed, ts, enc).log;
    forall e | e in log
      ensures !(e.Send? && e.to == SseConn(res))
    {
      if Accepted(parsed) {
        var rec := Stamp(Spread(parsed.value), ts);
        var sseLog := BroadcastSse(closed.sse, SseFrame(enc(rec)));
        if e in sseLog {
          var i :| 0 <= i < |sseLog| && sseLog[i] == e;
          assert closed.sse[i] in s.sse;
        }
      }
    }
    DeliveredToNone(log, SseConn(res));
  }

  // ---------------------------------------------------------------------
  // Runs of handlers

  /** Everything that can move the state. */
  datatype Event =
    | Message(parsed: ParseResult, ts: string)
    | WsOpen(client: WsClient)
    | WsClosed(conn: ConnId)
    | WsRetuned(conn: ConnId, readyState: int)
    | StreamOpen(res: ConnId, id: int)
    | StreamClosed(id: int)
    | Manual(body: Record, ts: string, outcome: StoreOutcome)
    | RealtimeRead

  function Apply(s: State, e: Event, enc: Encoder): Step {
    match e
    case Message(p, ts) => OnMessage(s, p, ts, enc)
    case WsOpen(c) => OnWsConnect(s, c, enc)
    case WsClosed(conn) => OnWsClose(s, conn)
    case WsRetuned(conn, rs) => OnWsReadyState(s, conn, rs)
    case StreamOpen(res, id) => OnSseOpen(s, res, id, enc)
    case StreamClosed(id) => OnSseClose(s, id)
    case Manual(body, ts, outcome) =>
      var x := OnManual(s, body, ts, outcome, enc);
      Step(x.state, x.log)
    case RealtimeRead =>
      var x := OnRealtime(s);
      Step(x.state, x.log)
  }

  /** A connection event brings a new connection object, and a socket
      is announced only once it is open. */
  predicate Fresh(s: State, e: Event) {
    && (e.WsOpen? ==> e.client.conn !in KeySet(s.ws, WsKey) && e.client.readyState == OPEN)
    && (e.StreamOpen? ==> e.res !in KeySet(s.sse, SseKey))
  }

  /** Every handler keeps the state well formed. */
  lemma ApplyPreservesWf(s: State, e: Event, enc: Encoder)
    requires Wf(s) && Fresh(s, e)
    ensures Wf(Apply(s, e, enc).state)
  {
    match e
    case Message(p, ts) =>
    case WsOpen(c) => DistinctAppend(s.ws, c, WsKey);
    case WsClosed(conn) => FilterDistinct(s.ws, OtherSocket(conn), WsKey);
    case WsRetuned(conn, rs) => RetuneDistinct(s.ws, conn, rs);
    case StreamOpen(res, id) => DistinctAppend(s.sse, SseClient(id, res), SseKey);
    case StreamClosed(id) => FilterDistinct(s.sse, OtherId(id), SseKey);
    case Manual(body, ts, outcome) =>
    case RealtimeRead =>
  }

  /** The state after a run of events, and everything they caused. */
  function Run(s: State, es: seq<Event>, enc: Encoder): Step
    decreases |es|
  {
    if es == [] then Step(s, [])
    else
      var first := Apply(s, es[0], enc);
      var rest := Run(first.state, es[1..], enc);
      Step(rest.state, first.log + rest.log)
  }

  /** Every connection event in the run brings a new connection object. */
  predicate FreshRun(s: State, es: seq<Event>, enc: Encoder)
    decreases |es|
  {
    es == [] || (Fresh(s, es[0]) && FreshRun(Apply(s, es[0], enc).state, es[1..], enc))
  }

  /** Every state reachable from start-up is well formed. */
  lemma {:induction false} RunPreservesWf(s: State, es: seq<Event>, enc: Encoder)
    requires Wf(s) && FreshRun(s, es, enc)
    ensures Wf(Run(s, es, enc).state)
    decreases |es|
  {
    if es != [] {
      ApplyPreservesWf(s, es[0], enc);
      RunPreservesWf(Apply(s, es[0], enc).state, es[1..], enc);
    }
  }
}
