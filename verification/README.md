# Telemetry dispatch core, modelled in Dafny

The server in `index.js` receives sensor readings from an MQTT topic. It
keeps the latest one in memory (`latestData`), writes each reading to a
Firestore collection, and pushes it live to two kinds of subscribers:
WebSocket clients (`wsClients`) and server-sent-event streams
(`sseClients`). Readings can also be submitted through `POST /manual`. The
current value can be read through `GET /realtime`.

This project models the in-memory dispatch state machine. The JavaScript
event loop runs each handler to completion, so every handler is one atomic
transition. It takes a `State` (cache, socket list, stream list) to a new
`State` plus a log of effects, and HTTP handlers also return a reply.
There are two kinds of effect:

- `Persist(rec)`: a record handed to the datastore.
- `Send(target, payload)`: a payload written to one connection.

Inputs the code gets from outside are parameters:

- the encoder `JSON.stringify` is `enc: Record -> string`;
- the result of `JSON.parse` is a `ParseResult`;
- the timestamp (`new Date().toISOString()`) is a string;
- the stream id (`Date.now()`) is an integer;
- a socket's `readyState` is a field of `WsClient`; the socket library changes it through `Server.OnWsReadyState`, for example when a socket starts closing before its `close` event fires;
- the outcome of the awaited datastore write in `/manual` is a `StoreOutcome`.

Files:

- `wrappers.dfy`: `Option`.
- `numerals.dfy`: decimal renderings of array indices, and JavaScript's `parseInt` without a radix.
- `json.dfy`: JSON values, object spread, stamping with `waktu`.
- `registry.dfy`: the two registries, removal, both broadcast helpers, and what each connection receives.
- `server.dfy`: the state, every handler, the well-formedness invariant, and runs of handlers.
- `query.dfy`: the order/limit normalisation of `GET /data`.

Behaviour of the code that the model keeps, including the less obvious
consequences of how it is written:

- **Accepted payloads.** The MQTT handler's guard is `typeof data === "object"`. That guard also accepts `null` and arrays, so they are not dropped. A `null` payload caches and persists a record holding only `waktu`. An array spreads to properties `"0"`, `"1"`, …. Only payloads that fail to parse, and numbers, strings and booleans, are no-ops.
- **Handshake of the empty object.** `latestData` starts as `{}` and is always an object, so it is always truthy. A new socket and a new stream are therefore always sent the encoded cache, even `"{}"` before any data. `GET /realtime`, by contrast, does check for emptiness and answers 204.
- **Failed subscribers stay registered.** Nothing is removed on a send failure. A socket whose `readyState` is not OPEN is skipped by the broadcast but stays registered. Streams are written with no readiness check.
- **Closing a stream removes every stream with its id.** Stream ids come from the millisecond clock and can collide. Closing a stream removes every stream registered with that id.
- **Cache before persistence in `/manual`.** The cache is replaced before the datastore write is awaited. A failed write answers 500 without broadcasting, but the cache keeps the new record.
- **Bus writes are not awaited.** A bus message's datastore write is fire-and-forget: the handler neither waits for the promise nor attaches a rejection handler, so the handler's own effects (cache, persist, both broadcasts) happen before the write's outcome is known. A rejected write is an unhandled rejection; what the process does with it is outside the model (see "Left out").
- **A 204 carries no body.** `GET /realtime` passes a message to its 204 reply, but Express sends a 204 without a body, so the modelled reply body is empty.

## Model

| member | source | states |
|---|---|---|
| `Server.OnMessage` | index.js:66-83 | an unparsable or primitive payload leaves state and log unchanged; an accepted one sets the cache to its spread properties stamped with `waktu`, persists exactly that record, then broadcasts it to streams and then sockets; both registries are unchanged |
| `Server.MessageReachesStream` | index.js:75-80 | an accepted message writes `data: <json>\n\n` of the new cache exactly once to every registered stream |
| `Server.MessageReachesSocket` | index.js:75-80 | an accepted message sends the new cache's encoding exactly once to every registered open socket and nothing to a socket that is not open |
| `Server.FanoutReachesStreams` | index.js:79-80 | a broadcast delivers the framed record exactly once to each registered stream, whatever the socket list holds |
| `Server.FanoutReachesSockets` | index.js:79-80 | a broadcast delivers the encoded record exactly once to each open socket and never to a closed one, whatever the stream list holds |
| `Server.NullPayloadStoresBareTimestamp` | index.js:75-78 | a `null` payload passes the `typeof` guard; the cache and the persisted record become `{waktu: ts}` |
| `Registry.BroadcastWs` | index.js:42-47 | the broadcast log holds a send to a socket exactly when that socket is registered and OPEN, all with the same payload |
| `Registry.BroadcastSse` | index.js:50-53 | the broadcast log writes the payload to every registered stream, one write each, in registration order |
| `Registry.BroadcastWsOnce` | index.js:44-46 | with sockets registered once, each open socket receives the payload exactly once and every other socket receives nothing |
| `Registry.BroadcastSseOnce` | index.js:52 | with responses registered once, each stream receives the payload exactly once |
| `Registry.RemoveWs` | index.js:91 | the sockets kept are exactly the registered ones other than the closing socket |
| `Registry.RemoveSse` | index.js:166 | the streams kept are exactly the registered ones whose id differs from the closing id |
| `Registry.RemoveSsePiecewise` | index.js:166 | stream removal is entry by entry: a concatenation loses what each part loses, and one entry goes exactly when it carries the id, so the survivors keep their order, once each |
| `Registry.RemoveWsPiecewise` | index.js:91 | socket removal is entry by entry: a concatenation loses what each part loses, and one entry goes exactly when it is the closing socket |
| `Registry.BroadcastWsPiecewise` | index.js:44-46 | the socket broadcast of a concatenation is the broadcast of each part in turn, and one entry is sent the payload exactly when it is OPEN, so the sends follow registration order |
| `Server.OnWsConnect` | index.js:86-89 | a connecting socket is appended to the socket list and sent the encoded cache unconditionally; the cache and the streams are unchanged |
| `Server.OnWsClose` | index.js:90-91 | a closing socket's entries leave the socket list, all others stay; nothing is sent |
| `Server.WsCloseRemovesExactly` | index.js:91 | closing a socket registered once between `before` and `after` leaves exactly `before + after`, in order |
| `Server.WsConnectThenClose` | index.js:88-91 | a socket that connects and then closes leaves the state as it was, if it was not registered already |
| `Server.OnSseOpen` | index.js:160-163 | an opening stream is first written the framed cache, even the empty object, and then `{id, res}` is appended to the stream list |
| `Server.OnSseClose` | index.js:165-166 | a closing stream removes every stream with its id and keeps all others; nothing is sent |
| `Server.SseCloseRemovesExactly` | index.js:166 | closing a stream whose id no other entry carries leaves exactly `before + after`, in order |
| `Server.OnWsReadyState` | index.js:45 | a socket changing `readyState` keeps the socket list's length and every entry in its position, the entries of that socket now carrying the new state and all others unchanged; the set of sockets is the same; the cache, the streams and the log are untouched |
| `Server.ClosingSocketMissesNext` | index.js:44-45 | a registered socket that is no longer OPEN stays registered and receives nothing from the next message |
| `Server.SseOpenThenClose` | index.js:161-166 | opening then closing a stream restores the state exactly when no registered stream already had that id; otherwise those streams are removed too |
| `Server.ManualRecord` | index.js:136 | the submitted record has exactly the keys `jarak_cm`, `gerakan`, `mq2`, `waktu`, with the body's three readings and the timestamp |
| `Server.OnManual` | index.js:130-145 | 400 with `{error: "Data tidak lengkap"}` exactly when a reading is null or absent, with no state change and no effects; otherwise the cache is replaced; a stored write is broadcast and answered 200 with `{status: "Tersimpan"}`; a failed write answers 500 with `{error: <its message>}`, after the persist attempt and with no broadcast |
| `Server.ManualIgnoresExtraFields` | index.js:131-136 | body fields other than the three readings make no difference to the outcome |
| `Server.OnRealtime` | index.js:148-152 | 204 with an empty body exactly when the cache has no keys, otherwise 200 with the cache; the state is unchanged |
| `Server.EmptyHandshakeBeforeData` | index.js:89 | before any data a new socket is sent the encoding of `{}` while `/realtime` answers 204 |
| `Server.RealtimeAfterMessage` | index.js:148-152 | after an accepted message `/realtime` answers 200 with exactly the stamped record |
| `Server.RealtimeAfterManual` | index.js:136-138 | after a submission with all three readings `/realtime` answers 200 with the submitted record, whether or not the datastore write succeeded |
| `Server.NothingAfterWsClose` | index.js:91 | a socket that has closed receives nothing from the next message |
| `Server.NothingAfterSseClose` | index.js:166 | a stream whose entries carry the closing id receives nothing from the next message |
| `Server.LateStreamSeesCacheThenNext` | index.js:155-163 | a stream opened between two records receives the cached one and then the next, once each and in that order |
| `Server.LateSocketSeesCacheThenNext` | index.js:86-89 | an open socket connected between two records receives the cached one and then the next, once each and in that order |
| `Server.ApplyPreservesWf` | index.js:37-39 | every handler and every change of a socket's `readyState` keeps each socket and each response registered at most once and the cache empty or stamped, given new connection objects and sockets that are open when they connect |
| `Server.RunPreservesWf` | index.js:37-39 | every state reached from a well-formed state by any run of handlers is well formed |
| `Json.Spread` | index.js:76 | `{...v}` copies an object's fields, an array's elements under their index keys with one property per element, and nothing from `null` |
| `Json.Stamp` | index.js:76 | stamping adds `waktu` with the timestamp, overriding an incoming `waktu`, and keeps every other field |
| `Json.IndexedContents` | index.js:76 | an array of n elements spreads to n properties, element i under the decimal key of i |
| `DataQuery.DataPlan` | index.js:114-118 | ascending exactly when `order` is the text `asc`; a limit exactly when the parameter is non-empty and `parseInt` yields a number, and then that number |
| `DataQuery.DecimalLimitApplied` | index.js:116-118 | a decimal limit, with leading white space and trailing non-digits, limits the query to that number, unless a lone `0` is followed by `x` or `X`, which makes a hexadecimal prefix |
| `DataQuery.NonNumericLimitIgnored` | index.js:116-118 | a limit that does not start with a number leaves the query unlimited |
| `DataQuery.HexLimitIsHexadecimal` | index.js:117 | `limit=0x10` limits the query to 16, because `parseInt` honours the hexadecimal prefix |
| `Numerals.ParseIntDecimal` | index.js:117 | `parseInt` reads back the decimal rendering of n, whatever non-digit text follows, unless a lone `0` is followed by `x` or `X`, which makes a hexadecimal prefix |
| `Numerals.ParseIntNegativeDecimal` | index.js:117 | `parseInt` reads `-` followed by the rendering of n and any non-digit text as -n, unless a lone `0` is followed by `x` or `X`, which makes a hexadecimal prefix |
| `Numerals.ParseIntSkipsWhitespace` | index.js:117 | leading white space does not change what `parseInt` reads |
| `Numerals.ParseIntRejectsNonNumeric` | index.js:117 | text starting with anything but white space, a sign or a digit is `NaN` |

## Left out

- Firebase credentials and initialisation (index.js:14-32): configuration and a foreign SDK.
- The Firestore query of `GET /data` (index.js:109-113, 115, 119-126) is not modelled. That covers the `since` filter with its `Date` parsing, query execution, the result mapping and the 500 on a datastore error. Only the order and limit normalisation is kept.
- The MQTT client's connect and subscribe (index.js:56-64) and `GET /mqtt/status` (index.js:97-104): network plumbing.
- HTTP and WebSocket server creation, Express middleware, the SSE headers and `flushHeaders`, and `listen` (index.js:9-11, 35-36, 156-159, 172-175): framework I/O.
- `console` logging: it has no effect on the state.
- `JSON.stringify` is an encoder parameter and `JSON.parse` an input, so encoding details (escaping, number formatting) are not modelled. Records are maps, so property order is lost, and with it the key order `JSON.stringify` would emit.
- The clock: timestamps and stream ids are inputs.
- Interleavings around the `await` in `/manual`. Each handler is atomic, and the write's outcome is an input. Another handler running between the cache update and the broadcast is not modelled.
- The MQTT `topic` argument is not modelled: the handler ignores it.
- The failure of a bus message's datastore write is not modelled. The promise from `add` (index.js:78) has no rejection handler, so an asynchronous rejection is unhandled; under Node's default unhandled-rejection mode that ends the process, losing the cache and both registries. Process termination is not modelled: the model's states continue as if the write had succeeded. The datastore client can also throw synchronously from `add` on data it refuses (an empty field name, for instance); that throw would come after the cache is replaced (index.js:77-78) and would skip both broadcasts, an outcome `Server.OnMessage` does not produce, because the datastore client is not part of this model.
- Sends that fail or throw are not modelled. A send to a socket is recorded as delivered, and `ws` reports later failures asynchronously. When the socket library changes a `readyState` is not modelled: any change may happen between two handlers, as a `WsRetuned` event.
- Query parameters are modelled as absent or a single string. Repeated or nested parameters, which Express parses into arrays or objects, are left out.
- `DataQuery.DataPlan`: the limit is an unbounded integer. The loss of precision of `parseInt` beyond 2^53 and its distinction between `-0` and `0` are not modelled.
- `Server.OnManual`: the body is modelled as a plain object, which is what the JSON body parser produces for an object body. Array bodies and a missing body are left out; a missing body's behaviour depends on the Express version.
