# y-workers: a verified model of the persistence layer and the WebSocket server

y-workers runs a Yjs collaboration server inside a Cloudflare Durable Object.
Two parts of it are modelled here.

- `src/y-durable-storage.ts`, the persistence layer. It has:
  - a codec that turns key tuples into strings;
  - an append-only log of updates per document, keyed by a zero-padded clock;
  - a state-vector record per document;
  - the compaction `flushDocument`, which merges the log into one update and clears the older keys (at most 128 per clear);
  - the `YDurableStorage` class, whose `_transact` chains every call onto the previous one, in submission order, so that a call that throws resolves to `null` and never blocks the queue.
- `src/server.ts`, the y-websocket server. It has:
  - the registry of shared documents by name (`getYDoc`);
  - each document's connections and the awareness clients each controls;
  - the message listener for the sync and awareness protocols;
  - the cascade of `send` → `closeConn` → `removeAwarenessStates` → awareness broadcast → `send`;
  - the handshake `setupWSConnection` sends to a new socket;
  - the `getContent` switch used by the callback.

Modules:

| file | module | what |
|---|---|---|
| `wrappers.dfy` | `Wrappers` | `Option` |
| `yjs.dfy` | `Yjs` | A Yjs document as the sequence of updates applied to it. The encoders are uninterpreted functions. `mergeUpdates` is defined here. |
| `key_codec.dfy` | `KeyCodec` | `keyEncoding.encode` / `decode`, decimal padding, and string order. Update keys sort by clock. The scan bound is treated separately. |
| `update_log.dfy` | `UpdateLog` | The store as two maps: update keys to bytes, and document names to state-vector records. Every storage operation is a pure step function, with lemmas about logs, flushes and the transaction queue. |
| `durable_storage.dfy` | `DurableStorage` | The imperative code. The `Substrate` class stands for the Durable Object storage. The module-level functions become methods with loops. The `YDurableStorage` class and `_transact` are included. Each method is proved equal to its step function. |
| `sessions.dfy` | `Sessions` | A document's connections, sockets, awareness and registry entry as a value (`Session`). `closeConn`, `send`, broadcast and the awareness handlers are mutually recursive functions over it. The module also proves what the cascade can and cannot do. |
| `server.dfy` | `Server` | The `SharedDoc` and `Server` classes. `Server` has the registry, the sockets and the storage. Its methods are proved to compute the `Sessions` functions and to keep the registry invariant. |
| `content.dfy` | `SharedContent` | `getContent` |

### Scan bound

The code and the usual account of the key encoding disagree. The model follows the code.

Numeric key parts are zero-padded to 9 digits. This is said to order clocks correctly up to `0xFFFFFFFF`. In the code, however, a document's log is scanned from the key of clock 0 up to the key of clock `0xFFFFFFFF`, which is `4294967295`, ten digits. Strings compare character by character. So among padded clocks the scan holds exactly those below `429496730` (`KeyCodec.UpdateScanBound`).

A document whose clock reaches that bound keeps writing at the same clock, which no scan sees (`UpdateLog.StoreUpdatePastScanEndIsLost`). The model keeps every stored clock below 10^9 (`UpdateLog.Valid`), which is where padding stops fixing the width.

### Long logs

`getYDoc` compacts a log of more than 300 updates. To do so it calls `flushDocument`, whose `clearRange` throws for more than 128 keys. So on such a log `getYDoc` always resolves to `null`, and the log only grows (`UpdateLog.GetYDocOutcome`, `UpdateLog.LongLogIsNeverCompacted`). The model states this behaviour as written.

## Model

| member | source | states |
|---|---|---|
| KeyCodec.Encode | src/y-durable-storage.ts:16-24 | The loop pushes one encoded component per key part and joins them with `#`; the result is `EncodeKey(k)`. |
| KeyCodec.EncodeFormat | src/y-durable-storage.ts:16-24 | An encoded key splits back into one piece per component. A string piece is the string between quotes. A number piece is its decimal form left-padded with zeros to at least nine characters. |
| KeyCodec.PadDecimal | src/y-durable-storage.ts:20 | `padStart(9, "0")` of the decimal form of a number below 10^w gives exactly its w low-order digits. |
| KeyCodec.DigitsValueDecimal | src/y-durable-storage.ts:28 | `parseInt` of the decimal form of n is n. |
| KeyCodec.DigitsValueLeadingZeros | src/y-durable-storage.ts:20-28 | Leading zeros added by padding do not change the value `parseInt` reads. |
| KeyCodec.SplitJoin | src/y-durable-storage.ts:23-27 | `split("#")` undoes `join("#")` when no piece contains `#`. |
| KeyCodec.DecodeEncodePart | src/y-durable-storage.ts:20-28 | Decoding one encoded component gives back that component, for a string free of `#`, quotes, backslashes and control characters. |
| KeyCodec.DecodeAllEncodeParts | src/y-durable-storage.ts:26-28 | Mapping the decoder over the encoded pieces gives back the key. |
| KeyCodec.DecodeEncode | src/y-durable-storage.ts:15-30 | Round trip: `decode(encode(k)) == k` for every non-empty key whose strings are well formed. |
| KeyCodec.FixedDigitsOrder | src/y-durable-storage.ts:20 | Fixed-width digit strings compare as strings exactly as the numbers they denote compare. |
| KeyCodec.FixedDigitsInjective | src/y-durable-storage.ts:20 | Distinct numbers below 10^w have distinct w-digit forms. |
| KeyCodec.LexLessIrreflexive | src/y-durable-storage.ts:81-86 | The string order used by the storage scans is irreflexive. |
| KeyCodec.LexLessAsymmetric | src/y-durable-storage.ts:81-86 | The string order used by the storage scans is asymmetric. |
| KeyCodec.LexLessCommonPrefix | src/y-durable-storage.ts:81-86 | A common prefix does not change the order of two strings. |
| KeyCodec.EncodeUpdateKey | src/y-durable-storage.ts:199-204 | An encoded update key is the document's fixed prefix `"v1"#"<doc>"#"update"#` followed by the encoded clock. |
| KeyCodec.UpdateKeyOrder | src/y-durable-storage.ts:199-204 | Update keys of one document sort by clock, for every clock that fits nine digits. |
| KeyCodec.UpdateKeyInClearRange | src/y-durable-storage.ts:182-193 | The encoded range of `clearUpdatesRange(doc, from, to)` holds the update key of clock c exactly when `from <= c < to`. |
| KeyCodec.UpdateScanBound | src/y-durable-storage.ts:119-122 | The whole-document scan up to `BINARY_BITS_32` holds the update key of a nine-digit clock exactly when that clock is below 429496730. |
| KeyCodec.UpdateScanIsPerDocument | src/y-durable-storage.ts:119-122 | For quote-free names, every update key inside a document's scan belongs to that document. |
| KeyCodec.StateVectorKeyOutsideUpdateScan | src/y-durable-storage.ts:227-229 | No state-vector key (`"v1_sv"#...`) lies inside any update scan. |
| UpdateLog.ListedClocksAreEncodedRange | src/y-durable-storage.ts:81-86 | The clock ranges of the model are the encoded key ranges the code scans: key(c) is in [key(from), key(lt)) exactly when c is in [from, RangeEnd(lt)). |
| UpdateLog.ClocksInSpec | src/y-durable-storage.ts:81-86 | A scan lists, in strictly ascending order, exactly the document's stored clocks in the range. |
| UpdateLog.IncreasingUnique | src/y-durable-storage.ts:81-86 | A scan's result is determined by the set of clocks it holds. |
| UpdateLog.ClocksInMonotone | src/y-durable-storage.ts:81-86 | Adding keys never shortens a scan. |
| UpdateLog.CurrentClock | src/y-durable-storage.ts:129-149 | The result is -1 exactly when the document has no scanned update. Otherwise it is a stored clock no smaller than any scanned clock. |
| UpdateLog.StoreUpdateAppendsToLog | src/y-durable-storage.ts:318-333 | `storeUpdate` writes at one past the largest clock and returns that clock, which was free. The log becomes the old log plus the update. No other key changes. A state-vector record with clock 0 is written exactly on the document's first update. |
| UpdateLog.StoreUpdateKeepsClocksDense | src/y-durable-storage.ts:323-332 | On a log with clocks 0..n-1, `storeUpdate` writes at n and keeps the clocks gap-free. |
| UpdateLog.StoreUpdatesBuildLog | src/y-durable-storage.ts:439-441 | A sequence of `storeUpdate` calls through the queue appends the updates to the log in call order and resolves to consecutive clocks. |
| UpdateLog.StoreUpdatePastScanEndIsLost | src/y-durable-storage.ts:323-332 | At the scan bound, a stored update is missing from the log, and the next `storeUpdate` overwrites it at the same clock. |
| UpdateLog.ClearRangeOutcome | src/y-durable-storage.ts:157-193 | `clearRange` throws, changing nothing, exactly when more than 128 keys lie in the range. Otherwise it deletes exactly the document's keys in the range and keeps the others and all state-vector records. |
| UpdateLog.FlushOutcome | src/y-durable-storage.ts:306-316 | `flushDocument` stores the merged update at the next clock and records the state vector under that clock. It succeeds exactly when at most 128 updates were scanned, and then the merged update is the whole log. If it throws, the older entries survive next to the merged update. Other documents' keys are untouched. |
| UpdateLog.ClocksBelowNext | src/y-durable-storage.ts:312-314 | Below the clock the flush stores at, the scan is the old scan. |
| UpdateLog.ClearedBelowNext | src/y-durable-storage.ts:312-314 | Storing at the next clock and clearing everything below leaves the stored update as the only log entry. |
| UpdateLog.GetYDocOutcome | src/y-durable-storage.ts:390-409 | `getYDoc` replays the whole log, in clock order, into a fresh document and writes nothing for up to 300 updates. Beyond that the call resolves to `null`; the merged update and its state vector are stored at the next clock, and every older entry survives. |
| UpdateLog.GetStateVectorOutcome | src/y-durable-storage.ts:415-432 | A record whose clock is the current clock is served unchanged, with no write. Otherwise the log is merged and flushed, and the merged state vector is answered if the flush succeeds and `null` otherwise. |
| UpdateLog.GetStateVectorCreatesMissingDocument | src/y-durable-storage.ts:415-432 | For an unknown document, the merged empty log is written at clock 0 with a state-vector record at clock 0. |
| UpdateLog.GetStateVectorIsCachedAfterwards | src/y-durable-storage.ts:415-432 | An answered state vector is the one on record, so asking again writes nothing and answers the same vector. |
| UpdateLog.FlushedDocumentServesCachedStateVector | src/y-durable-storage.ts:415-432 | After a successful `flushDocument`, `getStateVector` reads the record and answers the merged vector. |
| UpdateLog.JobIsPerDocument | src/y-durable-storage.ts:378-441 | Each storage call changes only its own document's update keys and state-vector record. |
| UpdateLog.StoreUpdateIsConfined | src/y-durable-storage.ts:318-333 | `storeUpdate` changes only its own document's update keys and state-vector record. |
| UpdateLog.FlushIsConfined | src/y-durable-storage.ts:306-316 | `flushDocument` changes only its own document's update keys and state-vector record. |
| UpdateLog.RunJobPreservesValid | src/y-durable-storage.ts:378-441 | Every call keeps stored clocks inside the nine-digit field. |
| UpdateLog.RunQueuePreservesValid | src/y-durable-storage.ts:359-372 | Any queue of calls keeps stored clocks inside the nine-digit field. |
| UpdateLog.LongLogIsNeverCompacted | src/y-durable-storage.ts:157-173 | Once more than 128 updates are scanned, no call removes one, and `flushDocument` on that document always resolves to `null`. |
| UpdateLog.RunQueueConcat | src/y-durable-storage.ts:359-372 | Running two batches in turn is running their concatenation: the `tr` chain is sequential. |
| UpdateLog.RunQueueNth | src/y-durable-storage.ts:359-372 | The i-th call resolves as it would on its own against the store the first i calls left, whether or not any of them threw. |
| Yjs.Replay | src/y-durable-storage.ts:258-263 | Applying updates one by one to a fresh document yields the document of exactly those updates, in order. |
| DurableStorage.Substrate.GetRecord | src/y-durable-storage.ts:43-54 | `db.get` of a state-vector key answers the record exactly when one is stored. |
| DurableStorage.Substrate.PutUpdate | src/y-durable-storage.ts:59-65 | `db.put` of an update key sets that key only. |
| DurableStorage.Substrate.PutRecord | src/y-durable-storage.ts:59-65 | `db.put` of a state-vector key sets that record only. |
| DurableStorage.Substrate.DeleteUpdates | src/y-durable-storage.ts:171 | `db.delete(keys)` removes exactly the given keys. |
| DurableStorage.Substrate.List | src/y-durable-storage.ts:81-86 | `db.list` returns the listed clocks with the values stored under them. |
| DurableStorage.ListedAreStored | src/y-durable-storage.ts:81-86 | Every clock `db.list` returns, with or without `reverse` and `limit`, is a stored clock in the range. |
| DurableStorage.GetLevelBulkData | src/y-durable-storage.ts:70-101 | The loop builds one datum per listed entry, in list order, each carrying the stored value of its key. |
| DurableStorage.GetLevelUpdates | src/y-durable-storage.ts:106-124 | The values read are the document's log in ascending clock order. |
| DurableStorage.GetCurrentUpdateClock | src/y-durable-storage.ts:129-149 | The reverse scan with limit 1 yields the largest scanned clock, or -1. |
| DurableStorage.DeleteListedIsCleared | src/y-durable-storage.ts:162-171 | Deleting the keys a range scan listed is clearing that range. |
| DurableStorage.ClearRange | src/y-durable-storage.ts:157-193 | The store after the call, and whether the call threw, are those of `ClearRangeStep`, whose meaning `ClearRangeOutcome` gives. |
| DurableStorage.WriteStateVector | src/y-durable-storage.ts:267-281 | Only the document's state-vector record changes; it becomes (clock, sv). |
| DurableStorage.ReadStateVector | src/y-durable-storage.ts:297-304 | Answers the stored record, or none, which stands for `{sv: null, clock: -1}`. |
| DurableStorage.StoreUpdate | src/y-durable-storage.ts:318-333 | The returned clock and the new store are those of `StoreUpdateStep`, an append to the log by `StoreUpdateAppendsToLog`. |
| DurableStorage.FlushDocument | src/y-durable-storage.ts:306-316 | The returned clock or failure and the new store are those of `FlushStep` (see `FlushOutcome`). |
| DurableStorage.MergeUpdates | src/y-durable-storage.ts:254-265 | The loop computes the encodings of the document holding exactly the given updates in order. |
| DurableStorage.FlushDocumentBody | src/y-durable-storage.ts:379-383 | The transaction body of `flushDocument` computes its job step. |
| DurableStorage.GetYDocBody | src/y-durable-storage.ts:391-408 | The transaction body of `getYDoc` computes its job step (see `GetYDocOutcome`). |
| DurableStorage.GetStateVectorBody | src/y-durable-storage.ts:416-431 | The transaction body of `getStateVector` computes its job step (see `GetStateVectorOutcome`). |
| DurableStorage.StoreUpdateBody | src/y-durable-storage.ts:440 | The transaction body of `storeUpdate` computes its job step. |
| DurableStorage.YDurableStorage.constructor | src/y-durable-storage.ts:344-346 | Starts with an empty queue over the given storage. |
| DurableStorage.YDurableStorage.Transact | src/y-durable-storage.ts:359-372 | The call is appended to the queue. Its settled result is that of running it on the store all earlier calls left. A thrown error settles to none. The queue invariant `storage == RunQueue(initial, submitted)` is kept. |
| DurableStorage.YDurableStorage.FlushDocument | src/y-durable-storage.ts:378-384 | Queues a flush and settles to the flush step's result, keeping the queue invariant. |
| DurableStorage.YDurableStorage.GetYDoc | src/y-durable-storage.ts:390-409 | Queues a load and resolves to the replayed document or `null`, keeping the queue invariant. |
| DurableStorage.YDurableStorage.GetStateVector | src/y-durable-storage.ts:415-432 | Queues a state-vector request and resolves to the vector or `null`, keeping the queue invariant. |
| DurableStorage.YDurableStorage.StoreUpdate | src/y-durable-storage.ts:439-441 | Queues a store and resolves to the new clock, keeping the queue invariant. |
| Sessions.CloseCalled | src/server.ts:236 | `conn.close()` moves a socket to closing or closed, never backwards, and counts the call. |
| Sessions.AwarenessUpdate | src/server.ts:139-142 | The awareness frame carries, for each requested client, its current state or none. |
| Sessions.Deregistered | src/server.ts:217 | `conns.delete(c)` removes exactly c from the connections and their order, and keeps the others' clients. |
| Sessions.Without | src/server.ts:217 | The insertion order after the delete has exactly the other connections, without duplicates. |
| Sessions.Tracked | src/server.ts:124-135 | The origin connection gains the added clients and loses the removed ones. Every other connection keeps its set. |
| Sessions.StatesRemoved | src/server.ts:218-222 | Exactly the given clients' awareness states are deleted. |
| Sessions.Released | src/server.ts:223-234 | The document leaves the registry exactly when it has no connection left. |
| Sessions.CloseConn | src/server.ts:210-237 | The cascade of `closeConn` terminates and adds no connection and no socket. |
| Sessions.Send | src/server.ts:239-251 | The cascade of `send` terminates and adds no connection and no socket. |
| Sessions.BroadcastFrom | src/server.ts:144-146 | The `forEach` over the connections still to visit terminates and adds no connection and no socket. |
| Sessions.CloseConnEffects | src/server.ts:210-237 | `closeConn` deregisters the connection, removes the awareness states it controlled and calls `close` on its socket exactly once. The document leaves the registry exactly when its last connection goes. An unregistered connection only has its socket closed. No other socket is closed, and every other writable connection stays registered. |
| Sessions.SendEffects | src/server.ts:239-251 | On a writable socket, `send` appends the frame and changes nothing else. On any other socket it closes the connection. Only the target can be closed. |
| Sessions.SendOpen | src/server.ts:246-247 | `send` to an open, unbroken socket is a plain write. |
| Sessions.SendBroken | src/server.ts:246-250 | `send` to an open socket whose write throws closes the connection. |
| Sessions.SendNotOpen | src/server.ts:240-250 | `send` to a closing or closed socket closes the connection first. The write that follows throws, and `closeConn` runs again, closing the socket a second time. |
| Sessions.BroadcastFromEffects | src/server.ts:144-146 | A broadcast closes no socket outside the connections it visits, and keeps every other writable connection registered. |
| Sessions.AwarenessChangeHandlerEffects | src/server.ts:111-147 | The awareness handler's broadcast keeps the bookkeeping. |
| Sessions.RemoveAwarenessStatesEffects | src/server.ts:218-222 | After `removeAwarenessStates` none of the given clients has a state, and the cascade it fires keeps the bookkeeping. |
| Sessions.CascadeTransitive | src/server.ts:239-251 | Cascade steps compose, and their closable sets add up. |
| Sessions.FollowsTransitive | src/server.ts:210-251 | The step invariant of the cascade is transitive. |
| Sessions.CascadeIsBookkept | src/server.ts:210-251 | Every cascade keeps the registry bookkeeping. |
| Sessions.CloseConnBookkept | src/server.ts:210-237 | `closeConn` keeps the registry bookkeeping, closing only its own socket. |
| Sessions.BroadcastFromDelivers | src/server.ts:144-146 | Every connection still to visit that was registered and writable stays so and receives the frame, whatever the cascade closed meanwhile. |
| Sessions.BroadcastReachesWritableConnections | src/server.ts:81-87 | `updateHandler` delivers its frame to every registered connection whose socket accepts writes. |
| Sessions.BroadcastFromWritable | src/server.ts:144-146 | When every registered socket accepts writes, the broadcast writes the frame exactly once to each connection still to visit and changes nothing else. |
| Sessions.BroadcastToWritableConnections | src/server.ts:81-87 | When every registered socket accepts writes, broadcasting is delivering the frame once to each registered connection. |
| Sessions.AwarenessChangeHandlerEffect | src/server.ts:111-147 | The handler credits the origin with its added clients and removes its removed ones. Every other connection keeps its set. Every writable connection receives the changed clients' current states. |
| Sessions.Registered | src/server.ts:269 | `doc.conns.set(conn, new Set())` adds exactly that connection, with no client. |
| Sessions.Handshake | src/server.ts:311-330 | The handshake terminates and adds no connection and no socket. |
| Sessions.HandshakeOrder | src/server.ts:311-330 | A writable new socket receives sync step 1 and then, only when some client has a state, the awareness update carrying every state, and nothing else happens. An unwritable one is deregistered and closed. |
| Sessions.HandshakeBookkept | src/server.ts:311-330 | The handshake keeps the registry bookkeeping. |
| Server.Decode | src/server.ts:184-207 | An unreadable type is an error. A type other than sync (0) or awareness (1) is ignored. Sync and awareness messages are recognised by their type. |
| Server.PersistJobs | src/server.ts:65-69 | A persistent document stores exactly the update a message applied, once. |
| Server.ListenerEffect | src/server.ts:179-208 | The message listener's effect on the session terminates and adds no connection and no socket. |
| Server.ListenerEffectBookkept | src/server.ts:179-208 | Whatever a message does keeps the registry bookkeeping. Of the sockets outside the document, only the sender's can be closed. |
| Server.SyncMessageEffect | src/server.ts:189-195 | An applied update reaches every writable connection, the sender included. A non-empty reply then reaches the sender, last. A message that neither applies nor answers changes nothing. |
| Server.AwarenessMessageEffect | src/server.ts:196-202 | The states are replaced. On a change, the sender is credited with the added and removed clients, and every writable connection receives the changed states. |
| Server.SharedDoc.constructor | src/server.ts:96-109 | A new document is empty, with no connection and no awareness state. |
| Server.Server.constructor | src/server.ts:253 | The registry starts empty. |
| Server.Server.CloseConn | src/server.ts:210-237 | The object graph after `closeConn` is `Sessions.CloseConn` of the one before. The registry only loses entries. |
| Server.Server.Send | src/server.ts:239-251 | The object graph after `send` is `Sessions.Send` of the one before. |
| Server.Server.Broadcast | src/server.ts:144-146 | `forEach` visits connections in insertion order and skips those deleted meanwhile, computing `Sessions.Broadcast`. |
| Server.Server.UpdateHandler | src/server.ts:81-87 | `updateHandler` is the broadcast of the sync-update frame. |
| Server.Server.AwarenessChangeHandler | src/server.ts:111-147 | The handler computes `Sessions.AwarenessChangeHandler`. |
| Server.Server.RemoveAwarenessStates | src/server.ts:218-222 | Removing states and firing the handler computes `Sessions.RemoveAwarenessStates`. |
| Server.Server.ApplySync | src/server.ts:189-195 | An applied update changes the content, is broadcast and, on a persistent document, is queued for storage. A non-empty reply goes to the sender. |
| Server.Server.ApplyAwareness | src/server.ts:196-202 | The awareness branch computes `ListenerEffect`. |
| Server.Server.MessageListener | src/server.ts:179-208 | The session, the content, the error count and the storage queue change exactly as the decoded message dictates. A malformed message emits one `error`. |
| Server.Server.OnMessage | src/server.ts:271-280 | Binary data goes to the message listener. Text changes nothing. The registry invariant is kept. |
| Server.Server.OnClose | src/server.ts:302-305 | The `close` event runs `closeConn` and keeps the registry invariant. |
| Server.Server.BindState | src/server.ts:60-71 | The stored log is loaded, then the new document's own state is stored. If the log could be loaded, the document is primed with it and persisted from then on. Otherwise it is neither primed nor persisted. |
| Server.Server.NewDoc | src/server.ts:170-173 | A new document is bound to storage: its name's log is loaded and its first update stored. |
| Server.Server.GetYDoc | src/server.ts:165-177 | Answers the registered document, leaving the registry and storage untouched. Otherwise a new document is bound to storage and filed under the name. |
| Server.Server.Join | src/server.ts:268-269 | The socket's document is found or created and the connection registered on it with no client. The registry invariant is kept. |
| Server.Server.Register | src/server.ts:269 | Registering a connection on the fetched document keeps the registry invariant. |
| Server.Server.Attach | src/server.ts:269 | The connection is added to the document's connections, last, with no client. |
| Server.Server.Greet | src/server.ts:311-330 | The closing block of `setupWSConnection` computes `Sessions.Handshake` with the document's state vector. |
| Server.Server.SendHandshake | src/server.ts:311-330 | The handshake keeps the registry invariant. |
| Server.Server.SetupConnection | src/server.ts:257-331 | The socket joins its document. The session then gets the handshake, and the registry invariant holds afterwards. |
| Server.Server.BookkeepingKeepsValid | src/server.ts:179-251 | The registry invariant survives any bookkeeping step a handler of one connection takes. |
| Server.Server.RegistrationKeepsValid | src/server.ts:268-269 | The registry invariant survives registering a connection. |
| SharedContent.KindOf | src/server.ts:366-380 | The selected kind is the one named by the type, and there is none exactly when no kind has that name. |
| SharedContent.GetContent | src/server.ts:364-381 | The result is the shared object of the given name and the named kind. It is `{}` exactly when no kind has that name. |
| SharedContent.KindNameRoundTrip | src/server.ts:366-377 | Every kind's own type name reaches that kind's getter. |

## Left out

- I/O, logging and timing: `console.*`, the callback POST (`callbackHandler`, debounced, with `fetch` commented out), and the commented-out ping/pong keep-alive.
- Concurrency:
  - `bindState` is awaited to completion inside `getYDoc`.
  - In the source, `getYDoc` returns before loading finishes, and `storeUpdate` calls are not awaited.
  - The storage queue itself is modelled as sequential, as `_transact` makes it.
  - The mutex `mux` is never used by the modelled code and is left out.
- Yjs, lib0 and y-protocols:
  - A Yjs document is the sequence of updates applied to it.
  - `encodeStateAsUpdate`, `encodeStateVector`, the message decoders and `readSyncMessage` are uninterpreted functions.
  - Encoder bytes are not modelled: a frame is a datatype, and the state-vector record is a `(clock, sv)` pair rather than its varint encoding.
  - `decodeLeveldbStateVector` is therefore the identity on that pair.
- The Durable Object storage:
  - `get`, `put`, `delete` and `list` never fail.
  - `list` is modelled over one document's update keys. Its full key order is stated in `KeyCodec`, not used for the store.
  - Storage failures other than the 128-key `clearRange` throw are not modelled.
- The key codec:
  - Only string components without `#`, quote, backslash or control characters are round-tripped.
  - JSON escapes and `parseInt` on non-decimal input are left out.
  - `encode` does not escape strings, so for a document name containing `#`, a quote, a backslash or a control character, `getCurrentUpdateClock` would throw when decoding its keys (src/y-durable-storage.ts:28). From the second `storeUpdate` on, every call on that document would then resolve to `null`. `UpdateLog.StoreUpdateStep` does not model that throw and succeeds for every name. Names come from the URL path (src/server.ts:262), which cannot contain these characters.
  - `DurableStorage.GetLevelBulkData` returns clock-keyed datums instead of decoding each key, and `getCurrentUpdateClock`'s `typeof` check (src/y-durable-storage.ts:143-145) cannot fail on such keys.
- UpdateLog.Valid: the model keeps clocks below 10^9. A store reaching a clock of ten digits is outside it, as is a store holding keys that no `createDocumentUpdateKey` produces.
- KeyCodec.UpdateScanIsPerDocument: documents are proved isolated in scans only for names without a quote.
- `persistence.writeState` is an empty TODO in the source and is modelled as doing nothing. The lazy `ydo ||= new YDurableStorage(storage)` is replaced by one storage object handed to the server.
- Awareness internals:
  - The awareness outdated-state timer is left out.
  - `setLocalState(null)` is modelled as an empty state map.
  - An update event's `added`, `updated` and `removed` are sets: duplicates and order inside a frame are not modelled.
- Sockets:
  - A socket is a value with a ready state, a broken flag (a `send` that throws), its outbox and a close-call count.
  - Ready-state changes made by the runtime between events are not modelled.
  - Connections and clients are integer identifiers.
  - A `send` on a socket that is not Open (connecting, closing or closed) is assumed to throw, as the Workers runtime does after `close()`. So after `closeConn` on a socket that was not open, the write that follows throws and `closeConn` runs again (`Sessions.SendNotOpen`). A runtime that dropped such writes silently would close the socket only once.
- The document `error` event is modelled as a counter. Its listeners are left out.
- Server.Server.BindState: runs to completion inside `getYDoc`, before the socket is registered. In the source `bindState` is not awaited and suspends at `ydo.getYDoc` (src/server.ts:62). Two consequences of that ordering are not modelled:
  - the first connection's sync step 1 carries the state vector of the still-empty document;
  - the priming `applyUpdate` (src/server.ts:65) fires `updateHandler` after that connection is registered, so the whole persisted state reaches it as a sync update, unless that state is empty.
  In the model the handshake carries the primed document's state vector, and no priming frame is sent.
- `getContent` returns the shared object's identity, kind and name. Its contents, its `toJSON`, and whether the library provides `getXmlElement` (marked `@ts-ignore` in the source) are left out.
- `src/durable.ts`, `src/index.ts` and the client code are not part of this model. They are the Durable Object shell, the Worker routing and the UI.
