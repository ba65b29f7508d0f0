# Mopidy.js session engine in Dafny

This project models the client session engine of Mopidy.js, the `Mopidy` class that
controls a Mopidy music server over JSON-RPC 2.0 on a WebSocket, and proves properties
of that model. Both variants of the engine are covered. The TypeScript class in
`src/mopidy.ts` is the `Current` variant. The legacy JavaScript class in
`src/mopidy.js` is the `Legacy` variant; where the two differ, the model branches on
`Session.variant`.

The modules follow the engine's parts:

- `Naming` is `snakeToCamel` / `_snakeToCamel` and the `split(".")` applied to dotted
  method names. `Naming.Join` is the model's own inverse of `split`, used to state
  what `split` does; neither engine calls `join`.
- `Json` holds parsed JSON values. Objects are association lists in the order the
  fields were created. It also defines own-property tests (`hasOwnProperty`), lookup
  and `delete`.
- `Decimal` spells ids as strings. The pending table is a JavaScript object, so a
  response id `"3"` finds request 3.
- `Backoff` is the reconnection delay: doubled, capped at the maximum, reset on open.
- `Events` is the listener registry of the event emitter. It covers
  `_delegateEvents`, `on`, and `off` with its argument-count dispatch.
- `Protocol` is the JSON-RPC side:
  - the request envelope and the ready-state rejections of `_send`;
  - how a response settles a call (`result` first, then `error`, then neither);
  - id matching;
  - frame routing in `_handleMessage`;
  - the per-method `caller` argument check;
  - the error values.
- `Transport` is the WebSocket as the engine sees it: `readyState`, the frames sent,
  and `close()`.
- `Config` is `_configure` in both variants, including the legacy
  `callingConvention` and its warning.
- `Api` is `_createApi`'s tree, with JavaScript's property semantics:
  - the catalog is walked in `Object.keys` order: array-index keys first, in ascending
    numeric order, then the other keys in creation order;
  - paths have no leading `core`, and each segment is camel-cased;
  - a truthy value on the way is reused, any other is replaced by `{}`, and a kept
    primitive makes the walk throw;
  - the leaf is a callable whose `description` and `params` are properties in the same
    namespace as the methods nested under it.
- `Session` is the stateful engine: one `Session` object plus the process-wide
  `IdCounter`.

The `Session` class has one method per entry point:

- calls made by the program: `connect`, `close`, `on`, `off`, a materialized API
  method;
- callbacks from the environment: a socket opening, closing, erroring or delivering a
  frame, a timer firing, the clock moving.

Its fields are the ones the engine keeps:

- the backoff delay;
- the pending-request ids in table order;
- the current socket;
- the listener registry.

Three fields stand in for things outside the engine:

- `trace` is the ordered record of every emit and console warning;
- `outcomes` maps each settled call's id to how its promise was settled;
- `timers` is the queue of `setTimeout` callbacks.

`Valid()` is kept by every method. It says:

- pending ids increase, were handed out and are not yet settled;
- each internal handler is registered at most once;
- no timer is due in the past;
- the delay is the one that the number of cycles since the last reset gives.

The WebSocket callbacks only emit a `websocket:*` event. Each internal handler then
runs only while it is still registered, so after `close()` a later close event no
longer starts a reconnect. A reconnect already queued is not stopped (see "## Left out").

A promise reaction is applied at the end of the handler that settled the promise,
since in JavaScript it runs after that handler returns. Two cases use this:

- a `core.describe` result builds the API after `_handleResponse` returns;
- the warnings for `core.describe` calls rejected by `_cleanup` come after
  `state:offline`.

The legacy `_getApiSpec` passes `_handleWebSocketError` to `.catch` unbound. The
handler then throws on `this._console`, so a failed describe call logs nothing in
that variant.

A reconnect reuses the existing tree. `createObjects` keeps every truthy object and
callable on the path (src/mopidy.ts:360), and only the last property is overwritten
(src/mopidy.ts:370). The model installs into the existing tree
(`Api.InstallKeepsPrefix`, `Api.InstallReplacesBelow`).

## Model

| member | source | states |
|---|---|---|
| Naming.SnakeToCamel | src/mopidy.ts:50-54 | the result is never longer than the name, and empty exactly when the name is |
| Naming.Upper | src/mopidy.ts:52 | upper-casing a lower-case ASCII letter gives the capital 32 code points below it |
| Naming.FirstOfCamel | src/mopidy.ts:50-54 | the first character of the result is the upper-cased letter of a leading `_x` match, else the first character unchanged |
| Naming.CamelLength | src/mopidy.ts:50-54 | each replacement removes exactly one character: result length is input length minus the number of matches |
| Naming.CamelHasNoSnakePair | src/mopidy.ts:50-54 | the result contains no `_` followed by a lower-case letter |
| Naming.CamelFixedPoint | src/mopidy.ts:50-54 | a name with no `_[a-z]` pair is returned unchanged |
| Naming.CamelIdempotent | src/mopidy.ts:50-54 | camel-casing twice gives the same as camel-casing once |
| Naming.CamelConcat | src/mopidy.ts:50-54 | when the first part does not end in `_`, camel-casing a concatenation is the concatenation of the camel-cased parts |
| Naming.CamelNoUnderscore | src/mopidy.ts:50-54 | a name without any underscore is unchanged |
| Naming.CamelSegment | src/mopidy.ts:50-54 | `_word` becomes `Word`, the rest of the word untouched |
| Naming.CamelOfSnakeWords | src/mopidy.ts:50-54 | snake_case words joined by `_` come out with the first word kept and every later word capitalised |
| Naming.CamelExampleEvent | src/mopidy.ts:50-54 | "track_playback_started" becomes "trackPlaybackStarted" |
| Naming.CamelExampleGreeting | src/mopidy.js:292-296 | "mighty_greetings" becomes "mightyGreetings" (the legacy `_snakeToCamel` is the same function) |
| Naming.Split | src/mopidy.ts:349 | `split(".")` always yields at least one piece |
| Naming.SplitPiecesUndotted | src/mopidy.ts:349 | no piece of a split contains a dot |
| Naming.JoinOfSplit | src/mopidy.ts:349 | joining the pieces with dots gives back the name |
| Naming.SplitOfJoin | src/mopidy.ts:349 | splitting dot-free pieces joined with dots gives back the pieces |
| Json.Lookup | src/mopidy.ts:24-44 | a property is found exactly when the object has it as an own key, and its value is that of a field with that key |
| Json.Member | src/mopidy.ts:294-296 | only an object yields a member, and only one it has as an own key |
| Json.Without | src/mopidy.ts:311-312 | after `delete data.event` no `event` key remains and every other key looks up as before |
| Decimal.NatToStringCanonical | src/mopidy.ts:247 | `String(n)` is a digit string without a leading zero that spells `n` |
| Decimal.CanonicalRoundTrip | src/mopidy.ts:279 | a canonical digit string is `String` of the number it spells |
| Decimal.ParseNatCorrect | src/mopidy.ts:278-280 | a string key names id `n` exactly when it is `String(n)` |
| Decimal.NatToStringInjective | src/mopidy.ts:247 | distinct ids are stored under distinct keys |
| Backoff.NextDelay | src/mopidy.ts:200-203 | the next delay is twice the current one, or the maximum when that is exceeded, and never above the maximum |
| Backoff.DelayAfter | src/mopidy.ts:200-203 | the first delay is the minimum; every later one is at most the maximum; for `0 < min <= max` every delay is at least the minimum |
| Backoff.DelayClosedForm | src/mopidy.ts:183-209 | for `0 < min <= max`, after `n` cycles since a reset the delay is `min(backoffDelayMin * 2^n, backoffDelayMax)` |
| Backoff.DefaultDelays | src/mopidy.ts:200-203 | with the defaults the announced delays are 1000, 2000, 4000, ... 64000 and then stay at 64000 |
| Backoff.DelayBoundedMonotone | src/mopidy.ts:183-209 | for `0 < min <= max` the delay stays within [min, max] and never decreases between resets |
| Events.On | src/mopidy.ts:383-388 | `on` appends the listener under its name and leaves every other name alone |
| Events.RemoveLast | src/mopidy.ts:412 | `removeListener` removes the most recently added instance of a registered listener, the others keep their order, and nothing changes when it is absent |
| Events.DelegateEvents | src/mopidy.ts:125-139 | afterwards the registry has the old names plus the five delegated ones, and those five hold internal handlers only |
| Events.DelegateEventsRegisters | src/mopidy.ts:125-139 | every internal handler is registered, alone under its event except the two `websocket:open` handlers in order, and other names keep their listeners |
| Events.DelegateEventsInternalOnce | src/mopidy.ts:125-139 | `_delegateEvents` registers no internal handler twice |
| Events.OnUserInternalOnce | src/mopidy.ts:383-388 | adding a program listener registers no internal handler twice |
| Events.Off | src/mopidy.ts:395-421 | `off` throws exactly for a single argument whose `typeof` is not "string" or more than two arguments, and rejects the listener exactly when a second argument is not a function |
| Events.EventKey | src/mopidy.ts:410-412 | the name given to `removeListener` is looked up as a property key: a string as itself, a number as its decimal spelling (with a leading `-` when negative), and a boolean, null or plain object as `String` spells them |
| Events.OffNeverAdds | src/mopidy.ts:395-421 | `off` never adds a listener: under every name it keeps some of those there were |
| Events.OffDispatch | src/mopidy.ts:395-421 | `off()` clears everything, `off(name)` clears that name only, `off(name, listener)` removes the last instance of the listener under the name's property key and touches no other name, and other arities or a non-string single argument throw |
| Events.OffStringValue | src/mopidy.ts:400-403 | `off("x")` clears the listeners of "x" however the string is passed, as `typeof arg === "string"` decides |
| Events.OffNumberName | src/mopidy.ts:410-412 | `off(5, l)` removes the `l` that `on("5", l)` registered |
| Events.OffUndoesOn | src/mopidy.ts:395-421 | `off(name, l)` right after `on(name, l)` restores every name's listeners |
| Events.OffInternalOnce | src/mopidy.ts:395-421 | `off` registers no internal handler twice |
| Events.OffDetaches | src/mopidy.ts:215-216 | `off(event, handler)` leaves that internal handler detached |
| Protocol.Envelope | src/mopidy.ts:242-246 | the envelope is an object whose keys are exactly `method`, `jsonrpc`, `id` and, when given, `params`, each once |
| Protocol.EnvelopeMembers | src/mopidy.ts:242-246 | the envelope carries the method, the params exactly when given, `jsonrpc` "2.0" and the id |
| Protocol.EnvelopeRoundTrip | src/mopidy.ts:242-248 | decoding the envelope gives back exactly the call and the id |
| Protocol.EnvelopeIsRequestObject | src/mopidy.ts:242-246 | the envelope is a JSON-RPC 2.0 Request object exactly when its params, if any, are an array or an object |
| Protocol.SendRejection | src/mopidy.ts:227-239 | a socket that is not OPEN gives a ConnectionError "WebSocket is still connecting" / "WebSocket is closing" / "WebSocket is closed", and OPEN gives none |
| Protocol.ClosedError | src/mopidy.ts:175-176 | the close rejection is a ConnectionError carrying the close event |
| Protocol.Settle | src/mopidy.ts:291-307 | `result` present resolves with it; otherwise `error` present rejects with a ServerError of its message, code and data; otherwise rejects with "Response without 'result' or 'error' received" and the raw response as `data.response` |
| Protocol.SettleLog | src/mopidy.ts:291-307 | a warning is logged exactly when the response has no `result` |
| Protocol.SettleResultResponse | src/mopidy.ts:291-292 | a server's success response resolves the call with its result unchanged |
| Protocol.SettleErrorResponse | src/mopidy.ts:293-297 | a server's error response rejects the call with its message, code and data |
| Protocol.ResponseKey | src/mopidy.ts:278-280 | a response id names a pending id only as that number or its decimal string; a non-negative number always names itself; other JSON types name nothing |
| Protocol.ResponseKeyMatches | src/mopidy.ts:278-289 | a response id names pending id `k` exactly when it is the number `k` or the string `String(k)` |
| Protocol.RouteFrame | src/mopidy.ts:254-275 | an object with `id` goes to response handling; one with `event` and no `id` goes to event handling; a parse failure, a parsed `null` and every other value have their own routes |
| Protocol.EventName | src/mopidy.ts:313 | an event name exists exactly when `event` holds a string |
| Protocol.EventFrameRouting | src/mopidy.ts:254-316 | an event frame is routed as an event named `event:` plus its camel-cased name, with the rest of the frame as payload |
| Protocol.ResponseFrameRouting | src/mopidy.ts:257-258 | a frame with `id` is a response even when it also has `event` |
| Protocol.CallDecision | src/mopidy.js:226-247 | by name: zero args send no params, one array or object is sent as the params, more args reject with "Expected zero arguments, a single array, or a single object.", one primitive rejects with TypeError "Expected an array or an object."; by position only: any non-empty argument list is sent as one positional array, unchecked |
| Protocol.CallSendsRequestObject | src/mopidy.ts:325-346 | whatever a materialized method sends is a valid JSON-RPC 2.0 Request object |
| Transport.Socket.constructor | src/mopidy.ts:153-155 | a new socket for the URL starts CONNECTING with nothing sent |
| Transport.Socket.Transmit | src/mopidy.ts:248 | `send` appends the frame and changes nothing else |
| Transport.Socket.Close | src/mopidy.ts:150 | `close` moves the socket to CLOSING, leaves a CLOSED one closed, and sends nothing |
| Config.DefaultUrl | src/mopidy.ts:108-116 | the default address is `wss://` on an https page, else `ws://`, then the page's host or `localhost`, then `/mopidy/ws` |
| Config.Configure | src/mopidy.js:22-48 | the URL defaults when empty; autoConnect is on unless exactly `false`; delays default when falsy; the legacy convention defaults to "by-position-only" while the current variant passes it through unchanged; the socket is passed through |
| Config.ConfigureLog | src/mopidy.js:38-44 | the convention warning is logged exactly in the legacy variant when no convention was given |
| Config.ConfigureIdempotent | src/mopidy.ts:106-123 | configured settings configure to themselves in any environment, and log no warning |
| Config.ByNameOfOptions | src/mopidy.js:223-247 | the current engine accepts params by name, the legacy one only when "by-position-or-by-name" was asked for; then a single array or object argument is sent as the params, otherwise it is wrapped as one positional argument |
| Config.LegacyDefaultIsPositional | src/mopidy.js:226-234 | with no convention given, the legacy engine sends any arguments as positional params |
| Api.GetPath | src/mopidy.ts:348-354 | the path is empty exactly for the name "core", drops a leading `core` segment and keeps all others |
| Api.CamelPathJoin | src/mopidy.ts:359 | camel-casing the segments one by one is camel-casing the dotted name: no `_x` match straddles a dot |
| Api.InstallAt | src/mopidy.ts:356-372 | the walk always leaves the first segment present and every other top-level property untouched |
| Api.InstallOk | src/mopidy.ts:356-364 | the walk throws exactly when a kept primitive (a truthy string, number or boolean) lies on the way |
| Api.FreshTreeClear | src/mopidy.ts:356-364 | an empty tree never makes the walk throw |
| Api.InstallFinds | src/mopidy.ts:366-373 | the installed callable is found at its path |
| Api.InstallKeepsPrefix | src/mopidy.ts:356-364 | every value on the way afterwards holds the next step; one the walk kept is the same callable or object, with its metadata and all other properties; one it replaced is an empty object holding just the next step |
| Api.InstallElsewhere | src/mopidy.ts:356-373 | paths that do not lie on the installed path are unchanged |
| Api.InstallReplacesBelow | src/mopidy.ts:370 | below the new property only the leaf's own properties are found: whatever was below the old one is gone |
| Api.InstallKeepsClear | src/mopidy.ts:356-372 | installing off a path does not put a primitive on that path |
| Api.ObjectKeysOrder | src/mopidy.ts:375 | `Object.keys` lists each own key once, the array-index keys first in ascending numeric order, then the others in creation order |
| Api.CatalogOrder | src/mopidy.ts:371-375 | the catalog yields every method name once, each with the spec stored under it, in `Object.keys` order |
| Api.IndexKeyFirst | src/mopidy.ts:375 | the catalog `{"1.x": S1, "1": S2}` is walked as "1" and then "1.x" |
| Api.IndexKeyNests | src/mopidy.ts:356-375 | so "1" becomes a callable and "1.x" hangs `x` on it |
| Api.CreateMethod | src/mopidy.ts:366-373 | "core" throws and leaves the tree unchanged; a blocked walk throws; a null spec throws after the bare callable is installed; otherwise the callable carries the name and the spec's description and params at its path; no top-level property is lost |
| Api.DescriptionBlocks | src/mopidy.ts:360-372 | a method nested under a non-empty string `description` makes the walk throw |
| Api.EmptyDescriptionReplaced | src/mopidy.ts:360 | an empty `description` is falsy and is replaced by an object holding the nested method |
| Api.ParamsReplaced | src/mopidy.ts:370-372 | a method named `a.params` replaces the params copied onto `a` |
| Api.Materialize | src/mopidy.ts:375 | installing a catalog, fully or up to a throw, never loses a top-level property |
| Api.MaterializeComplete | src/mopidy.ts:375 | for installable entries with pairwise separate paths that no primitive blocks, every entry ends up callable with its own metadata |
| Api.MaterializeStuck | src/mopidy.ts:375 | once an entry has thrown, later entries change nothing |
| Api.MaterializeStops | src/mopidy.ts:375 | the first entry that throws ends the walk, with the tree as that entry left it |
| Session.IdCounter.Next | src/mopidy.ts:56-62 | each call returns the counter and increments it: 0, 1, 2, ...; one counter serves the whole program, as the legacy prototype-level `_nextRequestId` does |
| Session.TimerDelay | src/mopidy.ts:195-199 | as in Node.js, the timer waits the requested delay when it is in [1, 2^31-1] ms, else 1 ms |
| Session.StateSignals | src/mopidy.ts:179-180 | the current variant emits `state` with the name first and then the name itself; the legacy one only the name |
| Session.DescribeFailure | src/mopidy.ts:318-322 | a failed describe call is warned about exactly in the current variant |
| Session.StackOr | src/mopidy.ts:222-224 | the warning carries the error's truthy `stack`, else the error itself; a null error has no value, as reading its `stack` throws |
| Session.Remove | src/mopidy.ts:289 | deleting an id removes it and only it, keeping the table in order |
| Session.RejectAllSettles | src/mopidy.ts:172-178 | rejecting the pending ids settles exactly those, all with the given error, and leaves other outcomes alone |
| Session.LateWarningsCount | src/mopidy.js:216-220 | the legacy variant owes no describe warnings, and every owed warning is "WebSocket error:" with the close error |
| Session.RejectEach | src/mopidy.ts:172-178 | the loop over the table rejects each id in order and collects the describe warnings owed |
| Session.InstallEach | src/mopidy.ts:375 | the loop over the catalog yields the tree and the throw status of installing the entries in order |
| Session.Session.constructor | src/mopidy.ts:79-90 | the session is configured, starts at the minimum delay with an empty table, registers the internal handlers, and connects exactly when autoConnect is on |
| Session.Session.Connect | src/mopidy.ts:145-169 | an OPEN socket is left alone; otherwise the old socket is closed (CLOSING, or still CLOSED) and replaced by the configured one or a new CONNECTING one, so a configured socket that was the current one comes back closing or closed |
| Session.Session.Send | src/mopidy.ts:226-252 | not OPEN: rejected with the state's message and nothing changes; OPEN: a fresh id, one pending entry, one envelope sent and emitted; no socket: throws |
| Session.Session.Call | src/mopidy.ts:325-346 | an argument shape the convention refuses rejects and sends nothing; otherwise the planned params are sent |
| Session.Session.OnError | src/mopidy.ts:222-224 | the error is emitted; while its handler is registered it is warned with its stack or itself, and a null error throws instead |
| Session.Session.ResetBackoffDelay | src/mopidy.ts:207-209 | the delay goes back to the minimum and nothing else changes |
| Session.Session.GetApiSpec | src/mopidy.ts:318-322 | on an OPEN socket the `core.describe` envelope is sent under a fresh id, emitted and remembered as a describe call; otherwise the rejection is warned in the current variant, and without a socket it throws with nothing changed |
| Session.Session.OnOpen | src/mopidy.ts:163-165 | `websocket:open` is emitted first, the delay is reset while that handler is registered, the `core.describe` envelope goes out on an OPEN socket while its handler is registered, and registry, timers and API are left alone |
| Session.Session.CreateApi | src/mopidy.ts:324-379 | every entry is installed in key order and then `state:online` is announced; a throw part-way keeps what was installed and warns instead |
| Session.Session.DescribeSettled | src/mopidy.ts:318-322 | a result builds the API from its catalog and announces `state:online`; a rejection, a null catalog or a throw while installing is warned as the variant does |
| Session.Session.HandleResponse | src/mopidy.ts:277-308 | an id not pending is only warned about; otherwise it is what `Respond` states for that id |
| Session.Session.Respond | src/mopidy.ts:288-307 | the entry alone leaves the table; a null `error` then throws; otherwise the call is settled as `Settle` says, `SettleLog`'s warning (such as "Server returned error:") is logged, and a `core.describe` call then builds the API or warns as `DescribeSettled` does |
| Session.Session.Dequeue | src/mopidy.ts:289 | the id leaves the table and the describe set, and nothing else changes |
| Session.Session.Record | src/mopidy.ts:291-302 | the outcome is recorded under the id and nothing else changes |
| Session.Session.HandleEvent | src/mopidy.ts:310-316 | a string event emits `event` with name and payload (current variant only) and then `event:<camelName>` with the message less its `event` key; a non-string throws before emitting |
| Session.Session.HandleMessage | src/mopidy.ts:254-275 | a parse failure and an unknown frame are warned about with the raw text; a parsed null throws; a response frame has `HandleResponse`'s effect and an event frame `HandleEvent`'s |
| Session.Session.OnMessage | src/mopidy.ts:166-168 | the message is emitted first and routed only while its handler is registered |
| Session.Session.AnnounceReconnect | src/mopidy.ts:188-204 | `reconnectionPending` announces the current delay, the attempt is scheduled that long from now, and the delay becomes the next one |
| Session.Session.Reconnect | src/mopidy.ts:183-205 | the current variant only schedules the announcement 1 ms later; the legacy one announces, schedules the attempt and doubles the delay at once |
| Session.Session.Cleanup | src/mopidy.ts:171-181 | every pending call is rejected with "WebSocket closed" carrying the close event, the table ends empty, and `state:offline` (in the legacy variant without the `state` aggregate) reconnects only while that handler is registered |
| Session.Session.RejectPending | src/mopidy.ts:172-178 | the table and describe set end empty, the outcomes are the bulk rejection, and nothing else changes |
| Session.Session.GoOffline | src/mopidy.ts:179-180 | announces `state:offline`, reconnects as the variant does while the handler is registered, then logs the owed warnings |
| Session.Session.OnClose | src/mopidy.ts:157-159 | the close is emitted first, and while the cleanup handler is registered the table is rejected in bulk |
| Session.Session.TakeTimer | src/mopidy.ts:188-199 | the clock moves to the next timer's due time and that timer leaves the queue |
| Session.Session.FireTimer | src/mopidy.ts:188-199 | the announcement runs one reconnect cycle; the attempt announces `reconnecting` and then connects as `Connect` states: an OPEN socket stays, otherwise the old one is closed (CLOSING, or still CLOSED) and the configured or a new CONNECTING one is installed |
| Session.Session.Close | src/mopidy.ts:215-220 | the reconnect handler is detached and the socket closed, its sent frames unchanged; nothing else changes; only the legacy variant throws when there is no socket |
| Session.Session.On | src/mopidy.ts:383-388 | the program's listener is appended under its name |
| Session.Session.Off | src/mopidy.ts:395-421 | the registry becomes what `off` gives, or the error it throws is returned with the registry untouched |

## Left out

- The real WebSocket is not modelled: no network, no `JSON.stringify` of outgoing frames. `Transport.Socket` keeps only `readyState`, the frames handed to `send`, and the `close` calls. `Settle` stands for the network moving the state on.
- `JSON.parse` is taken as given: a frame arrives already parsed, or marked as a parse failure.
- Numbers are integers; floating-point ids and delays are not modelled.
- JSON objects with duplicate keys are not modelled (`JSON.parse` keeps the last value, while `Json.Lookup` reads the first).
- Inherited and built-in properties are not modelled: the walk of `createObjects` sees only own properties, so an array's `length` or a function's `name` on the way is not found.
- `createMethod` assigns `description` and `params` even when the spec lacks them, giving properties whose value is undefined. The model leaves such a property off; it is falsy either way, so a walk through it creates `{}` in both.
- Session.TimerDelay: it follows Node.js's clamp. A browser's `setTimeout` handles a delay above 2^31-1 ms differently, which is not modelled.
- Response ids that are neither numbers nor strings are treated as matching nothing. JavaScript's conversion to a property key (an array `[3]` names key "3") is not modelled.
- Events.EventKey: an array or a function given as the event name of `off(name, listener)` is taken to match no listener; `String` of an array joins its elements and that of a function is its source text, and neither is modelled.
- Node's `EventEmitter`, `bane` and `when` are foreign libraries. Only the registry level of `on`/`off`/`removeListener` is modelled. Legacy `off` is treated like the TypeScript `off`.
- Listeners added by the program are opaque: they are registered and removed, but running them has no effect in the model.
- Promises are not modelled: the `outcomes` map records how each call was settled.
- Real timers are not modelled; `timers` is a queue and the environment picks the next one to fire.
- `_getConsole` and the choice of console are left out: every warning is recorded in `trace`.
- Browser detection in `_configure` is a parameter: `document.location` is given as an optional `Location`.
- The API tree lives under its own root, `Session.api`, rather than on the session object. Clobbering session members such as `connect`, and names of inherited properties, are not modelled.
- The `delete` of the legacy `_handleEvent` changes the received message in place; nothing else holds that message, so the model emits the message without `event` (`Json.Without`).
- The wording of the runtime's TypeErrors, for reading a property of null, is not fixed by the model (`Session.NullAccess`).
- `error.stack` of a rejected describe call is not modelled: the warning carries the error value.
- A failure thrown by the WebSocket constructor is not modelled.
- Timers already queued when `close()` is called still fire, as `_reconnect`'s timer callbacks check no registration. A queued announcement (the current variant's 1 ms timer) still announces `reconnectionPending` and queues an Attempt, and a queued Attempt still connects. The model does not cancel them, as the source does not.
- Session.Session.OnOpen: it states the describe request only for an OPEN socket; the other replies are those of `Session.Session.GetApiSpec`.
- Session.Session.OnMessage: it states the emitted event and the case without a handler; routing is stated by `Session.Session.HandleMessage`.
- Session.Session.OnClose: it states the bulk rejection and that timers are untouched without the reconnect handler; the rest of the trace is stated by `Session.Session.Cleanup`.
- Session.Session.Call: for a sent call it states the frame sent only when the reply is pending; the other replies are those of `Session.Session.Send`.
