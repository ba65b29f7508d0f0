/**
 * The `Mopidy` session object: the request correlator, the message router,
 * the reconnection controller, the transport handling and the API
 * materializer, over the state the class keeps in its fields.
 *
 * Each public method is one entry point of Mopidy.js: a call the program
 * makes (`connect`, `close`, `on`, `off`, a materialized API method), or a
 * callback the environment triggers (a socket event, a timer firing). The
 * WebSocket callbacks only `emit` a `websocket:*` event; what happens next is
 * up to the listeners, so each internal handler runs only while it is still
 * registered.
 */
module Session {
  import opened Wrappers
  import opened Json
  import opened Backoff
  import opened Events
  import opened Protocol
  import opened Api
  import opened Config
  import opened Transport

  /**
   * The request id counter: the closure variable behind `nextRequestId`
   * (src/mopidy.ts) or the prototype's `_nextRequestId` (src/mopidy.js).
   * There is one for the whole program, shared by every session.
   * `count` is the last id handed out plus one.
   */
  class IdCounter {
    var count: nat

    constructor ()
      ensures count == 0
    {
      count := 0;
    }

    /** `lastUsed += 1; return lastUsed;` */
    method Next() returns (id: nat)
      modifies this
      ensures id == old(count) && count == id + 1
    {
      id := count;
      count := count + 1;
    }
  }

  /** A `setTimeout` callback: `_reconnect`'s announcement (current variant only) or the reconnection attempt. */
  datatype Task = Announce | Attempt

  datatype Timer = Timer(due: int, task: Task)

  const MaxTimerDelay := 2147483647

  /** The delay Node.js's `setTimeout` really waits: below 1 or above 2^31 - 1 ms it waits 1 ms. */
  function TimerDelay(ms: int): (d: int)
    ensures 1 <= d <= MaxTimerDelay
    ensures 1 <= ms <= MaxTimerDelay ==> d == ms
    ensures (ms < 1 || ms > MaxTimerDelay) ==> d == 1
  {
    if ms < 1 || ms > MaxTimerDelay then 1 else ms
  }

  /** Timer `i` fires next: none is due earlier, and none due at the same time was scheduled before it. */
  predicate IsNext(ts: seq<Timer>, i: int) {
    && 0 <= i < |ts|
    && (forall j :: 0 <= j < |ts| ==> ts[i].due <= ts[j].due)
    && (forall j :: 0 <= j < i ==> ts[j].due > ts[i].due)
  }

  /** What a call returned: a pending promise for this id, a promise already rejected, or a synchronous throw. */
  datatype Reply = Awaiting(id: nat) | Failed(error: Error) | Threw(error: Error)

  /** The runtime's TypeError for a property read on null or undefined; the model does not fix its wording. */
  const NullAccess := TypeError("Cannot read properties of null or undefined")

  const ListenerTypeMessage := "The \"listener\" argument must be of type function"

  /** `{timeToAttempt: d}` */
  function Pending(d: int): Json {
    JObj([Field("timeToAttempt", JNum(d))])
  }

  /**
   * A state change: the current variant first emits it on the aggregate
   * `state` event, then under its own name; the legacy one only under its name.
   */
  function StateSignals(variant: Variant, name: string, args: seq<Arg>): (w: seq<Signal>)
    ensures variant == Legacy ==> w == [Emitted(name, args)]
    ensures variant == Current ==> w == [Emitted("state", [J(JStr(name))] + args), Emitted(name, args)]
    ensures |w| >= 1 && w[|w| - 1] == Emitted(name, args)
  {
    (if variant == Current then [Emitted("state", [J(JStr(name))] + args)] else []) + [Emitted(name, args)]
  }

  /**
   * What becomes of a rejected `core.describe` call (or a throw in
   * `_createApi`): src/mopidy.ts catches it with the bound
   * `_handleWebSocketError` and warns; src/mopidy.js passes the handler
   * unbound, so it throws on `this._console` and nothing is logged.
   */
  function DescribeFailure(variant: Variant, e: Error): (w: seq<Signal>)
    ensures w != [] <==> variant == Current
  {
    if variant == Current then [Warned("WebSocket error:", [E(e)])] else []
  }

  /**
   * `error.stack || error` for an error event given as JSON: the stack when it
   * is truthy, else the error itself; reading `stack` of null throws, so there
   * is no value then.
   */
  function StackOr(error: Json): (r: Option<Json>)
    ensures r.None? <==> error == JNull
    ensures r.Some? && r.value != error ==> Member(error, "stack") == Some(r.value) && Truthy(r.value)
    ensures Member(error, "stack").Some? && Truthy(Member(error, "stack").value) ==> r == Member(error, "stack")
  {
    if error == JNull then None
    else
      var stack := Member(error, "stack");
      if stack.Some? && Truthy(stack.value) then stack else Some(error)
  }

  predicate Increasing(s: seq<nat>) {
    forall i, j :: 0 <= i < j < |s| ==> s[i] < s[j]
  }

  /** `delete table[x]` on the ids in table order. */
  function Remove(s: seq<nat>, x: nat): (r: seq<nat>)
    ensures forall y :: y in r <==> y in s && y != x
    ensures Increasing(s) ==> Increasing(r)
    decreases |s|
  {
    if s == [] then []
    else
      assert Increasing(s) ==> Increasing(s[1..]);
      var rest := Remove(s[1..], x);
      if s[0] == x then rest
      else
        assert Increasing(s) ==> Increasing([s[0]] + rest) by {
          if Increasing(s) {
            forall y | y in rest ensures s[0] < y {
              var j :| 0 <= j < |s[1..]| && s[1..][j] == y;
              assert s[j + 1] == y;
            }
            var r := [s[0]] + rest;
            forall i, j | 0 <= i < j < |r| ensures r[i] < r[j] {
              if i == 0 {
                assert r[j] == rest[j - 1] && rest[j - 1] in rest;
              } else {
                assert r[i] == rest[i - 1] && r[j] == rest[j - 1];
              }
            }
          }
        }
        [s[0]] + rest
  }

  /** The outcomes after rejecting each of `ks` with `err`, in order. */
  function RejectAll(o: map<nat, Outcome>, ks: seq<nat>, err: Error): map<nat, Outcome>
    decreases |ks|
  {
    if ks == [] then o else RejectAll(o, ks[..|ks| - 1], err)[ks[|ks| - 1] := Rejected(err)]
  }

  /** Rejecting `ks` settles exactly those, all with `err`, and leaves every other outcome alone. */
  lemma {:induction false} RejectAllSettles(o: map<nat, Outcome>, ks: seq<nat>, err: Error)
    ensures forall k :: k in RejectAll(o, ks, err) <==> k in o || k in ks
    ensures forall k :: k in ks ==> RejectAll(o, ks, err)[k] == Rejected(err)
    ensures forall k :: k in o && k !in ks ==> RejectAll(o, ks, err)[k] == o[k]
    decreases |ks|
  {
    if ks != [] {
      var init := ks[..|ks| - 1];
      RejectAllSettles(o, init, err);
      assert ks == init + [ks[|ks| - 1]];
      forall k ensures k in ks <==> k in init || k == ks[|ks| - 1] {
      }
    }
  }

  /** The warnings owed to the rejected describe calls among `ks`, in order. */
  function LateWarnings(variant: Variant, ks: seq<nat>, dids: set<nat>, err: Error): seq<Signal>
    decreases |ks|
  {
    if ks == [] then []
    else LateWarnings(variant, ks[..|ks| - 1], dids, err)
         + (if ks[|ks| - 1] in dids then DescribeFailure(variant, err) else [])
  }

  /** The legacy variant owes no warnings; the current one owes one per describe call among `ks`. */
  lemma {:induction false} LateWarningsCount(variant: Variant, ks: seq<nat>, dids: set<nat>, err: Error)
    ensures variant == Legacy ==> LateWarnings(variant, ks, dids, err) == []
    ensures (forall i :: 0 <= i < |ks| ==> ks[i] !in dids) ==> LateWarnings(variant, ks, dids, err) == []
    ensures forall w :: w in LateWarnings(variant, ks, dids, err) ==> w == Warned("WebSocket error:", [E(err)])
    decreases |ks|
  {
    if ks != [] {
      var init := ks[..|ks| - 1];
      LateWarningsCount(variant, init, dids, err);
      if forall i :: 0 <= i < |ks| ==> ks[i] !in dids {
        assert forall i :: 0 <= i < |init| ==> init[i] == ks[i];
        assert ks[|ks| - 1] !in dids;
      }
    }
  }

  /**
   * `_cleanup`'s `forEach` over the table: each id in table order is
   * rejected with `err`, and each describe call among them owes a warning.
   */
  method RejectEach(variant: Variant, keys: seq<nat>, outcomes: map<nat, Outcome>, dids: set<nat>, err: Error)
    returns (settled: map<nat, Outcome>, late: seq<Signal>)
    ensures settled == RejectAll(outcomes, keys, err)
    ensures late == LateWarnings(variant, keys, dids, err)
  {
    settled := outcomes;
    late := [];
    for i := 0 to |keys|
      invariant settled == RejectAll(outcomes, keys[..i], err)
      invariant late == LateWarnings(variant, keys[..i], dids, err)
    {
      assert keys[..i + 1][..i] == keys[..i];
      settled := settled[keys[i] := Rejected(err)];
      if keys[i] in dids {
        late := late + DescribeFailure(variant, err);
      }
    }
    assert keys[..|keys|] == keys;
  }

  /**
   * `_createApi`'s `forEach` over the catalog: `createMethod` for each entry
   * in key order, walking and writing the tree, until one throws.
   */
  method InstallEach(t: Tree, es: seq<Entry>) returns (b: Step)
    ensures b == Materialize(t, es)
  {
    var tree := t;
    var i := 0;
    var ok := true;
    while i < |es| && ok
      invariant 0 <= i <= |es|
      invariant Materialize(t, es[..i]) == Step(tree, ok)
    {
      var s := CreateMethod(tree, es[i]);
      assert es[..i + 1][..i] == es[..i];
      tree := s.tree;
      ok := s.ok;
      i := i + 1;
    }
    if ok {
      assert es[..i] == es;
    } else {
      MaterializeStuck(t, es, i);
    }
    b := Step(tree, ok);
  }

  /**
   * The request table: ids in increasing order, each one already handed out
   * and not yet settled; settled ids were handed out too; the describe calls
   * are among the pending ones.
   */
  ghost predicate TableValid(pending: seq<nat>, outcomes: map<nat, Outcome>, describeIds: set<nat>, count: nat) {
    && Increasing(pending)
    && (forall i :: 0 <= i < |pending| ==> pending[i] < count && pending[i] !in outcomes)
    && (forall k :: k in outcomes ==> k < count)
    && (forall k :: k in describeIds ==> k in pending)
  }

  /** No timer is due before the clock. */
  ghost predicate TimersValid(timers: seq<Timer>, now: int) {
    forall i :: 0 <= i < |timers| ==> timers[i].due >= now
  }

  /** Every field of a session that its methods change, for stating what a method leaves alone. */
  datatype Snapshot = Snapshot(
    now: int, backoffDelay: int, cycles: nat,
    pending: seq<nat>, outcomes: map<nat, Outcome>, describeIds: set<nat>,
    socket: Socket?, registry: Registry, trace: seq<Signal>, timers: seq<Timer>, api: Tree)

  /**
   * What a settled `core.describe` call does to the API tree and the trace: a
   * result builds the API from its catalog and announces `state:online`, and
   * a rejection, a catalog that is not an object or a throw while installing
   * goes to the error handler.
   */
  function DescribeEffect(variant: Variant, api: Tree, o: Outcome): (Tree, seq<Signal>) {
    match o
    case Rejected(e) => (api, DescribeFailure(variant, e))
    case Resolved(v) =>
      match CatalogEntries(v)
      case None => (api, DescribeFailure(variant, NullAccess))
      case Some(es) =>
        var b := Materialize(api, es);
        (b.tree, if b.ok then StateSignals(variant, "state:online", []) else DescribeFailure(variant, NullAccess))
  }

  /**
   * `_handleEvent` on these fields took the session from `before` to `after`:
   * the current variant emits the payload on `event` and then under
   * `event:<camelName>`, the legacy one only under its name; a non-string
   * `event` throws before anything is emitted.
   */
  ghost predicate EventHandled(variant: Variant, fields: seq<Field>, before: Snapshot, after: Snapshot, threw: bool) {
    && (threw <==> EventName(fields).None?)
    && (threw ==> after == before)
    && (!threw ==>
          var name := EventName(fields).value;
          var payload := J(JObj(Without(fields, "event")));
          after == before.(trace := before.trace
            + (if variant == Current then [Emitted("event", [J(JStr(name)), payload])] else [])
            + [Emitted(name, [payload])]))
  }

  /**
   * The response for pending call `id` took the session from `before` to
   * `after`: the entry leaves the table; a null `error` then throws;
   * otherwise the call is settled, the warning logged, and a `core.describe`
   * call goes on to build the API.
   */
  ghost predicate Responded(variant: Variant, id: nat, fields: seq<Field>, before: Snapshot, after: Snapshot, threw: bool) {
    var dequeued := before.(pending := Remove(before.pending, id), describeIds := before.describeIds - {id});
    && (threw <==> !HasKey(fields, "result") && Lookup(fields, "error") == Some(JNull))
    && (threw ==> after == dequeued)
    && (!threw ==>
          var o := Settle(fields);
          var settled := dequeued.(outcomes := before.outcomes[id := o], trace := before.trace + SettleLog(fields));
          var effect := DescribeEffect(variant, before.api, o);
          after == if id in before.describeIds then settled.(api := effect.0, trace := settled.trace + effect.1) else settled)
  }

  /** `_handleResponse` on a response with these fields: unknown ids are only logged. */
  ghost predicate ResponseHandled(variant: Variant, fields: seq<Field>, before: Snapshot, after: Snapshot, threw: bool) {
    && HasKey(fields, "id")
    && var key := ResponseKey(Lookup(fields, "id").value);
       if key.None? || key.value !in before.pending then
         !threw && after == before.(trace := before.trace + [Warned("Unexpected response received. Message was:", [J(JObj(fields))])])
       else Responded(variant, key.value, fields, before, after, threw)
  }

  class Session {
    const variant: Variant
    const settings: Settings
    const ids: IdCounter

    /** The clock, in ms: the time the last timer fired or the environment moved it to. */
    var now: int
    var backoffDelay: int
    /** Reconnect cycles announced since the delay was last reset. */
    ghost var cycles: nat
    /** The ids of `_pendingRequests`, in its key order. */
    var pending: seq<nat>
    /** How each settled call's promise was settled. */
    var outcomes: map<nat, Outcome>
    /** The pending calls `_getApiSpec` made; their settlement drives `_createApi`. */
    var describeIds: set<nat>
    var socket: Socket?
    var registry: Registry
    /** Everything emitted and warned, in call order. */
    var trace: seq<Signal>
    var timers: seq<Timer>
    /** The materialized API, under its own root. */
    var api: Tree

    ghost function State(): Snapshot
      reads this
    {
      Snapshot(now, backoffDelay, cycles, pending, outcomes, describeIds, socket, registry, trace, timers, api)
    }

    ghost predicate Valid()
      reads this, ids
    {
      && TableValid(pending, outcomes, describeIds, ids.count)
      && InternalOnce(registry)
      && TimersValid(timers, now)
      && backoffDelay == DelayAfter(settings.backoffDelayMin, settings.backoffDelayMax, cycles)
    }

    /** The constructor: configure, start at the minimum delay, register the internal handlers, connect unless told not to. */
    constructor (variant: Variant, options: Options, env: Option<Location>, ids: IdCounter, now: int)
      modifies ids
      ensures Valid()
      ensures this.variant == variant && this.settings == Configure(variant, options, env) && this.ids == ids
      ensures this.now == now && backoffDelay == settings.backoffDelayMin
      ensures pending == [] && outcomes == map[] && describeIds == {} && timers == [] && api == map[]
      ensures registry == DelegateEvents(map[])
      ensures trace == ConfigureLog(variant, options)
      ensures !settings.autoConnect ==> socket == null
      ensures settings.autoConnect && settings.webSocket.Some? ==> socket == settings.webSocket.value
      ensures settings.autoConnect && settings.webSocket.None? ==>
                fresh(socket) && socket.url == settings.webSocketUrl && socket.readyState == Connecting && socket.sent == []
      ensures ids.count == old(ids.count)
    {
      var s := Configure(variant, options, env);
      this.variant := variant;
      this.settings := s;
      this.ids := ids;
      this.now := now;
      backoffDelay := s.backoffDelayMin;
      cycles := 0;
      pending := [];
      outcomes := map[];
      describeIds := {};
      socket := null;
      registry := DelegateEvents(map[]);
      trace := ConfigureLog(variant, options);
      timers := [];
      api := map[];
      new;
      DelegateEventsInternalOnce(map[]);
      if s.autoConnect {
        Connect();
      }
    }

    /**
     * `connect()`: nothing while the current socket is OPEN; otherwise close
     * it, if there is one, and take the configured socket object or a new
     * one for the configured URL.
     */
    method Connect()
      requires Valid()
      modifies this, socket
      ensures Valid() && State() == old(State()).(socket := socket)
      ensures old(socket) != null && old(socket.readyState) == Open ==> socket == old(socket) && unchanged(socket)
      ensures old(socket) != null && old(socket.readyState) != Open ==>
                && old(socket).closeCalls == old(socket.closeCalls) + 1
                && old(socket).sent == old(socket.sent)
      ensures old(socket) != null && old(socket.readyState) != Open ==>
                old(socket).readyState == if old(socket.readyState) == Closed then Closed else Closing
      ensures !(old(socket) != null && old(socket.readyState) == Open) ==>
                && (settings.webSocket.Some? ==> socket == settings.webSocket.value)
                && (settings.webSocket.None? ==>
                      fresh(socket) && socket.url == settings.webSocketUrl && socket.readyState == Connecting && socket.sent == [])
    {
      if socket != null {
        if socket.readyState == Open {
          return;
        }
        socket.Close();
      }
      if settings.webSocket.Some? {
        socket := settings.webSocket.value;
      } else {
        socket := new Socket(settings.webSocketUrl);
      }
    }

    /**
     * `_send(message)`: on an OPEN socket, a fresh id is taken and added to
     * the table, the envelope goes out once and is emitted as
     * `websocket:outgoingMessage`; in any other state the call is rejected
     * at once and nothing changes.
     */
    method Send(req: Request) returns (reply: Reply)
      requires Valid()
      modifies this, ids, socket
      ensures Valid() && socket == old(socket)
      ensures reply.Awaiting? ==> old(socket) != null && old(socket.readyState) == Open
      ensures old(trace) <= trace
      ensures old(socket) == null ==> reply == Reply.Threw(NullAccess) && State() == old(State()) && ids.count == old(ids.count)
      ensures old(socket) != null && old(socket.readyState) != Open ==>
                && reply == Failed(SendRejection(old(socket.readyState)).value)
                && State() == old(State()) && ids.count == old(ids.count) && unchanged(socket)
      ensures old(socket) != null && old(socket.readyState) == Open ==>
                && reply == Awaiting(old(ids.count)) && ids.count == old(ids.count) + 1
                && reply.id !in old(pending) && reply.id !in old(outcomes)
                && socket.sent == old(socket.sent) + [Envelope(req, reply.id)]
                && socket.readyState == Open
                && State() == old(State()).(pending := old(pending) + [reply.id],
                                             trace := old(trace) + [Emitted("websocket:outgoingMessage", [J(Envelope(req, reply.id))])])
    {
      if socket == null {
        return Reply.Threw(NullAccess);
      }
      var rejection := SendRejection(socket.readyState);
      if rejection.Some? {
        return Failed(rejection.value);
      }
      var id := ids.Next();
      pending := pending + [id];
      socket.Transmit(Envelope(req, id));
      trace := trace + [Emitted("websocket:outgoingMessage", [J(Envelope(req, id))])];
      reply := Awaiting(id);
    }

    /** A materialized method `caller(fullName)(...args)`: check the argument shape for the calling convention, then send. */
    method Call(fullName: string, args: seq<Json>) returns (reply: Reply)
      requires Valid()
      modifies this, ids, socket
      ensures Valid() && socket == old(socket)
      ensures CallDecision(ByName(variant, settings), args).RejectCall? ==>
                && reply == Failed(CallDecision(ByName(variant, settings), args).error)
                && State() == old(State()) && ids.count == old(ids.count)
                && (socket != null ==> unchanged(socket))
      ensures CallDecision(ByName(variant, settings), args).SendParams? && reply.Awaiting? ==>
                socket != null && socket.sent == old(socket.sent) + [Envelope(Request(fullName, CallDecision(ByName(variant, settings), args).params), reply.id)]
    {
      match CallDecision(ByName(variant, settings), args)
      case RejectCall(e) =>
        reply := Failed(e);
      case SendParams(p) =>
        reply := Send(Request(fullName, p));
    }

    /**
     * The `websocket:error` event; `_handleWebSocketError` warns with the
     * error's stack, or the error itself, and throws on a null error.
     */
    method OnError(error: Json) returns (threw: bool)
      requires Valid()
      modifies this
      ensures Valid()
      ensures threw <==> Attached(registry, Handler.HandleWebSocketError) && error == JNull
      ensures State() == old(State()).(trace := old(trace) + [Emitted("websocket:error", [J(error)])]
                 + (if Attached(registry, Handler.HandleWebSocketError) && error != JNull then [Warned("WebSocket error:", [J(StackOr(error).value)])] else []))
    {
      trace := trace + [Emitted("websocket:error", [J(error)])];
      threw := false;
      if Attached(registry, Handler.HandleWebSocketError) {
        match StackOr(error)
        case None =>
          threw := true;
        case Some(v) =>
          trace := trace + [Warned("WebSocket error:", [J(v)])];
      }
    }

    /** `_resetBackoffDelay()` */
    method ResetBackoffDelay()
      requires Valid()
      modifies this
      ensures Valid() && backoffDelay == settings.backoffDelayMin
      ensures State() == old(State()).(backoffDelay := settings.backoffDelayMin, cycles := 0)
    {
      backoffDelay := settings.backoffDelayMin;
      cycles := 0;
    }

    /** `_getApiSpec()`: send `core.describe`; a rejection goes straight to the error handler. */
    method GetApiSpec() returns (reply: Reply)
      requires Valid()
      modifies this, ids, socket
      ensures Valid() && socket == old(socket)
      ensures reply.Awaiting? ==>
                && old(socket) != null && old(socket.readyState) == Open
                && reply.id == old(ids.count) && ids.count == old(ids.count) + 1
                && socket.sent == old(socket.sent) + [Envelope(Request("core.describe", None), reply.id)]
                && State() == old(State()).(pending := old(pending) + [reply.id], describeIds := old(describeIds) + {reply.id},
                     trace := old(trace) + [Emitted("websocket:outgoingMessage", [J(Envelope(Request("core.describe", None), reply.id))])])
      ensures old(socket) != null && old(socket.readyState) == Open ==> reply.Awaiting?
      ensures reply.Failed? ==>
                && old(socket) != null && reply.error == SendRejection(old(socket.readyState)).value
                && State() == old(State()).(trace := old(trace) + DescribeFailure(variant, reply.error))
      ensures reply.Threw? ==> old(socket) == null && reply.error == NullAccess && State() == old(State())
      ensures State() == old(State()).(pending := pending, describeIds := describeIds, trace := trace)
      ensures old(trace) <= trace
    {
      reply := Send(Request("core.describe", None));
      match reply
      case Awaiting(id) =>
        describeIds := describeIds + {id};
      case Failed(e) =>
        trace := trace + DescribeFailure(variant, e);
      case Threw(_) =>
    }

    /** The `websocket:open` event: the delay goes back to the minimum and the API description is requested. */
    method OnOpen() returns (threw: bool)
      requires Valid()
      modifies this, ids, socket
      ensures Valid() && socket == old(socket)
      ensures Attached(old(registry), Handler.ResetBackoffDelay) ==> backoffDelay == settings.backoffDelayMin && cycles == 0
      ensures !Attached(old(registry), Handler.ResetBackoffDelay) ==> backoffDelay == old(backoffDelay)
      ensures registry == old(registry) && timers == old(timers) && api == old(api)
      ensures |trace| > |old(trace)| && trace[|old(trace)|] == Emitted("websocket:open", [])
      ensures Attached(old(registry), Handler.GetApiSpec) && old(socket) != null && old(socket.readyState) == Open ==>
                && socket.sent == old(socket.sent) + [Envelope(Request("core.describe", None), old(ids.count))]
                && describeIds == old(describeIds) + {old(ids.count)}
      ensures !Attached(old(registry), Handler.GetApiSpec) ==> pending == old(pending) && describeIds == old(describeIds) && ids.count == old(ids.count)
    {
      trace := trace + [Emitted("websocket:open", [])];
      threw := false;
      if Attached(registry, Handler.ResetBackoffDelay) {
        ResetBackoffDelay();
      }
      if Attached(registry, Handler.GetApiSpec) {
        var reply := GetApiSpec();
        threw := reply.Threw?;
      }
    }

    /**
     * `_createApi(methods)`: install every catalog entry, in key order, then
     * announce `state:online`; a throw part-way leaves what was installed so
     * far and is handled like a failed describe call.
     */
    method CreateApi(methods: Json)
      requires Valid()
      modifies this
      ensures Valid()
      ensures CatalogEntries(methods).None? ==>
                State() == old(State()).(trace := old(trace) + DescribeFailure(variant, NullAccess))
      ensures CatalogEntries(methods).Some? ==>
                var b := Materialize(old(api), CatalogEntries(methods).value);
                State() == old(State()).(api := b.tree,
                  trace := old(trace) + if b.ok then StateSignals(variant, "state:online", []) else DescribeFailure(variant, NullAccess))
      ensures old(trace) <= trace
    {
      var entries := CatalogEntries(methods);
      if entries.None? {
        trace := trace + DescribeFailure(variant, NullAccess);
        return;
      }
      var b := InstallEach(api, entries.value);
      api := b.tree;
      if b.ok {
        trace := trace + StateSignals(variant, "state:online", []);
      } else {
        trace := trace + DescribeFailure(variant, NullAccess);
      }
    }

    /** How a settled `core.describe` call continues: a result builds the API, an error is logged. */
    method DescribeSettled(o: Outcome)
      requires Valid()
      modifies this
      ensures Valid()
      ensures State() == old(State()).(api := DescribeEffect(variant, old(api), o).0, trace := old(trace) + DescribeEffect(variant, old(api), o).1)
      ensures o.Resolved? && CatalogEntries(o.value).Some? ==>
                api == Materialize(old(api), CatalogEntries(o.value).value).tree
      ensures o.Rejected? ==> State() == old(State()).(trace := old(trace) + DescribeFailure(variant, o.error))
    {
      match o
      case Resolved(v) => CreateApi(v);
      case Rejected(e) => trace := trace + DescribeFailure(variant, e);
    }

    /**
     * `_handleResponse(response)`: an id that is not pending is only logged;
     * otherwise that entry alone leaves the table and the call is settled
     * from `result`, else `error`, else as malformed. A null `error` throws
     * when its message is read, after the entry was removed.
     */
    method HandleResponse(fields: seq<Field>) returns (threw: bool)
      requires Valid() && HasKey(fields, "id")
      modifies this
      ensures Valid()
      ensures ResponseHandled(variant, fields, old(State()), State(), threw)
      ensures old(trace) <= trace
      ensures registry == old(registry) && timers == old(timers) && socket == old(socket) && now == old(now)
      ensures backoffDelay == old(backoffDelay) && cycles == old(cycles)
    {
      threw := false;
      var key := ResponseKey(Lookup(fields, "id").value);
      if key.None? || key.value !in pending {
        trace := trace + [Warned("Unexpected response received. Message was:", [J(JObj(fields))])];
        return;
      }
      threw := Respond(key.value, fields);
    }

    /** The response to pending call `id`: the entry leaves the table, then the call is settled. */
    method Respond(id: nat, fields: seq<Field>) returns (threw: bool)
      requires Valid() && id in pending
      modifies this
      ensures Valid()
      ensures Responded(variant, id, fields, old(State()), State(), threw)
      ensures old(trace) <= trace
      ensures registry == old(registry) && timers == old(timers) && socket == old(socket) && now == old(now)
      ensures backoffDelay == old(backoffDelay) && cycles == old(cycles)
    {
      ghost var before := State();
      var wasDescribe := id in describeIds;
      Dequeue(id);
      ghost var dequeued := State();
      assert dequeued == before.(pending := Remove(before.pending, id), describeIds := before.describeIds - {id});
      if !HasKey(fields, "result") && Lookup(fields, "error") == Some(JNull) {
        return true;
      }
      var o := Settle(fields);
      Record(id, o);
      trace := trace + SettleLog(fields);
      ghost var settled := State();
      assert settled == dequeued.(outcomes := before.outcomes[id := o], trace := before.trace + SettleLog(fields));
      if wasDescribe {
        DescribeSettled(o);
      }
      threw := false;
    }

    /** `delete this._pendingRequests[id]` */
    method Dequeue(id: nat)
      requires Valid() && id in pending
      modifies this
      ensures Valid() && id !in pending && id < ids.count
      ensures State() == old(State()).(pending := Remove(old(pending), id), describeIds := old(describeIds) - {id})
    {
      ghost var before := pending;
      pending := Remove(pending, id);
      describeIds := describeIds - {id};
      forall i | 0 <= i < |pending| ensures pending[i] < ids.count && pending[i] !in outcomes {
        assert pending[i] in before;
      }
    }

    /** A call's promise settles: the outcome is recorded under its id. */
    method Record(id: nat, o: Outcome)
      requires Valid() && id !in pending && id < ids.count
      modifies this
      ensures Valid()
      ensures State() == old(State()).(outcomes := old(outcomes)[id := o])
    {
      outcomes := outcomes[id := o];
    }

    /**
     * `_handleEvent(message)`: the payload is the message without `event`;
     * the current variant emits it on `event` and then under
     * `event:<camelName>`, the legacy one only under `event:<camelName>`.
     * A non-string `event` throws before anything is emitted.
     */
    method HandleEvent(fields: seq<Field>) returns (threw: bool)
      requires Valid() && HasKey(fields, "event")
      modifies this
      ensures Valid()
      ensures EventHandled(variant, fields, old(State()), State(), threw)
      ensures pending == old(pending) && outcomes == old(outcomes) && old(trace) <= trace
      ensures registry == old(registry) && timers == old(timers) && socket == old(socket)
    {
      var name := EventName(fields);
      if name.None? {
        return true;
      }
      var payload := J(JObj(Without(fields, "event")));
      if variant == Current {
        trace := trace + [Emitted("event", [J(JStr(name.value)), payload])];
      }
      trace := trace + [Emitted(name.value, [payload])];
      threw := false;
    }

    /** `_handleMessage(message)`: route the frame; only a parse failure is caught and logged. */
    method HandleMessage(frame: Frame) returns (threw: bool)
      requires Valid()
      modifies this
      ensures Valid()
      ensures RouteFrame(frame).ParseFailure? ==> !threw && State() == old(State()).(trace := old(trace) + [Warned(ParseWarning(frame.raw), [])])
      ensures RouteFrame(frame).UnknownType? ==> !threw && State() == old(State()).(trace := old(trace) + [Warned(UnknownWarning(frame.raw), [])])
      ensures RouteFrame(frame).NullData? ==> threw && State() == old(State())
      ensures RouteFrame(frame).ToResponse? ==> ResponseHandled(variant, RouteFrame(frame).fields, old(State()), State(), threw)
      ensures RouteFrame(frame).ToEvent? ==> EventHandled(variant, RouteFrame(frame).fields, old(State()), State(), threw)
      ensures !RouteFrame(frame).ToResponse? ==> pending == old(pending) && outcomes == old(outcomes)
      ensures registry == old(registry) && timers == old(timers) && socket == old(socket)
      ensures old(trace) <= trace
    {
      threw := false;
      match RouteFrame(frame)
      case ParseFailure =>
        trace := trace + [Warned(ParseWarning(frame.raw), [])];
      case UnknownType =>
        trace := trace + [Warned(UnknownWarning(frame.raw), [])];
      case NullData =>
        threw := true;
      case ToResponse(fs) =>
        threw := HandleResponse(fs);
      case ToEvent(fs) =>
        threw := HandleEvent(fs);
    }

    /** The `websocket:incomingMessage` event. */
    method OnMessage(frame: Frame) returns (threw: bool)
      requires Valid()
      modifies this
      ensures Valid()
      ensures |trace| > |old(trace)| && trace[|old(trace)|] == Emitted("websocket:incomingMessage", [J(JObj([Field("data", JStr(frame.raw))]))])
      ensures !Attached(old(registry), Handler.HandleMessage) ==> !threw && State() == old(State()).(trace := trace)
      ensures registry == old(registry) && timers == old(timers) && socket == old(socket)
    {
      trace := trace + [Emitted("websocket:incomingMessage", [J(JObj([Field("data", JStr(frame.raw))]))])];
      threw := false;
      if Attached(registry, Handler.HandleMessage) {
        threw := HandleMessage(frame);
      }
    }

    /**
     * One reconnect cycle's announcement: `reconnectionPending` with the
     * current delay, the attempt scheduled that long from now, and the delay
     * doubled up to the maximum.
     */
    method AnnounceReconnect()
      requires Valid()
      modifies this
      ensures Valid()
      ensures old(backoffDelay) == DelayAfter(settings.backoffDelayMin, settings.backoffDelayMax, old(cycles))
      ensures State() == old(State()).(
                backoffDelay := NextDelay(old(backoffDelay), settings.backoffDelayMax),
                cycles := old(cycles) + 1,
                trace := old(trace) + StateSignals(variant, "reconnectionPending", [J(Pending(old(backoffDelay)))]),
                timers := old(timers) + [Timer(now + TimerDelay(old(backoffDelay)), Attempt)])
    {
      assert DelayAfter(settings.backoffDelayMin, settings.backoffDelayMax, cycles + 1) == NextDelay(backoffDelay, settings.backoffDelayMax);
      trace := trace + StateSignals(variant, "reconnectionPending", [J(Pending(backoffDelay))]);
      timers := timers + [Timer(now + TimerDelay(backoffDelay), Attempt)];
      backoffDelay := NextDelay(backoffDelay, settings.backoffDelayMax);
      cycles := cycles + 1;
    }

    /**
     * `_reconnect()`: the current variant defers the announcement by a 1 ms
     * timer, so that it follows the handling of `state:offline`; the legacy
     * one announces at once.
     */
    method Reconnect()
      requires Valid()
      modifies this
      ensures Valid()
      ensures variant == Current ==> State() == old(State()).(timers := old(timers) + [Timer(now + 1, Announce)])
      ensures variant == Legacy ==> State() == old(State()).(
                backoffDelay := NextDelay(old(backoffDelay), settings.backoffDelayMax),
                cycles := old(cycles) + 1,
                trace := old(trace) + [Emitted("reconnectionPending", [J(Pending(old(backoffDelay)))])],
                timers := old(timers) + [Timer(now + TimerDelay(old(backoffDelay)), Attempt)])
    {
      if variant == Current {
        timers := timers + [Timer(now + TimerDelay(1), Announce)];
      } else {
        AnnounceReconnect();
      }
    }

    /**
     * `_cleanup(closeEvent)`: every pending call, in table order, leaves the
     * table and is rejected with "WebSocket closed" carrying the close event;
     * then `state:offline` is announced (which reconnects while that handler
     * is registered). The failed describe calls are logged last, as their
     * promise handlers run after this one.
     */
    method Cleanup(closeEvent: Json)
      requires Valid()
      modifies this
      ensures Valid()
      ensures pending == [] && describeIds == {}
      ensures outcomes == RejectAll(old(outcomes), old(pending), ClosedError(closeEvent))
      ensures !Attached(old(registry), Handler.Reconnect) ==>
                State() == old(State()).(pending := [], describeIds := {}, outcomes := outcomes,
                  trace := old(trace) + StateSignals(variant, "state:offline", [])
                           + LateWarnings(variant, old(pending), old(describeIds), ClosedError(closeEvent)))
      ensures Attached(old(registry), Handler.Reconnect) && variant == Current ==>
                State() == old(State()).(pending := [], describeIds := {}, outcomes := outcomes,
                  trace := old(trace) + StateSignals(variant, "state:offline", [])
                           + LateWarnings(variant, old(pending), old(describeIds), ClosedError(closeEvent)),
                  timers := old(timers) + [Timer(now + 1, Announce)])
      ensures Attached(old(registry), Handler.Reconnect) && variant == Legacy ==>
                State() == old(State()).(pending := [], describeIds := {}, outcomes := outcomes,
                  backoffDelay := NextDelay(old(backoffDelay), settings.backoffDelayMax),
                  cycles := old(cycles) + 1,
                  trace := old(trace) + [Emitted("state:offline", []), Emitted("reconnectionPending", [J(Pending(old(backoffDelay)))])],
                  timers := old(timers) + [Timer(now + TimerDelay(old(backoffDelay)), Attempt)])
    {
      var err := ClosedError(closeEvent);
      var late := RejectPending(err);
      LateWarningsCount(variant, old(pending), old(describeIds), err);
      GoOffline(late);
    }

    /** `state:offline` is announced (reconnecting while that handler is registered), then the owed warnings are logged. */
    method GoOffline(late: seq<Signal>)
      requires Valid()
      requires variant == Legacy ==> late == []
      modifies this
      ensures Valid()
      ensures !Attached(old(registry), Handler.Reconnect) ==>
                State() == old(State()).(trace := old(trace) + StateSignals(variant, "state:offline", []) + late)
      ensures Attached(old(registry), Handler.Reconnect) && variant == Current ==>
                State() == old(State()).(trace := old(trace) + StateSignals(variant, "state:offline", []) + late,
                  timers := old(timers) + [Timer(now + 1, Announce)])
      ensures Attached(old(registry), Handler.Reconnect) && variant == Legacy ==>
                State() == old(State()).(
                  backoffDelay := NextDelay(old(backoffDelay), settings.backoffDelayMax),
                  cycles := old(cycles) + 1,
                  trace := old(trace) + [Emitted("state:offline", []), Emitted("reconnectionPending", [J(Pending(old(backoffDelay)))])],
                  timers := old(timers) + [Timer(now + TimerDelay(old(backoffDelay)), Attempt)])
    {
      var offline := StateSignals(variant, "state:offline", []);
      trace := trace + offline;
      ghost var s1 := State();
      assert s1 == old(State()).(trace := old(trace) + offline);
      if Attached(registry, Handler.Reconnect) {
        Reconnect();
      }
      ghost var s2 := State();
      trace := trace + late;
      assert State() == s2.(trace := s2.trace + late);
    }

    /** `_cleanup`'s loop: each pending call in table order leaves the table and is rejected with `err`. */
    method RejectPending(err: Error) returns (late: seq<Signal>)
      requires Valid()
      modifies this
      ensures Valid()
      ensures pending == [] && describeIds == {}
      ensures outcomes == RejectAll(old(outcomes), old(pending), err)
      ensures late == LateWarnings(variant, old(pending), old(describeIds), err)
      ensures State() == old(State()).(pending := [], outcomes := outcomes, describeIds := {})
    {
      var settled;
      settled, late := RejectEach(variant, pending, outcomes, describeIds, err);
      RejectAllSettles(outcomes, pending, err);
      assert forall k :: k in pending ==> k < ids.count;
      pending := [];
      outcomes := settled;
      describeIds := {};
    }

    /** The `websocket:close` event. */
    method OnClose(closeEvent: Json)
      requires Valid()
      modifies this
      ensures Valid()
      ensures |trace| > |old(trace)| && trace[|old(trace)|] == Emitted("websocket:close", [J(closeEvent)])
      ensures Attached(old(registry), Handler.Cleanup) ==> pending == [] && outcomes == RejectAll(old(outcomes), old(pending), ClosedError(closeEvent))
      ensures !Attached(old(registry), Handler.Reconnect) ==> timers == old(timers) && backoffDelay == old(backoffDelay)
      ensures !Attached(old(registry), Handler.Cleanup) ==> State() == old(State()).(trace := trace)
      ensures registry == old(registry) && socket == old(socket) && api == old(api)
    {
      trace := trace + [Emitted("websocket:close", [J(closeEvent)])];
      if Attached(registry, Handler.Cleanup) {
        Cleanup(closeEvent);
      }
    }

    /**
     * A timer fires. The announcement task runs one reconnect cycle; the
     * attempt announces `reconnecting` and calls `connect()`.
     */
    method FireTimer(i: nat)
      requires Valid() && IsNext(timers, i)
      modifies this, socket
      ensures Valid()
      ensures now == old(timers[i].due)
      ensures old(timers[i].task) == Announce ==>
                State() == old(State()).(now := now,
                  backoffDelay := NextDelay(old(backoffDelay), settings.backoffDelayMax),
                  cycles := old(cycles) + 1,
                  trace := old(trace) + StateSignals(variant, "reconnectionPending", [J(Pending(old(backoffDelay)))]),
                  timers := old(timers[..i] + timers[i + 1..]) + [Timer(now + TimerDelay(old(backoffDelay)), Attempt)])
      ensures old(timers[i].task) == Attempt ==>
                State() == old(State()).(now := now, socket := socket,
                  trace := old(trace) + StateSignals(variant, "reconnecting", []),
                  timers := old(timers[..i] + timers[i + 1..]))
      ensures old(timers[i].task) == Attempt && old(socket) != null && old(socket.readyState) == Open ==>
                socket == old(socket) && unchanged(socket)
      ensures old(timers[i].task) == Attempt && old(socket) != null && old(socket.readyState) != Open ==>
                && old(socket).closeCalls == old(socket.closeCalls) + 1
                && old(socket).sent == old(socket.sent)
      ensures old(timers[i].task) == Attempt && old(socket) != null && old(socket.readyState) != Open ==>
                old(socket).readyState == if old(socket.readyState) == Closed then Closed else Closing
      ensures old(timers[i].task) == Attempt && !(old(socket) != null && old(socket.readyState) == Open) ==>
                && (settings.webSocket.Some? ==> socket == settings.webSocket.value)
                && (settings.webSocket.None? ==>
                      fresh(socket) && socket.url == settings.webSocketUrl && socket.readyState == Connecting && socket.sent == [])
    {
      var t := TakeTimer(i);
      match t.task
      case Announce =>
        AnnounceReconnect();
      case Attempt =>
        trace := trace + StateSignals(variant, "reconnecting", []);
        Connect();
    }

    /** The clock moves to the due time of the next timer, which leaves the queue. */
    method TakeTimer(i: nat) returns (t: Timer)
      requires Valid() && IsNext(timers, i)
      modifies this
      ensures Valid() && t == old(timers[i])
      ensures State() == old(State()).(now := t.due, timers := old(timers[..i] + timers[i + 1..]))
    {
      t := timers[i];
      now := t.due;
      timers := timers[..i] + timers[i + 1..];
      forall j | 0 <= j < |timers| ensures timers[j].due >= now {
        if j < i { assert timers[j] == old(timers[j]); } else { assert timers[j] == old(timers[j + 1]); }
      }
    }

    /** The clock moves on to a time no later than the next timer. */
    method AdvanceClock(t: int)
      requires Valid() && now <= t && forall j :: 0 <= j < |timers| ==> t <= timers[j].due
      modifies this
      ensures Valid() && State() == old(State()).(now := t)
    {
      now := t;
    }

    /**
     * `close()`: detach the reconnect handler, then close the socket. The
     * current variant skips a missing socket; the legacy one throws on it.
     */
    method Close() returns (threw: bool)
      requires Valid()
      modifies this, socket
      ensures Valid()
      ensures !Attached(registry, Handler.Reconnect)
      ensures registry == Events.Off(old(registry), [Name(EventOf(Handler.Reconnect)), Fn(Internal(Handler.Reconnect))]).registry
      ensures State() == old(State()).(registry := registry)
      ensures threw <==> old(socket) == null && variant == Legacy
      ensures socket != null ==> socket.closeCalls == old(socket.closeCalls) + 1
                                 && socket.readyState == (if old(socket.readyState) == Closed then Closed else Closing)
                                 && socket.sent == old(socket.sent)
    {
      var args := [Name(EventOf(Handler.Reconnect)), Fn(Internal(Handler.Reconnect))];
      OffDetaches(registry, Handler.Reconnect);
      OffInternalOnce(registry, args);
      registry := Events.Off(registry, args).registry;
      threw := false;
      if socket != null {
        socket.Close();
      } else if variant == Legacy {
        threw := true;
      }
    }

    /** `on(name, listener)` for a listener of the program's own. */
    method On(name: string, id: nat)
      requires Valid()
      modifies this
      ensures Valid()
      ensures registry == Events.On(old(registry), name, User(id))
      ensures State() == old(State()).(registry := registry)
    {
      OnUserInternalOnce(registry, name, id);
      registry := Events.On(registry, name, User(id));
    }

    /** `off(...args)`: a new registry, or the error it throws with the registry untouched. */
    method Off(args: seq<OffArg>) returns (err: Option<Error>)
      requires Valid()
      modifies this
      ensures Valid()
      ensures Events.Off(old(registry), args).Done? ==> err.None? && registry == Events.Off(old(registry), args).registry
      ensures Events.Off(old(registry), args).Threw? ==> err == Some(GenericError(OffArityMessage, None)) && registry == old(registry)
      ensures Events.Off(old(registry), args).InvalidListener? ==> err == Some(TypeError(ListenerTypeMessage)) && registry == old(registry)
      ensures State() == old(State()).(registry := registry)
    {
      OffInternalOnce(registry, args);
      match Events.Off(registry, args)
      case Done(r) =>
        registry := r;
        err := None;
      case Threw(m) =>
        err := Some(GenericError(m, None));
      case InvalidListener =>
        err := Some(TypeError(ListenerTypeMessage));
    }
  }
}
