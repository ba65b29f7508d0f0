/**
 * The listener registry the session inherits from its event emitter, at the
 * level the session engine relies on: which listeners are registered under
 * which name, the internal handlers `_delegateEvents` installs, and the
 * argument-count dispatch of `off`.
 */
module Events {
  import opened Wrappers
  import opened Json
  import Decimal

  /** The session's own listeners, installed by `_delegateEvents`. */
  datatype Handler = Cleanup | HandleWebSocketError | HandleMessage | ResetBackoffDelay | GetApiSpec | Reconnect

  datatype Listener = Internal(handler: Handler) | User(id: nat)

  type Registry = map<string, seq<Listener>>

  function Listeners(r: Registry, name: string): seq<Listener> {
    if name in r then r[name] else []
  }

  /** Two registries with the same listeners under every name. */
  ghost predicate SameListeners(a: Registry, b: Registry) {
    forall n :: Listeners(a, n) == Listeners(b, n)
  }

  /** The event each internal handler listens to. */
  function EventOf(h: Handler): string {
    match h
    case Cleanup => "websocket:close"
    case HandleWebSocketError => "websocket:error"
    case HandleMessage => "websocket:incomingMessage"
    case ResetBackoffDelay => "websocket:open"
    case GetApiSpec => "websocket:open"
    case Reconnect => "state:offline"
  }

  predicate Attached(r: Registry, h: Handler) {
    Internal(h) in Listeners(r, EventOf(h))
  }

  /** `on(name, l)`: listeners run in the order they were added. */
  function On(r: Registry, name: string, l: Listener): (r': Registry)
    ensures Listeners(r', name) == Listeners(r, name) + [l]
    ensures forall n :: n != name ==> Listeners(r', n) == Listeners(r, n)
  {
    r[name := Listeners(r, name) + [l]]
  }

  /** The position of the most recently added instance of `l`. */
  function LastIndex(s: seq<Listener>, l: Listener): (k: nat)
    requires l in s
    ensures k < |s| && s[k] == l && l !in s[k + 1..]
    decreases |s|
  {
    if s[|s| - 1] == l then |s| - 1
    else
      assert s == s[..|s| - 1] + [s[|s| - 1]];
      var k := LastIndex(s[..|s| - 1], l);
      assert s[k + 1..] == s[..|s| - 1][k + 1..] + [s[|s| - 1]];
      k
  }

  /** EventEmitter's `removeListener`: drops the most recently added instance of `l`, the others keep their order. */
  function RemoveLast(s: seq<Listener>, l: Listener): (t: seq<Listener>)
    ensures l in s ==> t == s[..LastIndex(s, l)] + s[LastIndex(s, l) + 1..]
    ensures l in s ==> multiset(t) == multiset(s) - multiset{l}
    ensures l !in s ==> t == s
  {
    if l !in s then s
    else
      var k := LastIndex(s, l);
      assert s == s[..k] + [s[k]] + s[k + 1..];
      s[..k] + s[k + 1..]
  }

  /** The five names whose listeners `_delegateEvents` replaces. */
  predicate DelegatedName(n: string) {
    n == "websocket:close" || n == "websocket:error" || n == "websocket:incomingMessage"
    || n == "websocket:open" || n == "state:offline"
  }

  /** Listeners added by `_delegateEvents`, after it first removed every listener of those five names. */
  function DelegateEvents(r: Registry): (r': Registry)
    ensures forall n :: n in r' <==> n in r || DelegatedName(n)
    ensures forall n, l :: DelegatedName(n) && l in Listeners(r', n) ==> l.Internal?
  {
    r["websocket:close" := [Internal(Cleanup)]]
     ["websocket:error" := [Internal(HandleWebSocketError)]]
     ["websocket:incomingMessage" := [Internal(HandleMessage)]]
     ["websocket:open" := [Internal(ResetBackoffDelay), Internal(GetApiSpec)]]
     ["state:offline" := [Internal(Reconnect)]]
  }

  /**
   * After `_delegateEvents` every internal handler is registered, alone under
   * its event except the two `websocket:open` handlers, in that order; the
   * listeners of every other name are kept.
   */
  lemma DelegateEventsRegisters(r: Registry)
    ensures forall h :: Attached(DelegateEvents(r), h)
    ensures Listeners(DelegateEvents(r), "websocket:open") == [Internal(ResetBackoffDelay), Internal(GetApiSpec)]
    ensures forall h :: h != ResetBackoffDelay && h != GetApiSpec ==> Listeners(DelegateEvents(r), EventOf(h)) == [Internal(h)]
    ensures forall n :: !DelegatedName(n) ==> Listeners(DelegateEvents(r), n) == Listeners(r, n)
  {
  }

  datatype OffArg = Name(name: string) | Fn(listener: Listener) | Other(value: Json)

  /** What `off(...)` does: a new registry, or the error it throws. */
  datatype OffResult = Done(registry: Registry) | Threw(message: string) | InvalidListener

  /** `typeof arg === "string"`, however the string was passed. */
  predicate IsString(a: OffArg) {
    a.Name? || (a.Other? && a.value.JStr?)
  }

  function StringOf(a: OffArg): string
    requires IsString(a)
  {
    if a.Name? then a.name else a.value.s
  }

  const OffArityMessage := "Expected no arguments, a string, or a string and a listener."

  /**
   * `off()` removes every listener, `off(name)` every listener of `name`,
   * `off(name, listener)` one instance of `listener`; any other arity, or a
   * single argument that is not a string, throws.
   */
  function Off(r: Registry, args: seq<OffArg>): (o: OffResult)
    ensures o.Threw? <==> (|args| == 1 && !IsString(args[0])) || |args| > 2
    ensures o.InvalidListener? <==> |args| == 2 && !args[1].Fn?
  {
    if |args| == 0 then Done(map[])
    else if |args| == 1 then
      if IsString(args[0]) then Done(r - {StringOf(args[0])}) else Threw(OffArityMessage)
    else if |args| == 2 then
      if !args[1].Fn? then InvalidListener
      else
        match EventKey(args[0])
        case Some(k) => if k in r then Done(r[k := RemoveLast(r[k], args[1].listener)]) else Done(r)
        case None => Done(r)
    else Threw(OffArityMessage)
  }

  /**
   * The property key `removeListener` looks its event name up under: a string
   * is its own key, and `String` converts a number, a boolean, null or a
   * plain object. An array's or a function's conversion is not modelled, and
   * such a name is given no key.
   */
  function EventKey(a: OffArg): (k: Option<string>)
    ensures IsString(a) ==> k == Some(StringOf(a))
    ensures k.None? <==> a.Fn? || (a.Other? && a.value.JArr?)
    ensures a.Other? && a.value.JNum? && a.value.n >= 0 ==> Decimal.ParseNat(k.value) == Some(a.value.n)
    ensures a.Other? && a.value.JNum? && a.value.n < 0 ==> k.value != [] && k.value[0] == '-' && Decimal.ParseNat(k.value[1..]) == Some(-a.value.n)
  {
    match a
    case Name(n) => Some(n)
    case Fn(_) => None
    case Other(v) =>
      match v
      case JNull => Some("null")
      case JBool(b) => Some(if b then "true" else "false")
      case JNum(n) =>
        var m: nat := if n < 0 then -n else n;
        Decimal.ParseNatCorrect(Decimal.NatToString(m), m);
        Some(if n < 0 then "-" + Decimal.NatToString(m) else Decimal.NatToString(m))
      case JStr(s) => Some(s)
      case JObj(_) => Some("[object Object]")
      case JArr(_) => None
  }

  /** `off` never adds a listener: under every name it keeps some of the listeners there were. */
  lemma OffNeverAdds(r: Registry, args: seq<OffArg>)
    ensures Off(r, args).Done? ==> forall n :: multiset(Listeners(Off(r, args).registry, n)) <= multiset(Listeners(r, n))
  {
    if |args| == 2 && args[1].Fn? && EventKey(args[0]).Some? && EventKey(args[0]).value in r {
      var n0 := EventKey(args[0]).value;
      var l := args[1].listener;
      var t := RemoveLast(r[n0], l);
      assert multiset(t) <= multiset(r[n0]);
    }
  }

  /** off's argument dispatch, case by case. */
  lemma OffDispatch(r: Registry, args: seq<OffArg>)
    ensures |args| == 0 ==> Off(r, args).Done? && forall n :: Listeners(Off(r, args).registry, n) == []
    ensures |args| == 1 && IsString(args[0]) ==>
              && Off(r, args).Done?
              && Listeners(Off(r, args).registry, StringOf(args[0])) == []
              && forall n :: n != StringOf(args[0]) ==> Listeners(Off(r, args).registry, n) == Listeners(r, n)
    ensures (|args| == 1 && !IsString(args[0])) || |args| > 2 ==> Off(r, args) == Threw(OffArityMessage)
    ensures |args| == 2 && IsString(args[0]) && args[1].Fn? ==>
              && Off(r, args).Done?
              && forall n :: n != StringOf(args[0]) ==> Listeners(Off(r, args).registry, n) == Listeners(r, n)
    ensures |args| == 2 && args[1].Fn? && EventKey(args[0]).Some? ==>
              && Off(r, args).Done?
              && Listeners(Off(r, args).registry, EventKey(args[0]).value) == RemoveLast(Listeners(r, EventKey(args[0]).value), args[1].listener)
              && forall n :: n != EventKey(args[0]).value ==> Listeners(Off(r, args).registry, n) == Listeners(r, n)
    ensures |args| == 2 && args[1].Fn? && EventKey(args[0]).None? ==> Off(r, args) == Done(r)
  {
  }

  /** `off(5, l)` removes `l` from the listeners of "5", as `on("5", l)` put it there. */
  lemma OffNumberName(l: Listener)
    ensures Off(On(map[], "5", l), [Other(JNum(5)), Fn(l)]).Done?
    ensures Listeners(Off(On(map[], "5", l), [Other(JNum(5)), Fn(l)]).registry, "5") == []
  {
    assert EventKey(Other(JNum(5))) == Some("5");
  }

  /** `off("x")` clears "x" however the string `"x"` is passed. */
  lemma OffStringValue(l: Listener)
    ensures Off(map["x" := [l]], [Other(JStr("x"))]) == Off(map["x" := [l]], [Name("x")])
    ensures Off(map["x" := [l]], [Other(JStr("x"))]).Done?
    ensures Listeners(Off(map["x" := [l]], [Other(JStr("x"))]).registry, "x") == []
  {
    assert map["x" := [l]] - {"x"} == map[];
  }

  lemma RemoveLastAppended(s: seq<Listener>, l: Listener)
    ensures RemoveLast(s + [l], l) == s
  {
    assert (s + [l])[..|s|] == s;
  }

  lemma OffOne(r: Registry, name: string, l: Listener)
    requires name in r
    ensures Off(r, [Name(name), Fn(l)]) == Done(r[name := RemoveLast(r[name], l)])
  {
  }

  /** Removing a listener right after adding it restores every name's listeners. */
  lemma OffUndoesOn(r: Registry, name: string, l: Listener)
    ensures Off(On(r, name, l), [Name(name), Fn(l)]).Done?
    ensures SameListeners(Off(On(r, name, l), [Name(name), Fn(l)]).registry, r)
  {
    var r1 := On(r, name, l);
    var r2 := r1[name := Listeners(r, name)];
    assert Off(r1, [Name(name), Fn(l)]) == Done(r2) by {
      assert name in r1 && r1[name] == Listeners(r, name) + [l];
      RemoveLastAppended(Listeners(r, name), l);
      OffOne(r1, name, l);
    }
    forall n ensures Listeners(r2, n) == Listeners(r, n) {
      if n != name {
        assert Listeners(r1, n) == Listeners(r, n);
      }
    }
  }

  /** Each internal handler is registered at most once under each name. */
  ghost predicate InternalOnce(r: Registry) {
    forall n, h :: n in r ==> multiset(r[n])[Internal(h)] <= 1
  }

  lemma DelegateEventsInternalOnce(r: Registry)
    requires InternalOnce(r)
    ensures InternalOnce(DelegateEvents(r))
  {
  }

  lemma OnUserInternalOnce(r: Registry, name: string, id: nat)
    requires InternalOnce(r)
    ensures InternalOnce(On(r, name, User(id)))
  {
    var r' := On(r, name, User(id));
    forall n, h | n in r' ensures multiset(r'[n])[Internal(h)] <= 1 {
      if n == name {
        assert multiset(r'[n]) == multiset(Listeners(r, name)) + multiset{User(id)};
      }
    }
  }

  lemma OffInternalOnce(r: Registry, args: seq<OffArg>)
    requires InternalOnce(r)
    ensures Off(r, args).Done? ==> InternalOnce(Off(r, args).registry)
  {
  }

  /** With at most one copy registered, `off(name, listener)` leaves none. */
  lemma OffDetaches(r: Registry, h: Handler)
    requires InternalOnce(r)
    ensures Off(r, [Name(EventOf(h)), Fn(Internal(h))]).Done?
    ensures !Attached(Off(r, [Name(EventOf(h)), Fn(Internal(h))]).registry, h)
  {
    var n := EventOf(h);
    if n in r && Internal(h) in r[n] {
      var t := RemoveLast(r[n], Internal(h));
      assert multiset(t)[Internal(h)] == 0;
    }
  }
}
