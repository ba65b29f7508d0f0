/**
 * `_configure`: the settings a session runs with, filled in from the options
 * it was given, in the current (src/mopidy.ts) and the legacy (src/mopidy.js)
 * variant.
 */
module Config {
  import opened Wrappers
  import opened Json
  import opened Protocol
  import Transport

  /** Which of the two engines: src/mopidy.ts or src/mopidy.js. */
  datatype Variant = Current | Legacy

  /** `document.location`, when there is a document. */
  datatype Location = Location(protocol: string, host: string)

  /**
   * The options a session is constructed with; an absent field is `None`.
   * `autoConnect` is any JSON value, since only the value `false` turns it off.
   */
  datatype Options = Options(
    webSocketUrl: Option<string>,
    autoConnect: Option<Json>,
    backoffDelayMin: Option<int>,
    backoffDelayMax: Option<int>,
    callingConvention: Option<string>,
    webSocket: Option<Transport.Socket>)

  datatype Settings = Settings(
    webSocketUrl: string,
    autoConnect: bool,
    backoffDelayMin: int,
    backoffDelayMax: int,
    callingConvention: Option<string>,
    webSocket: Option<Transport.Socket>)

  const DefaultDelayMin := 1000
  const DefaultDelayMax := 64000
  const DefaultConvention := "by-position-only"
  const ByNameConvention := "by-position-or-by-name"
  const ConventionWarning := "Mopidy.js is using the default calling convention. The default will change in the future. You should explicitly specify which calling convention you use."

  /** `${protocol}${currentHost}/mopidy/ws` */
  function DefaultUrl(env: Option<Location>): (u: string)
    ensures |u| >= 16
    ensures env.Some? && env.value.protocol == "https:" ==> u[..6] == "wss://"
    ensures !(env.Some? && env.value.protocol == "https:") ==> u[..5] == "ws://"
    ensures env.None? || env.value.host == "" ==> u == (if env.Some? && env.value.protocol == "https:" then "wss://" else "ws://") + "localhost/mopidy/ws"
    ensures env.Some? && env.value.host != "" ==> u == (if env.value.protocol == "https:" then "wss://" else "ws://") + env.value.host + "/mopidy/ws"
    ensures u[|u| - 10..] == "/mopidy/ws"
  {
    var protocol := if env.Some? && env.value.protocol == "https:" then "wss://" else "ws://";
    var host := if env.Some? && env.value.host != "" then env.value.host else "localhost";
    protocol + host + "/mopidy/ws"
  }

  /** `x || default` for a number option: absent and 0 are falsy. */
  function OrDefault(x: Option<int>, default: int): (r: int)
    ensures x.Some? && x.value != 0 ==> r == x.value
    ensures x.None? || x.value == 0 ==> r == default
  {
    if x.Some? && x.value != 0 then x.value else default
  }

  function Configure(variant: Variant, o: Options, env: Option<Location>): (s: Settings)
    ensures s.webSocketUrl == if o.webSocketUrl.Some? && o.webSocketUrl.value != "" then o.webSocketUrl.value else DefaultUrl(env)
    ensures s.autoConnect <==> o.autoConnect != Some(JBool(false))
    ensures s.backoffDelayMin == if o.backoffDelayMin.Some? && o.backoffDelayMin.value != 0 then o.backoffDelayMin.value else DefaultDelayMin
    ensures s.backoffDelayMax == if o.backoffDelayMax.Some? && o.backoffDelayMax.value != 0 then o.backoffDelayMax.value else DefaultDelayMax
    ensures variant == Legacy ==> s.callingConvention == Some(if o.callingConvention.Some? && o.callingConvention.value != "" then o.callingConvention.value else DefaultConvention)
    ensures variant == Current ==> s.callingConvention == o.callingConvention
    ensures s.webSocket == o.webSocket
    ensures s.webSocketUrl != "" && s.backoffDelayMin != 0 && s.backoffDelayMax != 0
  {
    Settings(
      if o.webSocketUrl.Some? && o.webSocketUrl.value != "" then o.webSocketUrl.value else DefaultUrl(env),
      o.autoConnect != Some(JBool(false)),
      OrDefault(o.backoffDelayMin, DefaultDelayMin),
      OrDefault(o.backoffDelayMax, DefaultDelayMax),
      match variant
      case Current => o.callingConvention
      case Legacy => Some(if o.callingConvention.Some? && o.callingConvention.value != "" then o.callingConvention.value else DefaultConvention),
      o.webSocket)
  }

  /** The warning the legacy `_configure` logs: only when no calling convention was given at all. */
  function ConfigureLog(variant: Variant, o: Options): (w: seq<Signal>)
    ensures w != [] <==> variant == Legacy && o.callingConvention.None?
  {
    if variant == Legacy && o.callingConvention.None? then [Warned(ConventionWarning, [])] else []
  }

  /** The settings, given back as options. */
  function AsOptions(s: Settings): Options {
    Options(Some(s.webSocketUrl), Some(JBool(s.autoConnect)), Some(s.backoffDelayMin), Some(s.backoffDelayMax),
            s.callingConvention, s.webSocket)
  }

  /** Configuring is idempotent: configured settings configure to themselves, and in any environment. */
  lemma ConfigureIdempotent(variant: Variant, o: Options, env: Option<Location>, env': Option<Location>)
    ensures Configure(variant, AsOptions(Configure(variant, o, env)), env') == Configure(variant, o, env)
    ensures variant == Legacy ==> ConfigureLog(variant, AsOptions(Configure(variant, o, env))) == []
  {
  }

  /** Whether the materialized methods accept a single array or object as the params (by name), rather than only positional arguments. */
  function ByName(variant: Variant, s: Settings): bool {
    variant == Current || s.callingConvention == Some(ByNameConvention)
  }

  /**
   * The convention the materialized methods follow, from the options: the
   * current engine always accepts params by name; the legacy one only when
   * "by-position-or-by-name" was asked for, so that a single array or object
   * is then sent as the params themselves and otherwise wrapped as one
   * positional argument.
   */
  lemma ByNameOfOptions(variant: Variant, o: Options, env: Option<Location>, arg: Json)
    requires Structured(arg)
    ensures ByName(variant, Configure(variant, o, env)) <==> variant == Current || o.callingConvention == Some(ByNameConvention)
    ensures CallDecision(ByName(variant, Configure(variant, o, env)), [arg]) ==
              if variant == Current || o.callingConvention == Some(ByNameConvention) then SendParams(Some(arg))
              else SendParams(Some(JArr([arg])))
  {
  }

  /** Under the legacy default convention every argument list is sent as positional params, unchecked. */
  lemma LegacyDefaultIsPositional(o: Options, env: Option<Location>, name: string, args: seq<Json>)
    requires o.callingConvention.None? || o.callingConvention == Some("")
    requires |args| > 0
    ensures !ByName(Legacy, Configure(Legacy, o, env))
    ensures CallDecision(ByName(Legacy, Configure(Legacy, o, env)), args) == SendParams(Some(JArr(args)))
  {
  }
}
