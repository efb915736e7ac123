/**
 * The structured logger: level filtering against a configured threshold,
 * metadata merging, child loggers with an extended base context, the
 * fields of one output record and the console stream it goes to.
 * Environment variables are an input (`EnvVars`); the clock is an input
 * (`timestamp`); serialising the record to JSON is not part of this model.
 */
module Logger {
  import opened Wrappers
  import opened Text
  import opened Js

  type Meta = map<string, Value>

  // ---------------------------------------------------------------------
  // Levels
  // ---------------------------------------------------------------------

  /** The level table: name and priority, most severe first. */
  const LevelNames: seq<string> := ["fatal", "error", "warn", "success", "info", "debug", "trace"]

  const DefaultPriority: nat := 4

  /** `map[level] ?? 4` looking only at the table's own keys. */
  function LevelPriority(level: string): (p: nat)
    ensures p <= 6
    ensures forall i :: 0 <= i < |LevelNames| && LevelNames[i] == level ==> p == i
    ensures level !in LevelNames ==> p == DefaultPriority
  {
    if level == "fatal" then 0
    else if level == "error" then 1
    else if level == "warn" then 2
    else if level == "success" then 3
    else if level == "info" then 4
    else if level == "debug" then 5
    else if level == "trace" then 6
    else DefaultPriority
  }

  /** Distinct level names have distinct priorities, and every priority belongs to one name. */
  lemma LevelPriorityBijective()
    ensures forall i, j :: 0 <= i < j < |LevelNames| ==> LevelPriority(LevelNames[i]) != LevelPriority(LevelNames[j])
    ensures forall p :: 0 <= p <= 6 ==> LevelPriority(LevelNames[p]) == p
  {
  }

  /** `shouldLog(msgLevel)` under the configured level. */
  predicate ShouldLog(msgLevel: string, configured: string) {
    LevelPriority(msgLevel) <= LevelPriority(configured)
  }

  /** Fatal messages always pass, trace messages only under `trace`, and unknown levels behave as `info`. */
  lemma ShouldLogFacts(msgLevel: string, configured: string)
    ensures ShouldLog("fatal", configured)
    ensures ShouldLog("trace", configured) <==> configured == "trace"
    ensures msgLevel !in LevelNames ==> (ShouldLog(msgLevel, configured) <==> ShouldLog("info", configured))
    ensures configured !in LevelNames ==> (ShouldLog(msgLevel, configured) <==> ShouldLog(msgLevel, "info"))
  {
  }

  /** Raising the threshold never silences a level that was emitted before. */
  lemma ShouldLogMonotone(msgLevel: string, lower: string, higher: string)
    requires LevelPriority(lower) <= LevelPriority(higher)
    requires ShouldLog(msgLevel, lower)
    ensures ShouldLog(msgLevel, higher)
  {
  }

  /** A more severe message passes wherever a less severe one does. */
  lemma ShouldLogSeverity(severe: string, mild: string, configured: string)
    requires LevelPriority(severe) <= LevelPriority(mild)
    requires ShouldLog(mild, configured)
    ensures ShouldLog(severe, configured)
  {
  }

  // ---------------------------------------------------------------------
  // The level lookup as written: a plain object literal also answers for
  // the names of inherited Object.prototype properties.
  // ---------------------------------------------------------------------

  /** Property names every object literal inherits from Object.prototype. */
  const InheritedNames: set<string> := {
    "constructor", "__proto__", "__defineGetter__", "__defineSetter__", "__lookupGetter__",
    "__lookupSetter__", "hasOwnProperty", "isPrototypeOf", "propertyIsEnumerable",
    "toString", "toLocaleString", "valueOf" }

  /** What `map[level] ?? 4` evaluates to: a number, or an inherited function or object. */
  datatype Lookup = Priority(p: nat) | NotANumber

  function LevelLookupAsWritten(level: string): (r: Lookup)
    ensures level in InheritedNames ==> r == NotANumber
    ensures level !in InheritedNames ==> r == Priority(LevelPriority(level))
  {
    if level in InheritedNames then NotANumber else Priority(LevelPriority(level))
  }

  /** `levelPriority(msgLevel) <= levelPriority(level)`: any comparison with NaN is false. */
  predicate ShouldLogAsWritten(msgLevel: string, configured: string) {
    match (LevelLookupAsWritten(msgLevel), LevelLookupAsWritten(configured))
    case (Priority(a), Priority(b)) => a <= b
    case _ => false
  }

  /** Away from the inherited names the code as written decides as the own-key table does. */
  lemma AsWrittenAgrees(msgLevel: string, configured: string)
    requires msgLevel !in InheritedNames && configured !in InheritedNames
    ensures ShouldLogAsWritten(msgLevel, configured) == ShouldLog(msgLevel, configured)
  {
  }

  /** With `LOG_LEVEL=constructor` (already lower case) not even a fatal message is emitted. */
  lemma FatalSilencedAsWritten()
    ensures !ShouldLogAsWritten("fatal", "constructor")
    ensures ShouldLog("fatal", "constructor")
  {
    assert "constructor" in InheritedNames;
  }

  // ---------------------------------------------------------------------
  // Configuration
  // ---------------------------------------------------------------------

  /** `LoggerOptions` */
  datatype Options = Options(
    level: Option<string>,
    service: Option<string>,
    ddsource: Option<string>,
    environment: Option<string>)

  /** The environment variables the logger reads. */
  datatype EnvVars = EnvVars(
    logLevel: Option<string>,
    serviceName: Option<string>,
    ddSource: Option<string>,
    environment: Option<string>)

  predicate Present(s: Option<string>) { s.Some? && s.value != [] }

  /** `a || b` over optional strings (the empty string counts as missing). */
  function FirstPresent(a: Option<string>, b: Option<string>): (r: Option<string>)
    ensures Present(a) ==> r == a
    ensures !Present(a) && Present(b) ==> r == b
    ensures !Present(a) && !Present(b) ==> !Present(r)
  {
    if Present(a) then a else if Present(b) then b else None
  }

  /** A logger: the options it was created with, the environment it saw and its base context. */
  datatype Log = Log(opts: Options, env: EnvVars, baseContext: Meta)

  /** `createLogger(opts, context)`; the base context is a copy of the given one. */
  function CreateLogger(opts: Options, env: EnvVars, context: Meta): (lg: Log)
    ensures lg.baseContext == context
  {
    Log(opts, env, context)
  }

  /** `(opts.level || process.env.LOG_LEVEL || 'info').toLowerCase()` */
  function Level(lg: Log): (level: string)
    ensures Present(lg.opts.level) ==> level == ToLower(lg.opts.level.value)
    ensures !Present(lg.opts.level) && Present(lg.env.logLevel) ==> level == ToLower(lg.env.logLevel.value)
    ensures !Present(lg.opts.level) && !Present(lg.env.logLevel) ==> level == "info"
  {
    var chosen := FirstPresent(lg.opts.level, lg.env.logLevel);
    ToLowerIdentity("info");
    ToLower(if Present(chosen) then chosen.value else "info")
  }

  /** `opts.service || process.env.SERVICE_NAME || undefined` */
  function Service(lg: Log): Option<string> {
    FirstPresent(lg.opts.service, lg.env.serviceName)
  }

  /** `opts.ddsource || process.env.DD_SOURCE || undefined` */
  function DdSource(lg: Log): Option<string> {
    FirstPresent(lg.opts.ddsource, lg.env.ddSource)
  }

  /** `opts.environment || process.env.ENVIRONMENT || 'local'` */
  function Environment(lg: Log): (e: string)
    ensures e != []
    ensures Present(lg.opts.environment) ==> e == lg.opts.environment.value
    ensures !Present(lg.opts.environment) && Present(lg.env.environment) ==> e == lg.env.environment.value
    ensures !Present(lg.opts.environment) && !Present(lg.env.environment) ==> e == "local"
  {
    var chosen := FirstPresent(lg.opts.environment, lg.env.environment);
    if Present(chosen) then chosen.value else "local"
  }

  // ---------------------------------------------------------------------
  // Metadata
  // ---------------------------------------------------------------------

  /** `{ ...(base || {}), ...(extra || {}) }`; a missing argument counts as the empty object. */
  function MergeMeta(base: Option<Meta>, extra: Option<Meta>): (r: Meta)
    ensures r.Keys == base.GetOr(map[]).Keys + extra.GetOr(map[]).Keys
    ensures forall k :: k in extra.GetOr(map[]) ==> r[k] == extra.GetOr(map[])[k]
    ensures forall k :: k in base.GetOr(map[]) && k !in extra.GetOr(map[]) ==> r[k] == base.GetOr(map[])[k]
  {
    base.GetOr(map[]) + extra.GetOr(map[])
  }

  /** The empty object is a unit on both sides. */
  lemma MergeMetaUnit(a: Meta)
    ensures MergeMeta(None, Some(a)) == a && MergeMeta(Some(a), None) == a
  {
  }

  /** Merging is associative, so a chain of child contexts is one merge. */
  lemma MergeMetaAssoc(a: Meta, b: Meta, c: Meta)
    ensures MergeMeta(Some(MergeMeta(Some(a), Some(b))), Some(c)) == MergeMeta(Some(a), Some(MergeMeta(Some(b), Some(c))))
  {
    assert (a + b) + c == a + (b + c);
  }

  /** `logger.child(ctx)`: a new logger built from the same options over the merged context. */
  function Child(lg: Log, envNow: EnvVars, ctx: Meta): (c: Log)
    ensures c.baseContext == MergeMeta(Some(lg.baseContext), Some(ctx))
  {
    CreateLogger(lg.opts, envNow, MergeMeta(Some(lg.baseContext), Some(ctx)))
  }

  /**
   * A child created while the environment is unchanged keeps the parent's
   * level, service, source and environment, and the parent itself is a value
   * the call does not touch; a grandchild's context is the merge of both.
   */
  lemma ChildKeepsSettings(lg: Log, ctx: Meta, ctx2: Meta)
    ensures var c := Child(lg, lg.env, ctx);
      && Level(c) == Level(lg) && Service(c) == Service(lg) && DdSource(c) == DdSource(lg)
      && Environment(c) == Environment(lg)
      && (forall k :: k in ctx ==> c.baseContext[k] == ctx[k])
      && (forall k :: k in lg.baseContext && k !in ctx ==> c.baseContext[k] == lg.baseContext[k])
    ensures Child(Child(lg, lg.env, ctx), lg.env, ctx2) == Child(lg, lg.env, MergeMeta(Some(ctx), Some(ctx2)))
  {
    MergeMetaAssoc(lg.baseContext, ctx, ctx2);
  }

  // ---------------------------------------------------------------------
  // Output
  // ---------------------------------------------------------------------

  /**
   * The record `formatOutput` serialises; an absent option is a property the
   * record does not have.
   */
  datatype Record = Record(
    timestamp: string,
    level: string,
    message: Value,
    service: Option<string>,
    ddsource: Option<string>,
    ddtags: string,
    meta: Option<Meta>)

  /** `formatOutput(msgLevel, message, meta)` before serialisation. */
  function FormatOutput(lg: Log, timestamp: string, msgLevel: string, message: Value, meta: Option<Meta>): (out: Record)
    ensures out.timestamp == timestamp && out.level == msgLevel && out.message == message
    ensures out.service == Service(lg) && out.ddsource == DdSource(lg)
    ensures out.service.Some? ==> out.service.value != []
    ensures out.meta.Some? <==> meta.Some? && meta.value != map[]
    ensures out.meta.Some? ==> out.meta == meta
    ensures out.ddtags == "env:" + Environment(lg)
  {
    Record(timestamp, msgLevel, message, Service(lg), DdSource(lg), "env:" + Environment(lg),
      if meta.Some? && meta.value != map[] then meta else None)
  }

  /** The console streams. */
  datatype Stream = ErrorStream | WarnStream | LogStream

  /** `console.error` for fatal and error, `console.warn` for warn, `console.log` for the rest. */
  function StreamFor(level: string): (s: Stream)
    ensures s == ErrorStream <==> level == "fatal" || level == "error"
    ensures s == WarnStream <==> level == "warn"
  {
    if level in ["fatal", "error"] then ErrorStream
    else if level == "warn" then WarnStream
    else LogStream
  }

  /** One line written to one stream. */
  datatype Emission = Emission(stream: Stream, record: Record)

  /** `log(level, message, meta)`: nothing when filtered out, otherwise the record and its stream. */
  function Emit(lg: Log, timestamp: string, level: string, message: Value, meta: Option<Meta>): (r: Option<Emission>)
    ensures r.None? <==> !ShouldLog(level, Level(lg))
    ensures r.Some? ==> r.value.stream == StreamFor(level)
  {
    if !ShouldLog(level, Level(lg)) then None
    else
      var merged := MergeMeta(Some(lg.baseContext), meta);
      Some(Emission(StreamFor(level), FormatOutput(lg, timestamp, level, message, Some(merged))))
  }

  /** The record carries the base context overridden by the call's metadata, and `meta` only when that merge is non-empty. */
  lemma EmitRecord(lg: Log, timestamp: string, level: string, message: Value, meta: Option<Meta>)
    requires ShouldLog(level, Level(lg))
    ensures var rec := Emit(lg, timestamp, level, message, meta).value.record;
      && rec.level == level
      && (rec.meta.Some? <==> lg.baseContext != map[] || (meta.Some? && meta.value != map[]))
      && (rec.meta.Some? ==> rec.meta.value == MergeMeta(Some(lg.baseContext), meta))
  {
    MergeEmpty(lg.baseContext, meta.GetOr(map[]));
  }

  /** A merge is empty only when both sides are. */
  lemma MergeEmpty(a: Meta, b: Meta)
    ensures a + b == map[] <==> a == map[] && b == map[]
  {
    if a != map[] {
      var k :| k in a;
      assert k in a + b;
    }
    if b != map[] {
      var k :| k in b;
      assert k in a + b;
    }
  }
}
