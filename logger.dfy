/**
 * The shared console logger: level filtering, merging of bindings from the
 * core logger, its children and the call site, the one-line pretty format,
 * and the lazily created core logger behind getLogger. The clock, the
 * console and JSON.stringify are not modelled: the ISO time text and the
 * JSON text of a metadata object are parameters, and a call yields the line
 * and the console function it goes to instead of writing it.
 */
module Logger {
  import opened Wrappers
  import opened Strings

  datatype LogLevel = Trace | Debug | Info | Warn | Error | Fatal

  /** A level's name as callers and LOG_LEVEL spell it. */
  function LevelName(level: LogLevel): string {
    match level
    case Trace => "trace"
    case Debug => "debug"
    case Info => "info"
    case Warn => "warn"
    case Error => "error"
    case Fatal => "fatal"
  }

  /** formatLevel: the level name in upper case. */
  function LevelLabel(level: LogLevel): (text: string)
    ensures text != [] && ',' !in text
  {
    match level
    case Trace => "TRACE"
    case Debug => "DEBUG"
    case Info => "INFO"
    case Warn => "WARN"
    case Error => "ERROR"
    case Fatal => "FATAL"
  }

  /**
   * The names an object literal inherits from Object.prototype. Looked up on
   * the level table they yield a function or an object, which `??` keeps.
   */
  const ObjectPrototypeKeys: set<string> := {
    "constructor", "__proto__", "hasOwnProperty", "isPrototypeOf", "propertyIsEnumerable",
    "toLocaleString", "toString", "valueOf",
    "__defineGetter__", "__defineSetter__", "__lookupGetter__", "__lookupSetter__"
  }

  /** What getLevelOrder returns, as `<` sees it: a number, or a value that converts to NaN. */
  datatype Order = Order(value: nat) | NotANumber

  /**
   * getLevelOrder: trace 0, debug 1, info 2, warn 3, error 4, fatal 5; a name
   * inherited from Object.prototype gives a non-number; any other name 2.
   */
  function LevelOrder(name: string): (order: Order)
    ensures order.Order? ==> order.value <= 5
    ensures name == "trace" ==> order == Order(0)
    ensures name == "debug" ==> order == Order(1)
    ensures name == "info" ==> order == Order(2)
    ensures name == "warn" ==> order == Order(3)
    ensures name == "error" ==> order == Order(4)
    ensures name == "fatal" ==> order == Order(5)
    ensures order.NotANumber? <==> name in ObjectPrototypeKeys
    ensures name !in {"trace", "debug", "info", "warn", "error", "fatal"} && name !in ObjectPrototypeKeys ==> order == Order(2)
  {
    if name == "trace" then Order(0)
    else if name == "debug" then Order(1)
    else if name == "info" then Order(2)
    else if name == "warn" then Order(3)
    else if name == "error" then Order(4)
    else if name == "fatal" then Order(5)
    else if name in ObjectPrototypeKeys then NotANumber
    else Order(2)
  }

  /** JavaScript's `a < b` on two orders: false whenever either side is NaN. */
  predicate Below(a: Order, b: Order) {
    a.Order? && b.Order? && a.value < b.value
  }

  /** A binding or metadata value: what formatContextValue distinguishes. */
  datatype Value =
    | Undefined
    | Null
    | Bool(b: bool)
    | Num(n: real)
    | Str(s: string)
    | Structured(json: string)   // an object or array, with its JSON text

  type Bindings = map<string, Value>

  const ContextKey: string := "loggerContext"
  const LoggerName: string := "sui-chrome-extensions"

  /** The configuration a logger closes over. */
  datatype LoggerConfig = LoggerConfig(name: string, level: string, bindings: Bindings)

  /** child(bindings): the same name and level, the child's bindings over the parent's. */
  function Child(config: LoggerConfig, bindings: Bindings): LoggerConfig {
    config.(bindings := config.bindings + bindings)
  }

  /** resolveLogLevel: LOG_LEVEL when it is a non-empty string, otherwise "info". */
  function ResolveLogLevel(logLevel: Option<Value>): (level: string)
    ensures level != []
    ensures logLevel.Some? && logLevel.value.Str? && logLevel.value.s != [] ==> level == logLevel.value.s
    ensures !(logLevel.Some? && logLevel.value.Str? && logLevel.value.s != []) ==> level == "info"
  {
    match logLevel
    case Some(Str(s)) => if |s| > 0 then s else "info"
    case _ => "info"
  }

  /** createCoreLogger: no bindings, the resolved level. */
  function CoreConfig(logLevel: Option<Value>): LoggerConfig {
    LoggerConfig(LoggerName, ResolveLogLevel(logLevel), map[])
  }

  /** formatContextValue; `show` is Number.prototype.toString. */
  function FormatContextValue(v: Value, show: real -> string): Option<string> {
    match v
    case Undefined => None
    case Null => None
    case Str(s) => Some(s)
    case Num(n) => Some(show(n))
    case Bool(b) => Some(if b then "true" else "false")
    case Structured(j) => Some(j)
  }

  /** formatTimestamp: the ISO text up to its first 'Z', then up to its first '.'. */
  function FormatTimestamp(iso: string): string {
    Split(Split(iso, 'Z')[0], '.')[0]
  }

  /** The first piece of a split is the longest prefix without the separator. */
  lemma {:induction false} SplitHead(s: string, sep: char)
    ensures var h := Split(s, sep)[0];
      |h| <= |s| && h == s[..|h|] && sep !in h && (|h| == |s| || s[|h|] == sep)
    decreases |s|
  {
    if s != [] && s[0] != sep {
      SplitHead(s[1..], sep);
      var h' := Split(s[1..], sep)[0];
      assert Split(s, sep)[0] == [s[0]] + h';
      assert s == [s[0]] + s[1..];
    }
  }

  /**
   * The timestamp is the longest prefix of the ISO text holding neither 'Z'
   * nor '.': fractional seconds and the zone letter are dropped.
   */
  lemma FormatTimestampSpec(iso: string)
    ensures var r := FormatTimestamp(iso);
      |r| <= |iso| && r == iso[..|r|] && 'Z' !in r && '.' !in r
      && (|r| == |iso| || iso[|r|] == 'Z' || iso[|r|] == '.')
  {
    var h := Split(iso, 'Z')[0];
    SplitHead(iso, 'Z');
    SplitHead(h, '.');
    var r := FormatTimestamp(iso);
    assert iso[..|h|][..|r|] == iso[..|r|];
    if |r| < |h| {
      assert iso[|r|] == h[|r|];
    }
  }

  /** The console function a line goes to. */
  datatype Stream = ConsoleLog | ConsoleError

  /** The context segment: the formatted loggerContext value, "" when there is none. */
  function ContextText(metadata: Bindings, show: real -> string): string {
    if ContextKey in metadata then
      match FormatContextValue(metadata[ContextKey], show)
      case Some(t) => t
      case None => ""
    else ""
  }

  /** The segments of a line, the optional ones only when non-empty. */
  function Segments(levelText: string, contextText: string, timestamp: string, message: string): seq<string> {
    [levelText]
    + (if contextText != "" then [contextText] else [])
    + [timestamp]
    + (if message != "" then [message] else [])
  }

  /** The metadata other than loggerContext, after one space, when there is any. */
  function MetadataText(metadata: Bindings, json: Bindings -> string): string {
    var rest := metadata - {ContextKey};
    if |rest.Keys| > 0 then " " + json(rest) else ""
  }

  /** formatPretty; `iso` is the current time as toISOString writes it, `json` is JSON.stringify. */
  function FormatPretty(level: LogLevel, msg: Option<string>, metadata: Bindings, iso: string,
                        json: Bindings -> string, show: real -> string): string {
    var message := match msg case Some(m) => m case None => "";
    Join(Segments(LevelLabel(level), ContextText(metadata, show), FormatTimestamp(iso), message), ", ")
      + MetadataText(metadata, json)
  }

  /** The joined segments: each optional one brings its own ", ". */
  lemma JoinSegments(levelText: string, contextText: string, timestamp: string, message: string)
    ensures Join(Segments(levelText, contextText, timestamp, message), ", ")
      == levelText + ", " + (if contextText != "" then contextText + ", " else "")
         + timestamp + (if message != "" then ", " + message else "")
  {
    var last := if message != "" then [message] else [];
    var tail := [timestamp] + last;
    JoinCons(timestamp, last, ", ");
    if contextText != "" {
      JoinCons(contextText, tail, ", ");
      JoinCons(levelText, [contextText] + tail, ", ");
      assert Segments(levelText, contextText, timestamp, message) == [levelText] + ([contextText] + tail);
    } else {
      JoinCons(levelText, tail, ", ");
      assert Segments(levelText, contextText, timestamp, message) == [levelText] + tail;
    }
  }

  /** The metadata text is present exactly when some key other than loggerContext is. */
  lemma MetadataTextSpec(metadata: Bindings, json: Bindings -> string)
    ensures (exists k :: k in metadata && k != ContextKey) ==> MetadataText(metadata, json) == " " + json(metadata - {ContextKey})
    ensures (forall k :: k in metadata ==> k == ContextKey) ==> MetadataText(metadata, json) == ""
  {
    var rest := metadata - {ContextKey};
    if k :| k in metadata && k != ContextKey {
      assert k in rest.Keys;
    } else {
      assert rest.Keys == {};
    }
  }

  /**
   * A line is "LEVEL, context, time, message metadata": the context and the
   * message only when non-empty, and the JSON of the metadata other than
   * loggerContext, after one space, only when such metadata exists.
   */
  lemma FormatPrettyShape(level: LogLevel, msg: Option<string>, metadata: Bindings, iso: string,
                          json: Bindings -> string, show: real -> string)
    ensures var ctx := ContextText(metadata, show);
      var message := match msg case Some(m) => m case None => "";
      FormatPretty(level, msg, metadata, iso, json, show)
        == LevelLabel(level) + ", " + (if ctx != "" then ctx + ", " else "") + FormatTimestamp(iso)
           + (if message != "" then ", " + message else "") + MetadataText(metadata, json)
  {
    var message := match msg case Some(m) => m case None => "";
    JoinSegments(LevelLabel(level), ContextText(metadata, show), FormatTimestamp(iso), message);
  }

  /** The call's arguments: a message, or an object of fields and an optional message. */
  datatype LogArg = Text(text: string) | Fields(fields: Bindings)

  /**
   * One call of info, error, warn, debug, trace or fatal on a logger: nothing
   * when the level is below the configured one, otherwise the console
   * function and the line.
   */
  function Log(config: LoggerConfig, level: LogLevel, first: LogArg, second: Option<string>,
               iso: string, json: Bindings -> string, show: real -> string): (out: Option<(Stream, string)>)
    ensures out.None? <==> Below(LevelOrder(LevelName(level)), LevelOrder(config.level))
    ensures config.level in ObjectPrototypeKeys ==> out.Some?
    ensures out.Some? ==> (out.value.0 == ConsoleError <==> level == Error || level == Fatal)
  {
    if Below(LevelOrder(LevelName(level)), LevelOrder(config.level)) then None
    else
      var obj := if first.Fields? then first.fields else map[];
      var msg := if first.Text? then Some(first.text) else second;
      var stream := if level == Error || level == Fatal then ConsoleError else ConsoleLog;
      Some((stream, FormatPretty(level, msg, config.bindings + obj, iso, json, show)))
  }

  /** The rank of a level, the order of its name. */
  function Rank(level: LogLevel): nat {
    match level
    case Trace => 0
    case Debug => 1
    case Info => 2
    case Warn => 3
    case Error => 4
    case Fatal => 5
  }

  /** A logger configured at level `l` prints exactly the calls of rank at least `l`'s. */
  lemma LogFilter(config: LoggerConfig, level: LogLevel, first: LogArg, second: Option<string>,
                  iso: string, json: Bindings -> string, show: real -> string)
    ensures forall l :: config.level == LevelName(l) ==>
      (Log(config, level, first, second, iso, json, show).Some? <==> Rank(level) >= Rank(l))
  {
    assert LevelOrder(LevelName(level)) == Order(Rank(level));
    forall l | config.level == LevelName(l)
      ensures Log(config, level, first, second, iso, json, show).Some? <==> Rank(level) >= Rank(l)
    {
      assert LevelOrder(LevelName(l)) == Order(Rank(l));
    }
  }

  /** A configured name that is neither a level nor an Object.prototype member filters like "info". */
  lemma LogUnknownLevel(config: LoggerConfig, level: LogLevel, first: LogArg, second: Option<string>,
                        iso: string, json: Bindings -> string, show: real -> string)
    requires forall l :: config.level != LevelName(l)
    requires config.level !in ObjectPrototypeKeys
    ensures Log(config, level, first, second, iso, json, show)
      == Log(config.(level := "info"), level, first, second, iso, json, show)
  {
    assert config.level != LevelName(Trace) && config.level != LevelName(Debug)
      && config.level != LevelName(Info) && config.level != LevelName(Warn)
      && config.level != LevelName(Error) && config.level != LevelName(Fatal);
    assert LevelOrder(config.level) == LevelOrder("info");
  }

  /** A call that is printed at one level would also be printed at any higher level. */
  lemma LogMonotone(config: LoggerConfig, level: LogLevel, higher: LogLevel, first: LogArg, second: Option<string>,
                    iso: string, json: Bindings -> string, show: real -> string)
    requires Rank(level) <= Rank(higher)
    requires Log(config, level, first, second, iso, json, show).Some?
    ensures Log(config, higher, first, second, iso, json, show).Some?
  {
    assert LevelOrder(LevelName(level)) == Order(Rank(level));
    assert LevelOrder(LevelName(higher)) == Order(Rank(higher));
  }

  /** The metadata of a call: the logger's bindings with the call's fields over them. */
  function CallMetadata(config: LoggerConfig, first: LogArg): Bindings {
    config.bindings + (if first.Fields? then first.fields else map[])
  }

  /**
   * For a call on a child of a child, each key takes its value from the
   * call's fields, else from the inner child's bindings, else from the outer
   * child's, else from the root's; no key is lost.
   */
  lemma BindingPrecedence(root: LoggerConfig, outer: Bindings, inner: Bindings, fields: Bindings, key: string)
    ensures var m := CallMetadata(Child(Child(root, outer), inner), Fields(fields));
      (key in m <==> key in fields || key in inner || key in outer || key in root.bindings)
      && (key in fields ==> m[key] == fields[key])
      && (key !in fields && key in inner ==> m[key] == inner[key])
      && (key !in fields && key !in inner && key in outer ==> m[key] == outer[key])
      && (key !in fields && key !in inner && key !in outer && key in root.bindings ==> m[key] == root.bindings[key])
  {
  }

  /**
   * The logger registry of the module: the core logger, created on the first
   * getLogger call from the LOG_LEVEL visible at that moment.
   */
  class LoggerRegistry {
    var core: Option<LoggerConfig>

    constructor()
      ensures core == None
    {
      core := None;
    }

    /**
     * getLogger: creates the core logger if there is none yet; without a
     * context (absent or empty) returns it, otherwise its child with
     * loggerContext "-<context>-".
     */
    method GetLogger(context: Option<string>, logLevel: Option<Value>) returns (logger: LoggerConfig)
      modifies this
      ensures old(core).Some? ==> core == old(core)
      ensures old(core).None? ==> core == Some(CoreConfig(logLevel))
      ensures context.None? || context == Some("") ==> logger == core.value
      ensures context.Some? && context.value != "" ==>
        logger == Child(core.value, map[ContextKey := Str("-" + context.value + "-")])
    {
      if core.None? {
        core := Some(CoreConfig(logLevel));
      }
      match context {
        case Some(c) =>
          if c == "" {
            logger := core.value;
          } else {
            logger := Child(core.value, map[ContextKey := Str("-" + c + "-")]);
          }
        case None =>
          logger := core.value;
      }
    }
  }

  /**
   * A message logged through getLogger(context) with a non-empty context and
   * no fields, at a level the core lets through, is printed as
   * "LEVEL, -context-, time, message".
   */
  lemma ContextLoggerLine(logLevel: Option<Value>, context: string, level: LogLevel, message: string,
                          iso: string, json: Bindings -> string, show: real -> string)
    requires context != "" && message != ""
    requires !Below(Order(Rank(level)), LevelOrder(ResolveLogLevel(logLevel)))
    ensures var tag := "-" + context + "-";
      var logger := Child(CoreConfig(logLevel), map[ContextKey := Str(tag)]);
      Log(logger, level, Text(message), None, iso, json, show)
        == Some((if level == Error || level == Fatal then ConsoleError else ConsoleLog,
                 LevelLabel(level) + ", " + (tag + ", ") + FormatTimestamp(iso) + (", " + message)))
  {
    var tag := "-" + context + "-";
    var logger := Child(CoreConfig(logLevel), map[ContextKey := Str(tag)]);
    var metadata := logger.bindings + map[];
    assert metadata == map[ContextKey := Str(tag)];
    assert ContextText(metadata, show) == tag;
    MetadataTextSpec(metadata, json);
    assert LevelOrder(LevelName(level)) == Order(Rank(level));
    FormatPrettyShape(level, Some(message), metadata, iso, json, show);
    var line := LevelLabel(level) + ", " + (tag + ", ") + FormatTimestamp(iso) + (", " + message);
    assert line + "" == line;
  }
}
