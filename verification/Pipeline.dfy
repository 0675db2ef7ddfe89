/** The path of one event: operational metadata, bounded admission, sanitising, and the final pass before layout. */
module Pipeline {
  import opened Text
  import opened Json
  import opened Values
  import opened Ledgers
  import opened Events
  import S = Sanitizing
  import Sanitizer

  const IDENTITY := ["timestamp", "level", "logger", "service", "environment", "request_id"]
  const IDENTITY_NAMES: set<string> := {"timestamp", "level", "logger", "service", "environment", "request_id"}
  const LEADING_FIELDS := ["event", "exception", "stack"]
  const ASSEMBLED_FIELDS: set<string> := {"exception", "stack"}
  const NOT_PAYLOAD: set<string> := IDENTITY_NAMES + {"_record", "_from_structlog"}
  const UNCOUNTED: set<string> := NOT_PAYLOAD + {"event", "exception", "stack", "exc_info", "stack_info"}
  const STRUCTLOG_KEY_PREFIX := "structlog_"
  const RESERVED := "[RESERVED]"
  const RESERVED_NOTE := "reserved field names removed"
  const MAX_CONTEXT_VARIABLES := 4 * MAX_EVENT_FIELDS
  const MAX_IDENTIFIER_LENGTH := 128

  /** A context variable; `None` is the marker for a field that was unbound again. */
  datatype Variable = Variable(name: string, value: Option<Value>)

  /** What surrounds a logging call: the context, the request, and the code not modelled here. */
  datatype Surroundings = Surroundings(
    host: Host,
    bound: Option<Value>,                  // the request ID bound to the context
    variables: seq<Variable>,              // the variables of the context, in its order
    request: Option<Value>,                // the request ID the server assigned, within a request
    truthy: Value -> bool,
    traceback: Value -> Option<string>,    // what `exc_info` is rendered as
    stack: string,                         // the calling stack
    grammar: (string, string) -> bool,     // the grammar of a kind of identifier
    store: (string, Json) -> Value,        // the sanitised value of a field, in new objects, as the next pass finds it
    error: Plain)                          // the class name of an error
  {
    ghost predicate Lawful() {
      && host.Lawful(0)
      && |error| <= MAX_IDENTIFIER_LENGTH
      && forall kind, text :: grammar(kind, text) ==> forall i :: 0 <= i < |text| ==> IsPlain(text[i])
    }
  }

  // ---------------------------------------------------------------- identifiers

  /** What replaces an identifier that is not well-formed. */
  function Fallback(kind: string): (s: Plain)
    ensures |s| <= 24
  {
    if kind == "timestamp" || kind == "level" then "unknown"
    else if kind == "logger" then "untrusted_logger"
    else if kind == "service" then "untrusted_service"
    else if kind == "environment" then "untrusted_environment"
    else "untrusted_request_id"
  }

  /** `trusted_identifier`. */
  function Trusted(s: Surroundings, v: Value, kind: string): string {
    if !v.Text? || !(0 < |v.text| <= MAX_IDENTIFIER_LENGTH) || !s.grammar(kind, v.text) then Fallback(kind)
    else
      var scrubbed := s.host.scrub(v.text, MAX_EVENT_SCAN, MAX_EVENT_NODES, 0);
      if scrubbed.Clean? && scrubbed.text == v.text then v.text else Fallback(kind)
  }

  /** An identifier that is validated again stays as it is. */
  lemma TrustedIsStable(s: Surroundings, v: Value, kind: string)
    ensures Trusted(s, Text(Trusted(s, v, kind)), kind) == Trusted(s, v, kind)
  {
  }

  lemma TrustedIsShort(s: Surroundings, v: Value, kind: string)
    requires s.Lawful()
    ensures |Trusted(s, v, kind)| <= MAX_IDENTIFIER_LENGTH
    ensures forall i :: 0 <= i < |Trusted(s, v, kind)| ==> IsPlain(Trusted(s, v, kind)[i])
  {
  }

  /** The values a pass takes operational metadata from: the logging call, or the log record, and the configuration. */
  datatype Source = Source(level: Value, logger: Value, service: Value, environment: Value, timestamp: Value)

  /** `_establish_identity` and `_establish_record_identity`. */
  function Established(s: Surroundings, from: Source): seq<Field> {
    [Field("level", Text(Trusted(s, from.level, "level"))),
     Field("logger", Text(Trusted(s, from.logger, "logger"))),
     Field("service", Text(Trusted(s, from.service, "service"))),
     Field("environment", Text(Trusted(s, from.environment, "environment"))),
     Field("timestamp", Text(Trusted(s, from.timestamp, "timestamp")))]
  }

  /** `_establish_request_id`. */
  function WithRequestId(s: Surroundings, identity: seq<Field>, fields: seq<Field>): seq<Field> {
    var id := if s.request.Some? then s.request else Get(fields, "request_id");
    if id.None? then identity else Set(identity, "request_id", Text(Trusted(s, id.value, "request_id")))
  }

  /** The metadata of `identity` in its fixed order. */
  function InOrder(identity: seq<Field>, names: seq<string>): seq<Field> {
    if names == [] then []
    else
      var v := Get(identity, names[0]);
      (if v.Some? then [Field(names[0], v.value)] else []) + InOrder(identity, names[1..])
  }

  function FailureEvent(s: Surroundings, identity: seq<Field>, event: string): seq<Field> {
    [Field("event", Text(event)), Field("error_type", Text(s.error))] + identity
  }

  // ---------------------------------------------------------------- admission

  /** `MAX_EVENT_FIELDS` less the fields of the event that take a place. */
  function Room(fields: seq<Field>): int {
    MAX_EVENT_FIELDS - |fields| + |UNCOUNTED * Names(fields)|
  }

  /** What one context variable does to the event: admitted or passed over, or the fields are at their limit. */
  datatype Merging = Going(fields: seq<Field>, room: int) | Full(fields: seq<Field>)

  function MergeOne(s: Surroundings, fields: seq<Field>, v: Variable, room: int): Merging {
    if !(STRUCTLOG_KEY_PREFIX <= v.name) then Going(fields, room)
    else
      var key := v.name[|STRUCTLOG_KEY_PREFIX|..];
      if key == "request_id" then
        Going(if s.bound.None? && v.value.Some? then Set(fields, key, v.value.value) else fields, room)
      else if Has(fields, key) || key in IDENTITY_NAMES || v.value.None? then Going(fields, room)
      else if room <= 0 && key !in UNCOUNTED then Full(SetDefault(fields, TRUNCATED, Text(FIELDS_NOTE)))
      else Going(Set(fields, key, v.value.value), if key in UNCOUNTED then room else room - 1)
  }

  /** The loop of `merge_bounded_contextvars` from variable `k` on. */
  function MergeFrom(s: Surroundings, fields: seq<Field>, k: nat, room: int): seq<Field>
    requires k <= |s.variables|
    decreases |s.variables| - k
  {
    if k == |s.variables| then fields
    else if k >= MAX_CONTEXT_VARIABLES then SetDefault(fields, TRUNCATED, Text(FIELDS_NOTE))
    else
      match MergeOne(s, fields, s.variables[k], room)
      case Full(full) => full
      case Going(more, left) => MergeFrom(s, more, k + 1, left)
  }

  function Merge(s: Surroundings, fields: seq<Field>): seq<Field> {
    var bound := if s.bound.Some? then Set(fields, "request_id", s.bound.value) else fields;
    MergeFrom(s, bound, 0, Room(bound))
  }

  /** The body of the loop: whether the event is full, and what is left of the room. */
  method MergeVariable(s: Surroundings, event: EventDict, v: Variable, room: int) returns (full: bool, left: int)
    modifies event
    ensures MergeOne(s, old(event.fields), v, room) == if full then Full(event.fields) else Going(event.fields, left)
  {
    hide Names, Get, Set, SetDefault;
    if !(STRUCTLOG_KEY_PREFIX <= v.name) { return false, room; }
    var key := v.name[|STRUCTLOG_KEY_PREFIX|..];
    if key == "request_id" {
      if s.bound.None? && v.value.Some? { event.Assign(key, v.value.value); }
      return false, room;
    }
    if Has(event.fields, key) || key in IDENTITY_NAMES { return false, room; }
    if v.value.None? { return false, room; }
    if room <= 0 && key !in UNCOUNTED {
      event.Default(TRUNCATED, Text(FIELDS_NOTE));
      return true, room;
    }
    event.Assign(key, v.value.value);
    return false, if key in UNCOUNTED then room else room - 1;
  }

  /** `merge_bounded_contextvars`. */
  method MergeBoundedContextvars(s: Surroundings, event: EventDict)
    modifies event
    ensures event.fields == Merge(s, old(event.fields))
  {
    hide Names, Get, Set, SetDefault, MergeOne;
    if s.bound.Some? { event.Assign("request_id", s.bound.value); }
    var room := Room(event.fields);
    ghost var whole := MergeFrom(s, event.fields, 0, room);
    var examined := 0;
    while examined < |s.variables|
      invariant examined <= |s.variables|
      invariant MergeFrom(s, event.fields, examined, room) == whole
    {
      if examined >= MAX_CONTEXT_VARIABLES {
        event.Default(TRUNCATED, Text(FIELDS_NOTE));
        return;
      }
      var full;
      full, room := MergeVariable(s, event, s.variables[examined], room);
      if full { return; }
      examined := examined + 1;
    }
  }

  // ---------------------------------------------------------------- the passes

  function Pairs(fields: seq<Field>): (pairs: seq<(Value, Value)>)
    ensures |pairs| == |fields|
    ensures forall i :: 0 <= i < |fields| ==> pairs[i] == (Text(fields[i].name), fields[i].value)
  {
    seq(|fields|, i requires 0 <= i < |fields| => (Text(fields[i].name), fields[i].value))
  }

  /** `_sanitized_fields`. */
  function Sanitized(s: Surroundings, fields: seq<Field>): Outcome<seq<Entry>>
    requires s.host.Lawful(0)
  {
    S.SanitizeEvent(s.host, Pairs(fields), Stops, NOT_PAYLOAD, LEADING_FIELDS, ASSEMBLED_FIELDS, FRESH)
  }

  /** `result.setdefault(key, value)` for every sanitised field. */
  function WithEntries(s: Surroundings, result: seq<Field>, entries: seq<Entry>): seq<Field> {
    if entries == [] then result
    else
      var last := entries[|entries| - 1];
      SetDefault(WithEntries(s, result, entries[..|entries| - 1]), last.key, s.store(last.key, last.value))
  }

  /** `result.setdefault(key, value)` for every field of an event. */
  function WithFields(result: seq<Field>, fields: seq<Field>): seq<Field>
    decreases |fields|
  {
    if fields == [] then result else WithFields(SetDefault(result, fields[0].name, fields[0].value), fields[1..])
  }

  /** `_assemble`. */
  function Assembled(s: Surroundings, fields: seq<Field>, identity: seq<Field>): seq<Field>
    requires s.host.Lawful(0)
  {
    match Sanitized(s, fields)
    case Raised(_) => FailureEvent(s, identity, "log_event_redaction_failed")
    case Done(entries, _) => WithEntries(s, InOrder(identity, IDENTITY), entries)
  }

  /** `render_stack_info` and `render_exc_info`. */
  function Rendered(s: Surroundings, fields: seq<Field>): seq<Field> {
    var info := Get(fields, "stack_info");
    var stacked := Without(fields, "stack_info");
    var withStack := if info.Some? && s.truthy(info.value) then Set(stacked, "stack", Text(s.stack)) else stacked;
    var exc := Get(withStack, "exc_info");
    var popped := Without(withStack, "exc_info");
    var text := if exc.Some? && s.truthy(exc.value) then s.traceback(exc.value) else None;
    if text.Some? then Set(popped, "exception", Text(text.value)) else popped
  }

  /** `_process`: the event, and the metadata with the request ID established. */
  function Processed(s: Surroundings, fields: seq<Field>, identity: seq<Field>): (r: (seq<Field>, seq<Field>))
    requires s.host.Lawful(0)
  {
    var merged := Merge(s, fields);
    var reserved := Has(merged, "_record") || Has(Without(merged, "_record"), "_from_structlog");
    var plain := Without(Without(merged, "_record"), "_from_structlog");
    var established := WithRequestId(s, identity, plain);
    var result := Assembled(s, Rendered(s, plain), established);
    (if reserved then Set(result, RESERVED, Text(RESERVED_NOTE)) else result, established)
  }

  /** `_finish`, the formatter's own two keys taken out: `processed` says the first pass made this event. */
  function Finished(s: Surroundings, fields: seq<Field>, from: Source, processed: bool): seq<Field>
    requires s.host.Lawful(0)
  {
    var known := WithRequestId(s, Established(s, from), []);
    var (event, identity) := if processed then (fields, known) else Processed(s, fields, known);
    WithFields(InOrder(WithRequestId(s, identity, event), IDENTITY), event)
  }

  /** `_identity`. */
  function IdentityOf(s: Surroundings, fields: seq<Field>, names: seq<string>): seq<Entry> {
    if names == [] then []
    else
      var v := Get(fields, names[0]);
      (if v.Some? then [Entry(names[0], Str(Trusted(s, v.value, names[0])))] else [])
      + IdentityOf(s, fields, names[1..])
  }

  function PutDefault(entries: seq<Entry>, key: string, value: Json): seq<Entry> {
    if key in Keys(entries) then entries else Put(entries, key, value)
  }

  function Defaulted(result: seq<Entry>, entries: seq<Entry>): seq<Entry> {
    if entries == [] then result
    else
      var last := entries[|entries| - 1];
      PutDefault(Defaulted(result, entries[..|entries| - 1]), last.key, last.value)
  }

  /** `redact_sensitive_fields`. */
  function Redacted(s: Surroundings, fields: seq<Field>): seq<Entry>
    requires s.host.Lawful(0)
  {
    var identity := IdentityOf(s, fields, IDENTITY);
    match Sanitized(s, fields)
    case Raised(_) => [Entry("event", Str("log_event_redaction_failed")), Entry("error_type", Str(s.error))] + identity
    case Done(entries, _) => Defaulted(identity, entries)
  }

  /** The line of an event made through structlog: both passes, the second from the log record. */
  function EventLine(s: Surroundings, fields: seq<Field>, call: Source, record: Source): string
    requires s.host.Lawful(0)
  {
    Render(Dict(Redacted(s, Finished(s, Processed(s, fields, Established(s, call)).0, record, true))))
  }

  /** The line of a record made by a standard-library logger. */
  function RecordLine(s: Surroundings, fields: seq<Field>, record: Source): string
    requires s.host.Lawful(0)
  {
    Render(Dict(Redacted(s, Finished(s, fields, record, false))))
  }

  /** One pass of the pipeline as an object; `final` is the one the formatter calls. */
  class EventPipeline {
    const s: Surroundings
    var identity: seq<Field>

    constructor (s: Surroundings)
      ensures this.s == s && identity == []
    {
      this.s := s;
      identity := [];
    }

    method EstablishIdentity(from: Source)
      modifies this
      ensures identity == Established(s, from)
    {
      hide Set, Trusted;
      identity := [];
      AddIdentity("level", from.level);
      AddIdentity("logger", from.logger);
      AddIdentity("service", from.service);
      AddIdentity("environment", from.environment);
      AddIdentity("timestamp", from.timestamp);
    }

    method AddIdentity(kind: string, v: Value)
      requires kind !in Names(identity)
      modifies this
      ensures identity == old(identity) + [Field(kind, Text(Trusted(s, v, kind)))]
      ensures Names(identity) == Names(old(identity)) + {kind}
    {
      SetAppends(identity, kind, Text(Trusted(s, v, kind)));
      identity := Set(identity, kind, Text(Trusted(s, v, kind)));
    }

    method EstablishRequestId(fields: seq<Field>)
      modifies this
      ensures identity == WithRequestId(s, old(identity), fields)
    {
      var id := if s.request.Some? then s.request else Get(fields, "request_id");
      if id.Some? { identity := Set(identity, "request_id", Text(Trusted(s, id.value, "request_id"))); }
    }

    method RenderInfo(event: EventDict)
      modifies event
      ensures event.fields == Rendered(s, old(event.fields))
    {
      var info := event.Pop("stack_info");
      if info.Some? && s.truthy(info.value) { event.Assign("stack", Text(s.stack)); }
      var exc := event.Pop("exc_info");
      if exc.None? || !s.truthy(exc.value) { return; }
      var text := s.traceback(exc.value);
      if text.Some? { event.Assign("exception", Text(text.value)); }
    }

    method Assemble(event: EventDict) returns (result: EventDict)
      requires s.host.Lawful(0)
      ensures fresh(result) && result.fields == Assembled(s, event.fields, identity)
    {
      var a, budget := Sanitizer.SanitizeEvent(s.host, Pairs(event.fields), Stops, NOT_PAYLOAD, LEADING_FIELDS,
                                               ASSEMBLED_FIELDS);
      if a.Threw? {
        result := new EventDict(FailureEvent(s, identity, "log_event_redaction_failed"));
        return;
      }
      var entries := a.value;
      result := new EventDict(InOrder(identity, IDENTITY));
      for i := 0 to |entries|
        invariant fresh(result)
        invariant result.fields == WithEntries(s, InOrder(identity, IDENTITY), entries[..i])
      {
        assert entries[..i + 1][..i] == entries[..i];
        result.Default(entries[i].key, s.store(entries[i].key, entries[i].value));
      }
      assert entries[..|entries|] == entries;
    }

    method Process(event: EventDict) returns (result: EventDict)
      requires s.host.Lawful(0)
      modifies this, event
      ensures fresh(result)
      ensures (result.fields, identity) == Processed(s, old(event.fields), old(identity))
    {
      MergeBoundedContextvars(s, event);
      var record := event.Pop("_record");
      var marked := event.Pop("_from_structlog");
      EstablishRequestId(event.fields);
      RenderInfo(event);
      result := Assemble(event);
      if record.Some? || marked.Some? { result.Assign(RESERVED, Text(RESERVED_NOTE)); }
    }

    method Finish(event: EventDict, from: Source, processed: bool) returns (result: EventDict)
      requires s.host.Lawful(0)
      modifies this, event
      ensures fresh(result) && result.fields == Finished(s, old(event.fields), from, processed)
    {
      hide Set, Get, Names, SetDefault, WithFields, WithRequestId, Established, Processed;
      EstablishIdentity(from);
      EstablishRequestId([]);
      var source := event;
      if !processed { source := Process(event); }
      EstablishRequestId(source.fields);
      ghost var ordered := InOrder(identity, IDENTITY);
      result := new EventDict(InOrder(identity, IDENTITY));
      var fields := source.fields;
      for i := 0 to |fields|
        invariant fresh(result)
        invariant WithFields(result.fields, fields[i..]) == WithFields(ordered, fields)
      {
        WithNext(result.fields, fields, i);
        result.Default(fields[i].name, fields[i].value);
      }
      WithNone(result.fields, fields);
    }
  }

  lemma WithNext(result: seq<Field>, fields: seq<Field>, i: nat)
    requires i < |fields|
    ensures WithFields(result, fields[i..])
         == WithFields(SetDefault(result, fields[i].name, fields[i].value), fields[i + 1..])
  {
    hide SetDefault;
    assert fields[i..][1..] == fields[i + 1..];
  }

  lemma WithNone(result: seq<Field>, fields: seq<Field>)
    ensures WithFields(result, fields[|fields|..]) == result
  {
  }

  lemma {:induction false} SetAppends(fields: seq<Field>, name: string, value: Value)
    requires name !in Names(fields)
    ensures Set(fields, name, value) == fields + [Field(name, value)]
    ensures Names(fields + [Field(name, value)]) == Names(fields) + {name}
  {
    if fields != [] {
      SetAppends(fields[1..], name, value);
      assert fields + [Field(name, value)] == [fields[0]] + (fields[1..] + [Field(name, value)]);
    }
  }
}
