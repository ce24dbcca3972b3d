/** The versioned JSONL wire format: encoding of fields, records and scopes, and the decoder that inverts it. */
module Wire {
  import opened Core

  /** A parsed JSON value; numbers are kept apart the way a `serde_json::Number` is. */
  datatype Json =
    | JNull
    | JBool(b: bool)
    | JPos(n: U64)
    | JNeg(i: int)
    | JFloat(value: real)
    | JStr(s: string)
    | JArr(items: seq<Json>)
    | JObj(members: map<string, Json>)

  const FORMAT_VERSION: U64 := 1

  // ---------- encoding ----------

  function EncodeOptU64(o: Option<U64>): Json {
    if o.None? then JNull else JPos(o.value)
  }

  function EncodeOptString(o: Option<string>): Json {
    if o.None? then JNull else JStr(o.value)
  }

  function EncodeMessages(m: ExitMessages): Json {
    JObj(map[
      "success" := EncodeOptString(m.success),
      "failure" := EncodeOptString(m.failure),
      "aborted" := EncodeOptString(m.aborted)])
  }

  function EncodeScope(s: Scope): Json {
    JObj(map[
      "id" := JPos(s.id),
      "parent" := EncodeOptU64(s.parent),
      "entered_at" := JPos(s.enteredAt),
      "exited_at" := EncodeOptU64(s.exitedAt),
      "name" := EncodeOptString(s.name),
      "exit_messages" := EncodeMessages(s.exitMessages)])
  }

  function EncodeInt(i: I64): Json {
    if i >= 0 then JPos(i) else JNeg(i)
  }

  function Tagged(tag: string, content: Json): Json {
    JObj(map["type" := JStr(tag), "value" := content])
  }

  /** Nonfinite floats, which JSON numbers cannot express, travel as strings under the `Float` tag. */
  function EncodeValue(v: Value): Json {
    match v
    case String(s) => Tagged("String", JStr(s))
    case Int(i) => Tagged("Int", EncodeInt(i))
    case Uint(u) => Tagged("Uint", JPos(u))
    case FloatValue(Finite(x)) => Tagged("Float", JFloat(x))
    case FloatValue(NaN(_)) => Tagged("Float", JStr("NaN"))
    case FloatValue(PosInf) => Tagged("Float", JStr("Infinity"))
    case FloatValue(NegInf) => Tagged("Float", JStr("-Infinity"))
    case Bool(b) => Tagged("Bool", JBool(b))
    case DurationMs(ms) => Tagged("DurationMs", JPos(ms))
    case Null => JObj(map["type" := JStr("Null")])
  }

  function EncodeFields(fields: map<string, Value>): Json {
    JObj(map key | key in fields :: EncodeValue(fields[key]))
  }

  function LevelName(kind: EventKind): string {
    match kind
    case Debug => "debug"
    case Info => "info"
    case Warning => "warn"
    case Error => "error"
  }

  function OutcomeName(outcome: Outcome): string {
    match outcome
    case Success => "success"
    case Failure => "failure"
    case Aborted => "aborted"
  }

  function EncodeKind(kind: RecordKind): map<string, Json> {
    match kind
    case Event(level, name, fields) =>
      map["type" := JStr("event"), "level" := JStr(LevelName(level)), "message" := JStr(name), "fields" := EncodeFields(fields)]
    case ScopeExit(outcome, durationNs) =>
      map["type" := JStr("scope_exit"), "outcome" := JStr(OutcomeName(outcome)), "duration_ns" := JPos(durationNs)]
  }

  function CommonMembers(r: Record, runId: string): map<string, Json> {
    map["format_version" := JPos(FORMAT_VERSION), "run_id" := JStr(runId),
        "id" := JPos(r.id), "time_ns" := JPos(r.timeNs), "scope_id" := EncodeOptU64(r.scope)]
  }

  function ScopeMember(scope: Option<Scope>): map<string, Json> {
    if scope.Some? then map["scope" := EncodeScope(scope.value)] else map[]
  }

  /** `JsonRecord`: common members, the flattened kind, and the scope only when there is one. */
  function EncodeRecord(r: Record, scope: Option<Scope>, runId: string): Json {
    JObj(EncodeKind(r.kind) + CommonMembers(r, runId) + ScopeMember(scope))
  }

  function EncodeScopeEntry(s: Scope, runId: string): Json {
    JObj(map["format_version" := JPos(FORMAT_VERSION), "run_id" := JStr(runId), "type" := JStr("scope"), "scope" := EncodeScope(s)])
  }

  // ---------- decoding ----------

  datatype Parse<+T> = Good(value: T) | Bad

  function Get(j: Json, key: string): Option<Json> {
    if j.JObj? && key in j.members then Some(j.members[key]) else None
  }

  function AsU64(j: Option<Json>): Parse<U64> {
    if j.Some? && j.value.JPos? then Good(j.value.n) else Bad
  }

  function AsString(j: Option<Json>): Option<string> {
    if j.Some? && j.value.JStr? then Some(j.value.s) else None
  }

  /** An optional member: absent and null both mean none. */
  function AsOptU64(j: Option<Json>): Parse<Option<U64>> {
    if j.None? || j.value.JNull? then Good(None)
    else if j.value.JPos? then Good(Some(j.value.n)) else Bad
  }

  function AsOptString(j: Option<Json>): Parse<Option<string>> {
    if j.None? || j.value.JNull? then Good(None)
    else if j.value.JStr? then Good(Some(j.value.s)) else Bad
  }

  function DecodeMessages(j: Option<Json>): Parse<ExitMessages> {
    if j.None? then Good(NO_MESSAGES)
    else if !j.value.JObj? then Bad
    else
      var success, failure := AsOptString(Get(j.value, "success")), AsOptString(Get(j.value, "failure"));
      var aborted := AsOptString(Get(j.value, "aborted"));
      if success.Bad? || failure.Bad? || aborted.Bad? then Bad
      else Good(ExitMessages(success.value, failure.value, aborted.value))
  }

  function DecodeScope(j: Json): Parse<Scope> {
    if !j.JObj? then Bad
    else
      var id, parent, enteredAt := AsU64(Get(j, "id")), AsOptU64(Get(j, "parent")), AsU64(Get(j, "entered_at"));
      var name, exitedAt, messages := AsOptString(Get(j, "name")), AsOptU64(Get(j, "exited_at")), DecodeMessages(Get(j, "exit_messages"));
      if id.Bad? || parent.Bad? || enteredAt.Bad? || name.Bad? || exitedAt.Bad? || messages.Bad? then Bad
      else Good(Scope(id.value, parent.value, enteredAt.value, name.value, exitedAt.value, messages.value))
  }

  function DecodeOptScope(j: Option<Json>): Parse<Option<Scope>> {
    if j.None? || j.value.JNull? then Good(None)
    else
      match DecodeScope(j.value)
      case Good(s) => Good(Some(s))
      case Bad => Bad
  }

  /** The tagged representation derived for `Value`. */
  function DecodeTagged(j: Json): Parse<Value> {
    var tag, content := AsString(Get(j, "type")), Get(j, "value");
    if tag.None? then Bad
    else if tag.value == "Null" then (if content.None? || content.value.JNull? then Good(Null) else Bad)
    else if content.None? then Bad
    else
      var c := content.value;
      if tag.value == "String" then (if c.JStr? then Good(String(c.s)) else Bad)
      else if tag.value == "Int" then
        if c.JPos? && c.n < 0x8000_0000_0000_0000 then Good(Int(c.n))
        else if c.JNeg? && -0x8000_0000_0000_0000 <= c.i < 0 then Good(Int(c.i))
        else Bad
      else if tag.value == "Uint" then (if c.JPos? then Good(Uint(c.n)) else Bad)
      else if tag.value == "Float" then
        if c.JFloat? then Good(FloatValue(Finite(c.value)))
        else if c.JPos? then Good(FloatValue(Finite(c.n as real)))
        else if c.JNeg? then Good(FloatValue(Finite(c.i as real)))
        else Bad
      else if tag.value == "Bool" then (if c.JBool? then Good(Bool(c.b)) else Bad)
      else if tag.value == "DurationMs" then (if c.JPos? then Good(DurationMs(c.n)) else Bad)
      else Bad
  }

  function SpecialFloat(j: Json): Option<Value> {
    if AsString(Get(j, "type")) == Some("Float") then
      var content := AsString(Get(j, "value"));
      if content == Some("NaN") then Some(FloatValue(NaN(0)))
      else if content == Some("Infinity") then Some(FloatValue(PosInf))
      else if content == Some("-Infinity") then Some(FloatValue(NegInf))
      else None
    else None
  }

  function DecodeValue(j: Json): Parse<Value> {
    var special := SpecialFloat(j);
    if special.Some? then Good(special.value) else DecodeTagged(j)
  }

  function DecodeFields(j: Option<Json>): Parse<map<string, Value>> {
    if j.None? then Good(map[])
    else if !j.value.JObj? then Bad
    else
      var m := j.value.members;
      if forall key :: key in m.Keys ==> DecodeValue(m[key]).Good? then Good(map key | key in m :: DecodeValue(m[key]).value)
      else Bad
  }

  /** The decoding loop over the members of a `fields` object, in whatever order the hash map yields them. */
  method DeserializeFields(members: map<string, Json>) returns (r: Parse<map<string, Value>>)
    ensures r == DecodeFields(Some(JObj(members)))
  {
    var fields: map<string, Value> := map[];
    var rest := members.Keys;
    while rest != {}
      invariant rest <= members.Keys && fields.Keys == members.Keys - rest
      invariant forall key :: key in fields ==> DecodeValue(members[key]) == Good(fields[key])
      decreases |rest|
    {
      var key :| key in rest;
      var value := DecodeValue(members[key]);
      if value.Bad? {
        return Bad;
      }
      fields := fields[key := value.value];
      rest := rest - {key};
    }
    assert fields == map key | key in members :: DecodeValue(members[key]).value;
    r := Good(fields);
  }

  function DecodeLevel(name: Option<string>): Parse<EventKind> {
    if name == Some("debug") then Good(Debug)
    else if name == Some("info") then Good(Info)
    else if name == Some("warn") || name == Some("warning") then Good(Warning)
    else if name == Some("error") then Good(Error)
    else Bad
  }

  function DecodeOutcome(name: Option<string>): Parse<Outcome> {
    if name == Some("success") then Good(Success)
    else if name == Some("failure") then Good(Failure)
    else if name == Some("aborted") then Good(Aborted)
    else Bad
  }

  /** What one line contributes: a record, scope metadata, or both. */
  datatype Part = Part(record: Option<Record>, scope: Option<Scope>)

  function DecodeEvent(j: Json): Parse<Part> {
    var id, timeNs, scopeId := AsU64(Get(j, "id")), AsU64(Get(j, "time_ns")), AsOptU64(Get(j, "scope_id"));
    var scope, level := DecodeOptScope(Get(j, "scope")), DecodeLevel(AsString(Get(j, "level")));
    var message, fields := AsString(Get(j, "message")), DecodeFields(Get(j, "fields"));
    if id.Bad? || timeNs.Bad? || scopeId.Bad? || scope.Bad? || level.Bad? || message.None? || fields.Bad? then Bad
    else Good(Part(Some(Record(id.value, scopeId.value, timeNs.value, Event(level.value, message.value, fields.value))), scope.value))
  }

  function DecodeExit(j: Json): Parse<Part> {
    var id, timeNs, scopeId := AsU64(Get(j, "id")), AsU64(Get(j, "time_ns")), AsU64(Get(j, "scope_id"));
    var scope, outcome := DecodeOptScope(Get(j, "scope")), DecodeOutcome(AsString(Get(j, "outcome")));
    var durationNs := AsU64(Get(j, "duration_ns"));
    if id.Bad? || timeNs.Bad? || scopeId.Bad? || scope.Bad? || outcome.Bad? || durationNs.Bad? then Bad
    else Good(Part(Some(Record(id.value, Some(scopeId.value), timeNs.value, ScopeExit(outcome.value, durationNs.value))), scope.value))
  }

  function DecodeScopeEntry(j: Json): Parse<Part> {
    var s := Get(j, "scope");
    if s.None? then Bad
    else
      match DecodeScope(s.value)
      case Good(scope) => Good(Part(None, Some(scope)))
      case Bad => Bad
  }

  /** The embedded scope of a record must be the scope it names. */
  predicate Matching(p: Part) {
    p.record.Some? && p.scope.Some? ==> p.record.value.scope == Some(p.scope.value.id)
  }

  function DecodeEntry(j: Json): (p: Parse<Part>)
    ensures p.Good? ==> p.value.record.Some? || p.value.scope.Some?
    ensures p.Good? ==> Matching(p.value)
  {
    var tag := AsString(Get(j, "type"));
    var p :=
      if tag == Some("scope") then DecodeScopeEntry(j)
      else if tag == Some("event") then DecodeEvent(j)
      else if tag == Some("scope_exit") then DecodeExit(j)
      else Bad;
    if p.Good? && !Matching(p.value) then Bad else p
  }

  // ---------- what survives ----------

  /** All NaNs are one on the wire. */
  function CanonValue(v: Value): Value {
    if v.FloatValue? && v.f.NaN? then FloatValue(NaN(0)) else v
  }

  function CanonFields(fields: map<string, Value>): map<string, Value> {
    map key | key in fields :: CanonValue(fields[key])
  }

  function Canon(r: Record): Record {
    if r.kind.Event? then r.(kind := r.kind.(fields := CanonFields(r.kind.fields))) else r
  }

  /** Field values survive the wire; in particular ordinary strings such as "NaN" stay strings. */
  lemma ValueRoundTrip(v: Value)
    ensures DecodeValue(EncodeValue(v)) == Good(CanonValue(v))
  {
    assert AsString(Get(EncodeValue(v), "type")).Some?;
  }

  lemma FieldsRoundTrip(fields: map<string, Value>)
    ensures DecodeFields(Some(EncodeFields(fields))) == Good(CanonFields(fields))
  {
    var m := EncodeFields(fields).members;
    forall key | key in m.Keys
      ensures DecodeValue(m[key]) == Good(CanonFields(fields)[key])
    {
      ValueRoundTrip(fields[key]);
    }
    var decoded := map key | key in m :: DecodeValue(m[key]).value;
    assert decoded == CanonFields(fields);
  }

  lemma MessagesRoundTrip(m: ExitMessages)
    ensures DecodeMessages(Some(EncodeMessages(m))) == Good(m)
  {
  }

  lemma ScopeRoundTrip(s: Scope)
    ensures DecodeScope(EncodeScope(s)) == Good(s)
  {
    var j := EncodeScope(s);
    MessagesRoundTrip(s.exitMessages);
    assert Get(j, "id") == Some(JPos(s.id));
    assert Get(j, "parent") == Some(EncodeOptU64(s.parent));
    assert Get(j, "entered_at") == Some(JPos(s.enteredAt));
    assert Get(j, "exited_at") == Some(EncodeOptU64(s.exitedAt));
    assert Get(j, "name") == Some(EncodeOptString(s.name));
    assert Get(j, "exit_messages") == Some(EncodeMessages(s.exitMessages));
  }

  lemma CommonMember(r: Record, scope: Option<Scope>, runId: string, key: string)
    requires key in CommonMembers(r, runId)
    ensures Get(EncodeRecord(r, scope, runId), key) == Some(CommonMembers(r, runId)[key])
  {
    assert key !in ScopeMember(scope);
  }

  /** The members every record line carries, whatever its kind. */
  lemma RecordMembers(r: Record, scope: Option<Scope>, runId: string)
    ensures var j := EncodeRecord(r, scope, runId);
      && Get(j, "format_version") == Some(JPos(FORMAT_VERSION)) && Get(j, "run_id") == Some(JStr(runId))
      && Get(j, "id") == Some(JPos(r.id)) && Get(j, "time_ns") == Some(JPos(r.timeNs))
      && Get(j, "scope_id") == Some(EncodeOptU64(r.scope))
      && Get(j, "scope") == (if scope.None? then None else Some(EncodeScope(scope.value)))
  {
    CommonMember(r, scope, runId, "format_version");
    CommonMember(r, scope, runId, "run_id");
    CommonMember(r, scope, runId, "id");
    CommonMember(r, scope, runId, "time_ns");
    CommonMember(r, scope, runId, "scope_id");
    assert "scope" !in EncodeKind(r.kind) && "scope" !in CommonMembers(r, runId);
  }

  /** The members of the flattened kind are not shadowed by the common ones. */
  lemma KindMember(r: Record, scope: Option<Scope>, runId: string, key: string)
    requires key in ["type", "level", "message", "fields", "outcome", "duration_ns"]
    ensures Get(EncodeRecord(r, scope, runId), key) == Get(JObj(EncodeKind(r.kind)), key)
  {
    assert key !in CommonMembers(r, runId);
    assert key !in ScopeMember(scope);
  }

  lemma KindMembers(r: Record, scope: Option<Scope>, runId: string)
    ensures var j, k := EncodeRecord(r, scope, runId), JObj(EncodeKind(r.kind));
      && Get(j, "type") == Get(k, "type") && Get(j, "level") == Get(k, "level")
      && Get(j, "message") == Get(k, "message") && Get(j, "fields") == Get(k, "fields")
      && Get(j, "outcome") == Get(k, "outcome") && Get(j, "duration_ns") == Get(k, "duration_ns")
  {
    KindMember(r, scope, runId, "type");
    KindMember(r, scope, runId, "level");
    KindMember(r, scope, runId, "message");
    KindMember(r, scope, runId, "fields");
    KindMember(r, scope, runId, "outcome");
    KindMember(r, scope, runId, "duration_ns");
  }

  lemma EventMembers(level: EventKind, name: string, fields: map<string, Value>)
    ensures var k := JObj(EncodeKind(Event(level, name, fields)));
      && Get(k, "type") == Some(JStr("event")) && Get(k, "level") == Some(JStr(LevelName(level)))
      && Get(k, "message") == Some(JStr(name)) && Get(k, "fields") == Some(EncodeFields(fields))
  {
  }

  lemma ExitMembers(outcome: Outcome, durationNs: U64)
    ensures var k := JObj(EncodeKind(ScopeExit(outcome, durationNs)));
      && Get(k, "type") == Some(JStr("scope_exit")) && Get(k, "outcome") == Some(JStr(OutcomeName(outcome)))
      && Get(k, "duration_ns") == Some(JPos(durationNs))
  {
  }

  lemma NamesRoundTrip(kind: EventKind, outcome: Outcome)
    ensures DecodeLevel(Some(LevelName(kind))) == Good(kind)
    ensures DecodeOutcome(Some(OutcomeName(outcome))) == Good(outcome)
  {
  }

  /** Decoding looks at an object only through its members. */
  lemma DecodesEvent(j: Json, r: Record, scope: Option<Scope>)
    requires r.kind.Event? && (scope.Some? ==> r.scope == Some(scope.value.id))
    requires Get(j, "id") == Some(JPos(r.id)) && Get(j, "time_ns") == Some(JPos(r.timeNs))
    requires Get(j, "scope_id") == Some(EncodeOptU64(r.scope))
    requires Get(j, "scope") == (if scope.None? then None else Some(EncodeScope(scope.value)))
    requires Get(j, "type") == Some(JStr("event")) && Get(j, "level") == Some(JStr(LevelName(r.kind.kind)))
    requires Get(j, "message") == Some(JStr(r.kind.name)) && Get(j, "fields") == Some(EncodeFields(r.kind.fields))
    ensures DecodeEntry(j) == Good(Part(Some(Canon(r)), scope))
  {
    if scope.Some? {
      ScopeRoundTrip(scope.value);
    }
    assert DecodeOptScope(Get(j, "scope")) == Good(scope);
    NamesRoundTrip(r.kind.kind, Success);
    FieldsRoundTrip(r.kind.fields);
    assert DecodeEvent(j) == Good(Part(Some(Canon(r)), scope));
  }

  lemma DecodesExit(j: Json, r: Record, scope: Option<Scope>)
    requires r.kind.ScopeExit? && r.scope.Some? && (scope.Some? ==> r.scope == Some(scope.value.id))
    requires Get(j, "id") == Some(JPos(r.id)) && Get(j, "time_ns") == Some(JPos(r.timeNs))
    requires Get(j, "scope_id") == Some(EncodeOptU64(r.scope))
    requires Get(j, "scope") == (if scope.None? then None else Some(EncodeScope(scope.value)))
    requires Get(j, "type") == Some(JStr("scope_exit")) && Get(j, "outcome") == Some(JStr(OutcomeName(r.kind.outcome)))
    requires Get(j, "duration_ns") == Some(JPos(r.kind.durationNs))
    ensures DecodeEntry(j) == Good(Part(Some(Canon(r)), scope))
  {
    if scope.Some? {
      ScopeRoundTrip(scope.value);
    }
    assert DecodeOptScope(Get(j, "scope")) == Good(scope);
    NamesRoundTrip(Info, r.kind.outcome);
    assert DecodeExit(j) == Good(Part(Some(r), scope));
  }

  /** Every record line decodes to the record and the scope it was written from. */
  lemma RecordRoundTrip(r: Record, scope: Option<Scope>, runId: string)
    requires r.kind.ScopeExit? ==> r.scope.Some?
    requires scope.Some? ==> r.scope == Some(scope.value.id)
    ensures DecodeEntry(EncodeRecord(r, scope, runId)) == Good(Part(Some(Canon(r)), scope))
  {
    var j := EncodeRecord(r, scope, runId);
    RecordMembers(r, scope, runId);
    KindMembers(r, scope, runId);
    match r.kind
    case Event(level, name, fields) =>
      EventMembers(level, name, fields);
      DecodesEvent(j, r, scope);
    case ScopeExit(outcome, durationNs) =>
      ExitMembers(outcome, durationNs);
      DecodesExit(j, r, scope);
  }

  lemma ScopeEntryRoundTrip(s: Scope, runId: string)
    ensures var j := EncodeScopeEntry(s, runId);
      && DecodeEntry(j) == Good(Part(None, Some(s)))
      && Get(j, "format_version") == Some(JPos(FORMAT_VERSION)) && Get(j, "run_id") == Some(JStr(runId))
  {
    ScopeRoundTrip(s);
  }

  /** The comparison of a repeated record: equality of wire values under a fixed run. */
  predicate WireEqual(a: Record, b: Record) {
    EncodeRecord(a, None, "comparison") == EncodeRecord(b, None, "comparison")
  }

  lemma EncodeForgetsPayloads(r: Record)
    ensures EncodeKind(Canon(r).kind) == EncodeKind(r.kind)
  {
    if r.kind.Event? {
      var f := r.kind.fields;
      assert EncodeFields(CanonFields(f)) == EncodeFields(f) by {
        forall key | key in f
          ensures EncodeValue(CanonFields(f)[key]) == EncodeValue(f[key])
        {
        }
        assert (map key | key in f :: EncodeValue(f[key])) == (map key | key in CanonFields(f) :: EncodeValue(CanonFields(f)[key]));
      }
    }
  }

  /**
   Encoding is injective up to the payload of NaNs: two records compare equal on the wire exactly when they are the
   same record once all NaNs are identified. An exit without a scope never comes out of the decoder.
   */
  lemma WireEqualMeansSame(a: Record, b: Record)
    requires a.kind.ScopeExit? ==> a.scope.Some?
    requires b.kind.ScopeExit? ==> b.scope.Some?
    ensures WireEqual(a, b) <==> Canon(a) == Canon(b)
  {
    RecordRoundTrip(a, None, "comparison");
    RecordRoundTrip(b, None, "comparison");
    EncodeForgetsPayloads(a);
    EncodeForgetsPayloads(b);
  }

  // ---------- one line of a saved file ----------

  datatype IssueKind =
    | InvalidLine
    | UnsupportedVersion
    | InferredRunBoundary
    | ConflictingRecord
    | ConflictingScope
    | MissingScopeMetadata
    | InvalidHierarchy

  datatype Decoded = Rejected(kind: IssueKind) | Accepted(runId: Option<string>, part: Part)

  /** Version check, run identity, entry shape: in this order, so that unknown versions are never interpreted. */
  function DecodeLine(j: Json): Decoded {
    var field := Get(j, "format_version");
    if field.Some? && !field.value.JPos? then Rejected(InvalidLine)
    else
      var version: U64 := if field.None? then 0 else field.value.n;
      if version > FORMAT_VERSION then Rejected(UnsupportedVersion)
      else
        var runId := if version == 0 then None else AsString(Get(j, "run_id"));
        if version != 0 && (runId.None? || runId.value == "") then Rejected(InvalidLine)
        else
          match DecodeEntry(j)
          case Good(part) => Accepted(runId, part)
          case Bad => Rejected(InvalidLine)
  }

  lemma RecordLine(r: Record, scope: Option<Scope>, runId: string)
    requires r.kind.ScopeExit? ==> r.scope.Some?
    requires scope.Some? ==> r.scope == Some(scope.value.id)
    requires runId != ""
    ensures DecodeLine(EncodeRecord(r, scope, runId)) == Accepted(Some(runId), Part(Some(Canon(r)), scope))
  {
    var j := EncodeRecord(r, scope, runId);
    RecordMembers(r, scope, runId);
    RecordRoundTrip(r, scope, runId);
    VersionedLine(j, runId, Part(Some(Canon(r)), scope));
  }

  lemma ScopeLine(s: Scope, runId: string)
    requires runId != ""
    ensures DecodeLine(EncodeScopeEntry(s, runId)) == Accepted(Some(runId), Part(None, Some(s)))
  {
    ScopeEntryRoundTrip(s, runId);
    VersionedLine(EncodeScopeEntry(s, runId), runId, Part(None, Some(s)));
  }

  lemma VersionedLine(j: Json, runId: string, part: Part)
    requires Get(j, "format_version") == Some(JPos(FORMAT_VERSION)) && Get(j, "run_id") == Some(JStr(runId)) && runId != ""
    requires DecodeEntry(j) == Good(part)
    ensures DecodeLine(j) == Accepted(Some(runId), part)
  {
  }

  // ---------- what a line says ----------

  /**
   Newer versions are refused whatever else a line holds; an accepted line is of version one and names its run, or is
   unversioned and names none.
   */
  lemma LineRules(j: Json)
    ensures DecodeLine(j) == Rejected(UnsupportedVersion)
      <==> exists n: U64 :: n > 1 && Get(j, "format_version") == Some(JPos(n))
    ensures DecodeLine(j).Accepted? && DecodeLine(j).runId.Some? ==>
      var runId := DecodeLine(j).runId.value;
      runId != "" && Get(j, "run_id") == Some(JStr(runId)) && Get(j, "format_version") == Some(JPos(1))
    ensures DecodeLine(j).Accepted? && DecodeLine(j).runId.None? ==>
      Get(j, "format_version") == None || Get(j, "format_version") == Some(JPos(0))
    ensures DecodeLine(j).Accepted? ==> DecodeEntry(j) == Good(DecodeLine(j).part)
  {
    var field := Get(j, "format_version");
    if field.Some? && field.value.JPos? && field.value.n > 1 {
      assert Get(j, "format_version") == Some(JPos(field.value.n));
    }
  }

  /** A member that may be absent or null says this number, or none. */
  predicate SaysNumber(member: Option<Json>, n: Option<U64>) {
    if n.Some? then member == Some(JPos(n.value)) else member == None || member == Some(JNull)
  }

  predicate SaysText(member: Option<Json>, text: Option<string>) {
    if text.Some? then member == Some(JStr(text.value)) else member == None || member == Some(JNull)
  }

  predicate SaysLevel(member: Option<Json>, kind: EventKind) {
    match kind
    case Debug => member == Some(JStr("debug"))
    case Info => member == Some(JStr("info"))
    case Warning => member == Some(JStr("warn")) || member == Some(JStr("warning"))
    case Error => member == Some(JStr("error"))
  }

  predicate SaysOutcome(member: Option<Json>, outcome: Outcome) {
    match outcome
    case Success => member == Some(JStr("success"))
    case Failure => member == Some(JStr("failure"))
    case Aborted => member == Some(JStr("aborted"))
  }

  predicate SaysMessages(member: Option<Json>, m: ExitMessages) {
    if member.None? then m == NO_MESSAGES
    else
      && member.value.JObj? && SaysText(Get(member.value, "success"), m.success)
      && SaysText(Get(member.value, "failure"), m.failure) && SaysText(Get(member.value, "aborted"), m.aborted)
  }

  predicate SaysScope(j: Json, s: Scope) {
    && Get(j, "id") == Some(JPos(s.id)) && SaysNumber(Get(j, "parent"), s.parent)
    && Get(j, "entered_at") == Some(JPos(s.enteredAt)) && SaysNumber(Get(j, "exited_at"), s.exitedAt)
    && SaysText(Get(j, "name"), s.name) && SaysMessages(Get(j, "exit_messages"), s.exitMessages)
  }

  lemma MessagesSaid(member: Option<Json>)
    ensures DecodeMessages(member).Good? ==> SaysMessages(member, DecodeMessages(member).value)
  {
  }

  lemma ScopeSaid(j: Json)
    ensures DecodeScope(j).Good? ==> SaysScope(j, DecodeScope(j).value)
  {
    MessagesSaid(Get(j, "exit_messages"));
  }

  /** The scope embedded in a record line, if any, and its agreement with the record. */
  predicate SaysEmbedded(j: Json, p: Part) {
    var member := Get(j, "scope");
    if p.scope.None? then member == None || member == Some(JNull)
    else member.Some? && SaysScope(member.value, p.scope.value) && p.record.Some? && p.record.value.scope == Some(p.scope.value.id)
  }

  lemma EmbeddedSaid(j: Json)
    ensures var member, s := Get(j, "scope"), DecodeOptScope(Get(j, "scope"));
      s.Good? ==> if s.value.None? then member == None || member == Some(JNull) else member.Some? && SaysScope(member.value, s.value.value)
  {
    var member := Get(j, "scope");
    if member.Some? {
      ScopeSaid(member.value);
    }
  }

  predicate SaysCommon(j: Json, r: Record) {
    && Get(j, "id") == Some(JPos(r.id)) && Get(j, "time_ns") == Some(JPos(r.timeNs)) && SaysNumber(Get(j, "scope_id"), r.scope)
  }

  lemma LevelSaid(j: Json)
    ensures DecodeLevel(AsString(Get(j, "level"))).Good? ==> SaysLevel(Get(j, "level"), DecodeLevel(AsString(Get(j, "level"))).value)
    ensures DecodeOutcome(AsString(Get(j, "outcome"))).Good? ==>
      SaysOutcome(Get(j, "outcome"), DecodeOutcome(AsString(Get(j, "outcome"))).value)
  {
  }

  lemma EventSaid(j: Json, p: Part)
    requires DecodeEvent(j) == Good(p)
    ensures p.record.Some? && SaysCommon(j, p.record.value) && p.record.value.kind.Event?
    ensures var e := p.record.value.kind;
      Get(j, "message") == Some(JStr(e.name)) && SaysLevel(Get(j, "level"), e.kind) && DecodeFields(Get(j, "fields")) == Good(e.fields)
    ensures DecodeOptScope(Get(j, "scope")) == Good(p.scope)
  {
    LevelSaid(j);
  }

  lemma ExitSaid(j: Json, p: Part)
    requires DecodeExit(j) == Good(p)
    ensures p.record.Some? && SaysCommon(j, p.record.value) && p.record.value.kind.ScopeExit? && p.record.value.scope.Some?
    ensures var e := p.record.value.kind;
      SaysOutcome(Get(j, "outcome"), e.outcome) && Get(j, "duration_ns") == Some(JPos(e.durationNs))
    ensures DecodeOptScope(Get(j, "scope")) == Good(p.scope)
  {
    LevelSaid(j);
  }

  /** What a record line says about its record, by its type. */
  predicate SaysKind(j: Json, r: Record) {
    match r.kind
    case Event(level, name, fields) =>
      && Get(j, "type") == Some(JStr("event")) && Get(j, "message") == Some(JStr(name)) && SaysLevel(Get(j, "level"), level)
      && DecodeFields(Get(j, "fields")) == Good(fields)
    case ScopeExit(outcome, durationNs) =>
      && Get(j, "type") == Some(JStr("scope_exit")) && SaysOutcome(Get(j, "outcome"), outcome)
      && Get(j, "duration_ns") == Some(JPos(durationNs)) && r.scope.Some?
  }

  /**
   Nothing is made up or repaired in decoding: whatever entry is accepted, its record and scope are what the members
   of the line say, an exit names its scope, and an embedded scope is the one the record names.
   */
  lemma EntrySaid(j: Json, p: Part)
    requires DecodeEntry(j) == Good(p)
    ensures p.record.Some? ==> SaysCommon(j, p.record.value) && SaysKind(j, p.record.value) && SaysEmbedded(j, p)
    ensures p.record.None? ==>
      p.scope.Some? && Get(j, "type") == Some(JStr("scope")) && Get(j, "scope").Some? && SaysScope(Get(j, "scope").value, p.scope.value)
  {
    var tag := AsString(Get(j, "type"));
    if tag == Some("event") {
      EventSaid(j, p);
      EmbeddedSaid(j);
    } else if tag == Some("scope_exit") {
      ExitSaid(j, p);
      EmbeddedSaid(j);
    } else {
      ScopeSaid(Get(j, "scope").value);
    }
  }

  predicate SaysInt(content: Json, i: I64) {
    if i >= 0 then content == JPos(i) else content == JNeg(i)
  }

  predicate SaysFloat(content: Json, f: Float) {
    match f
    case Finite(x) =>
      || content == JFloat(x)
      || (content.JPos? && content.n as real == x)
      || (content.JNeg? && content.i as real == x)
    case NaN(_) => content == JStr("NaN")
    case PosInf => content == JStr("Infinity")
    case NegInf => content == JStr("-Infinity")
  }

  /** The tag of a field value, and its content. */
  predicate SaysValue(tag: Option<Json>, content: Option<Json>, v: Value) {
    match v
    case String(s) => tag == Some(JStr("String")) && content == Some(JStr(s))
    case Int(i) => tag == Some(JStr("Int")) && content.Some? && SaysInt(content.value, i)
    case Uint(u) => tag == Some(JStr("Uint")) && content == Some(JPos(u))
    case FloatValue(f) => tag == Some(JStr("Float")) && content.Some? && SaysFloat(content.value, f)
    case Bool(b) => tag == Some(JStr("Bool")) && content == Some(JBool(b))
    case DurationMs(ms) => tag == Some(JStr("DurationMs")) && content == Some(JPos(ms))
    case Null => tag == Some(JStr("Null")) && (content == None || content == Some(JNull))
  }

  /** Every field value that is accepted is what its tag and content say. */
  lemma ValueSaid(j: Json, v: Value)
    requires DecodeValue(j) == Good(v)
    ensures SaysValue(Get(j, "type"), Get(j, "value"), v)
  {
  }

  /** Fields are decoded one by one, and none is left out. */
  lemma FieldsSaid(members: map<string, Json>, fields: map<string, Value>)
    requires DecodeFields(Some(JObj(members))) == Good(fields)
    ensures fields.Keys == members.Keys
    ensures forall key :: key in fields ==> SaysValue(Get(members[key], "type"), Get(members[key], "value"), fields[key])
  {
    forall key | key in fields
      ensures SaysValue(Get(members[key], "type"), Get(members[key], "value"), fields[key])
    {
      ValueSaid(members[key], fields[key]);
    }
  }
}
