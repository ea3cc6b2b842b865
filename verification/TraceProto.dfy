/** The OTLP trace export request (extensions/otel-traces/proto.go): the encoders as the
    source writes them, and a decoder written from the field numbers of
    opentelemetry-proto that treats unknown fields as proto3 readers do, by skipping them. */
module TraceProto {
  import opened ByteStrings
  import opened Options
  import opened Wire

  newtype int32 = x: int | -0x8000_0000 <= x < 0x8000_0000
  newtype int64 = x: int | -0x8000_0000_0000_0000 <= x < 0x8000_0000_0000_0000

  const ZERO_ID: Bytes := [0, 0, 0, 0, 0, 0, 0, 0]

  type SpanID = b: Bytes | |b| == 8 witness [0, 0, 0, 0, 0, 0, 0, 0]
  type TraceID = b: Bytes | |b| == 16 witness [0, 0, 0, 0, 0, 0, 0, 0, 0, 0, 0, 0, 0, 0, 0, 0]

  datatype SpanRecord = SpanRecord(
    spanID: SpanID, parentSpanID: SpanID, name: Bytes, startNano: int64, endNano: int64, kind: int32,
    attrs: seq<(Bytes, Bytes)>)

  /** "service.name", "wllr" and "wllr/otel-traces" as UTF-8. */
  const SERVICE_NAME: Bytes := [115, 101, 114, 118, 105, 99, 101, 46, 110, 97, 109, 101]
  const WLLR: Bytes := [119, 108, 108, 114]
  const SCOPE_NAME: Bytes := [119, 108, 108, 114, 47, 111, 116, 101, 108, 45, 116, 114, 97, 99, 101, 115]

  /** The conversions uint64(int32) and uint64(int64): two's complement. */
  function ToUint64(x: int): nat
    requires -(TWO_63 as int) <= x < TWO_63
  {
    if x < 0 then x + TWO_64 else x
  }

  function ToInt64(v: nat): int64
    requires v < TWO_64
  {
    if v < TWO_63 then v as int64 else (v - TWO_64) as int64
  }

  /** An enum field keeps the low 32 bits of its varint. */
  function ToInt32(v: nat): int32 {
    var low := v % 0x1_0000_0000;
    if low < 0x8000_0000 then low as int32 else (low - 0x1_0000_0000) as int32
  }

  // ---------- Message layouts ----------

  function AnyValueFields(s: Bytes): seq<Field> {
    [LenField(1, s)]
  }

  function KeyValueFields(key: Bytes, value: Bytes): seq<Field> {
    [LenField(1, key), LenField(2, WireFields(AnyValueFields(value)))]
  }

  function StatusFields(code: nat): seq<Field> {
    [VarintField(2, code)]
  }

  function ScopeFields(): seq<Field> {
    [LenField(1, SCOPE_NAME)]
  }

  function ResourceFields(): seq<Field> {
    [LenField(1, WireFields(KeyValueFields(SERVICE_NAME, WLLR)))]
  }

  function AttributeFields(attrs: seq<(Bytes, Bytes)>): seq<Field> {
    if attrs == [] then []
    else AttributeFields(attrs[..|attrs| - 1])
         + [LenField(9, WireFields(KeyValueFields(attrs[|attrs| - 1].0, attrs[|attrs| - 1].1)))]
  }

  function HeadFields(traceID: TraceID, s: SpanRecord): seq<Field> {
    [LenField(1, traceID), LenField(2, s.spanID)]
    + (if s.parentSpanID == ZERO_ID then [] else [LenField(4, s.parentSpanID)])
    + [LenField(5, s.name), VarintField(6, ToUint64(s.kind as int)),
       Fixed64Field(7, ToUint64(s.startNano as int)), Fixed64Field(8, ToUint64(s.endNano as int))]
  }

  function SpanFields(traceID: TraceID, s: SpanRecord): seq<Field> {
    HeadFields(traceID, s) + AttributeFields(s.attrs) + [LenField(15, WireFields(StatusFields(1)))]
  }

  function SpansFields(traceID: TraceID, spans: seq<SpanRecord>): seq<Field> {
    if spans == [] then []
    else SpansFields(traceID, spans[..|spans| - 1])
         + [LenField(2, WireFields(SpanFields(traceID, spans[|spans| - 1])))]
  }

  function ScopeSpansFields(traceID: TraceID, spans: seq<SpanRecord>): seq<Field> {
    [LenField(1, WireFields(ScopeFields()))] + SpansFields(traceID, spans)
  }

  function ResourceSpansFields(traceID: TraceID, spans: seq<SpanRecord>): seq<Field> {
    [LenField(1, WireFields(ResourceFields())), LenField(2, WireFields(ScopeSpansFields(traceID, spans)))]
  }

  function RequestFields(traceID: TraceID, spans: seq<SpanRecord>): seq<Field> {
    if spans == [] then [] else [LenField(1, WireFields(ResourceSpansFields(traceID, spans)))]
  }

  // ---------- The encoders ----------

  lemma OneField(f: Field)
    ensures WireFields([f]) == WireField(f)
  {
    assert WireFields([f]) == WireField(f) + WireFields([]);
  }

  method EncodeAnyValue(s: Bytes) returns (b: Bytes)
    ensures b == WireFields(AnyValueFields(s))
  {
    hide WireField, WireFields;
    b := AppendLenDelim([], 1, s);
    OneField(LenField(1, s));
  }

  method EncodeKeyValue(key: Bytes, value: Bytes) returns (b: Bytes)
    ensures b == WireFields(KeyValueFields(key, value))
  {
    hide WireField, WireFields;
    b := AppendLenDelim([], 1, key);
    var any := EncodeAnyValue(value);
    b := AppendLenDelim(b, 2, any);
    OneField(LenField(1, key));
    WireFieldsSnoc([LenField(1, key)], LenField(2, any));
    assert KeyValueFields(key, value) == [LenField(1, key)] + [LenField(2, any)];
  }

  method EncodeStatus(code: nat) returns (b: Bytes)
    ensures b == WireFields(StatusFields(code))
  {
    b := AppendVarintField([], 2, code);
    OneField(VarintField(2, code));
  }

  method EncodeInstrumentationScope() returns (b: Bytes)
    ensures b == WireFields(ScopeFields())
  {
    b := AppendLenDelim([], 1, SCOPE_NAME);
    OneField(LenField(1, SCOPE_NAME));
  }

  method EncodeResource() returns (b: Bytes)
    ensures b == WireFields(ResourceFields())
  {
    hide WireField, WireFields;
    var kv := EncodeKeyValue(SERVICE_NAME, WLLR);
    b := AppendLenDelim([], 1, kv);
    OneField(LenField(1, kv));
  }

  method IsZeroSpanID(id: SpanID) returns (zero: bool)
    ensures zero <==> id == ZERO_ID
  {
    for i := 0 to 8
      invariant forall j :: 0 <= j < i ==> id[j] == 0
    {
      if id[i] != 0 {
        return false;
      }
    }
    return true;
  }

  /** The fields before the attributes, appended one at a time. */
  method EncodeSpanHead(traceID: TraceID, s: SpanRecord) returns (b: Bytes)
    ensures b == WireFields(HeadFields(traceID, s))
  {
    hide WireField, WireFields;
    ghost var fs := [LenField(1, traceID)];
    b := AppendLenDelim([], 1, traceID);
    OneField(LenField(1, traceID));
    b := AppendLenDelim(b, 2, s.spanID);
    WireFieldsSnoc(fs, LenField(2, s.spanID));
    fs := fs + [LenField(2, s.spanID)];
    var zero := IsZeroSpanID(s.parentSpanID);
    if !zero {
      b := AppendLenDelim(b, 4, s.parentSpanID);
      WireFieldsSnoc(fs, LenField(4, s.parentSpanID));
      fs := fs + [LenField(4, s.parentSpanID)];
    }
    b := AppendLenDelim(b, 5, s.name);
    WireFieldsSnoc(fs, LenField(5, s.name));
    fs := fs + [LenField(5, s.name)];
    b := AppendVarintField(b, 6, ToUint64(s.kind as int));
    WireFieldsSnoc(fs, VarintField(6, ToUint64(s.kind as int)));
    fs := fs + [VarintField(6, ToUint64(s.kind as int))];
    b := AppendFixed64Field(b, 7, ToUint64(s.startNano as int));
    WireFieldsSnoc(fs, Fixed64Field(7, ToUint64(s.startNano as int)));
    fs := fs + [Fixed64Field(7, ToUint64(s.startNano as int))];
    b := AppendFixed64Field(b, 8, ToUint64(s.endNano as int));
    WireFieldsSnoc(fs, Fixed64Field(8, ToUint64(s.endNano as int)));
    fs := fs + [Fixed64Field(8, ToUint64(s.endNano as int))];
    assert fs == HeadFields(traceID, s);
  }

  method EncodeSpan(traceID: TraceID, s: SpanRecord) returns (b: Bytes)
    ensures b == WireFields(SpanFields(traceID, s))
  {
    hide WireField, WireFields;
    b := EncodeSpanHead(traceID, s);
    ghost var head := HeadFields(traceID, s);
    assert head + AttributeFields([]) == head;
    for i := 0 to |s.attrs|
      invariant b == WireFields(head + AttributeFields(s.attrs[..i]))
    {
      var kv := EncodeKeyValue(s.attrs[i].0, s.attrs[i].1);
      b := AppendLenDelim(b, 9, kv);
      WireFieldsSnoc(head + AttributeFields(s.attrs[..i]), LenField(9, kv));
      assert s.attrs[..i + 1][..i] == s.attrs[..i];
      assert head + AttributeFields(s.attrs[..i + 1]) == (head + AttributeFields(s.attrs[..i])) + [LenField(9, kv)];
    }
    assert s.attrs[..|s.attrs|] == s.attrs;
    var status := EncodeStatus(1);
    b := AppendLenDelim(b, 15, status);
    WireFieldsSnoc(head + AttributeFields(s.attrs), LenField(15, status));
  }

  method EncodeScopeSpans(traceID: TraceID, spans: seq<SpanRecord>) returns (b: Bytes)
    ensures b == WireFields(ScopeSpansFields(traceID, spans))
  {
    hide WireField, WireFields;
    var scope := EncodeInstrumentationScope();
    b := AppendLenDelim([], 1, scope);
    OneField(LenField(1, scope));
    ghost var head := [LenField(1, scope)];
    assert head + SpansFields(traceID, []) == head;
    for i := 0 to |spans|
      invariant b == WireFields(head + SpansFields(traceID, spans[..i]))
    {
      var span := EncodeSpan(traceID, spans[i]);
      b := AppendLenDelim(b, 2, span);
      WireFieldsSnoc(head + SpansFields(traceID, spans[..i]), LenField(2, span));
      assert spans[..i + 1][..i] == spans[..i];
      assert head + SpansFields(traceID, spans[..i + 1])
          == (head + SpansFields(traceID, spans[..i])) + [LenField(2, span)];
    }
    assert spans[..|spans|] == spans;
  }

  method EncodeResourceSpans(traceID: TraceID, spans: seq<SpanRecord>) returns (b: Bytes)
    ensures b == WireFields(ResourceSpansFields(traceID, spans))
  {
    hide WireField, WireFields;
    var resource := EncodeResource();
    b := AppendLenDelim([], 1, resource);
    OneField(LenField(1, resource));
    var scopeSpans := EncodeScopeSpans(traceID, spans);
    b := AppendLenDelim(b, 2, scopeSpans);
    WireFieldsSnoc([LenField(1, resource)], LenField(2, scopeSpans));
    assert ResourceSpansFields(traceID, spans) == [LenField(1, resource)] + [LenField(2, scopeSpans)];
  }

  method EncodeTraceRequest(traceID: TraceID, spans: seq<SpanRecord>) returns (b: Bytes)
    ensures b == WireFields(RequestFields(traceID, spans))
  {
    if |spans| == 0 {
      return [];
    }
    hide WireField, WireFields;
    var resourceSpans := EncodeResourceSpans(traceID, spans);
    b := AppendLenDelim([], 1, resourceSpans);
    OneField(LenField(1, resourceSpans));
  }

  lemma SmallFieldBytes(num: nat, value: nat, data: Bytes)
    requires 1 <= num < 16
    ensures WireField(LenField(num, data)) == [(num * 8 + 2) as byte] + Varint(|data|) + data
    ensures WireField(VarintField(num, value)) == [(num * 8) as byte] + Varint(value)
    ensures WireField(Fixed64Field(num, value)) == [(num * 8 + 1) as byte] + LittleEndian(value, 8)
  {
    SmallVarints(num * 8 + 2);
    SmallVarints(num * 8);
    SmallVarints(num * 8 + 1);
  }

  lemma StatusBytes()
    ensures WireField(LenField(15, WireFields(StatusFields(1)))) == [0x7A, 2, 0x10, 1]
  {
    OneField(VarintField(2, 1));
    SmallFieldBytes(2, 1, []);
    SmallVarints(1);
    SmallFieldBytes(15, 0, WireFields(StatusFields(1)));
    SmallVarints(2);
  }

  function IDBytes(traceID: TraceID, s: SpanRecord): Bytes {
    [0x0A, 16] + traceID + ([0x12, 8] + s.spanID)
    + (if s.parentSpanID == [0, 0, 0, 0, 0, 0, 0, 0] then [] else [0x22, 8] + s.parentSpanID)
  }

  function BodyBytes(s: SpanRecord): Bytes {
    [0x2A] + Varint(|s.name|) + s.name + ([0x30] + Varint(ToUint64(s.kind as int)))
    + ([0x39] + LittleEndian(ToUint64(s.startNano as int), 8))
    + ([0x41] + LittleEndian(ToUint64(s.endNano as int), 8))
  }

  function IDFields(traceID: TraceID, s: SpanRecord): seq<Field> {
    [LenField(1, traceID), LenField(2, s.spanID)]
    + (if s.parentSpanID == ZERO_ID then [] else [LenField(4, s.parentSpanID)])
  }

  function BodyFields(s: SpanRecord): seq<Field> {
    [LenField(5, s.name), VarintField(6, ToUint64(s.kind as int)),
     Fixed64Field(7, ToUint64(s.startNano as int)), Fixed64Field(8, ToUint64(s.endNano as int))]
  }

  lemma OwnIDsLayout(traceID: TraceID, s: SpanRecord)
    ensures WireFields([LenField(1, traceID), LenField(2, s.spanID)]) == [0x0A, 16] + traceID + ([0x12, 8] + s.spanID)
  {
    SmallVarints(16);
    SmallVarints(8);
    hide WireField, WireFields, Varint;
    var one, two := LenField(1, traceID), LenField(2, s.spanID);
    SmallFieldBytes(1, 0, traceID);
    SmallFieldBytes(2, 0, s.spanID);
    OneField(one);
    WireFieldsSnoc([one], two);
    assert [one] + [two] == [one, two];
    assert WireField(one) == [0x0A, 16] + traceID && WireField(two) == [0x12, 8] + s.spanID;
  }

  lemma ParentLayout(s: SpanRecord)
    ensures WireField(LenField(4, s.parentSpanID)) == [0x22, 8] + s.parentSpanID
  {
    SmallVarints(8);
    hide WireField, Varint;
    SmallFieldBytes(4, 0, s.parentSpanID);
  }

  lemma {:induction false} IDLayout(traceID: TraceID, s: SpanRecord)
    ensures WireFields(IDFields(traceID, s)) == IDBytes(traceID, s)
  {
    hide WireField, WireFields;
    var own, four := [LenField(1, traceID), LenField(2, s.spanID)], LenField(4, s.parentSpanID);
    OwnIDsLayout(traceID, s);
    ParentLayout(s);
    WireFieldsSnoc(own, four);
    if s.parentSpanID == ZERO_ID {
      assert IDFields(traceID, s) == own;
    } else {
      assert IDFields(traceID, s) == own + [four];
    }
  }

  lemma {:induction false} BodyLayout(s: SpanRecord)
    ensures WireFields(BodyFields(s)) == BodyBytes(s)
  {
    hide WireField, WireFields, Varint, LittleEndian, ToUint64;
    var fs := BodyFields(s);
    SmallFieldBytes(5, 0, s.name);
    SmallFieldBytes(6, ToUint64(s.kind as int), []);
    SmallFieldBytes(7, ToUint64(s.startNano as int), []);
    SmallFieldBytes(8, ToUint64(s.endNano as int), []);
    OneField(fs[0]);
    WireFieldsSnoc([fs[0]], fs[1]);
    assert [fs[0]] + [fs[1]] == fs[..2];
    WireFieldsSnoc(fs[..2], fs[2]);
    assert fs[..2] + [fs[2]] == fs[..3];
    WireFieldsSnoc(fs[..3], fs[3]);
    assert fs[..3] + [fs[3]] == fs;
  }

  /** The bytes of a span without attributes, tag by tag: trace_id = 1, span_id = 2,
      parent_span_id = 4, name = 5, kind = 6, the timestamps 7 and 8, status = 15. */
  lemma {:induction false} SpanLayout(traceID: TraceID, s: SpanRecord)
    requires s.attrs == []
    ensures WireFields(SpanFields(traceID, s)) == IDBytes(traceID, s) + BodyBytes(s) + [0x7A, 2, 0x10, 1]
  {
    StatusBytes();
    IDLayout(traceID, s);
    BodyLayout(s);
    var ids, body, status := IDFields(traceID, s), BodyFields(s), LenField(15, WireFields(StatusFields(1)));
    assert HeadFields(traceID, s) == ids + body;
    assert SpanFields(traceID, s) == (ids + body) + [status];
    hide WireField, WireFields, HeadFields, IDFields, BodyFields, IDBytes, BodyBytes;
    WireFieldsOfConcat(ids, body);
    WireFieldsSnoc(ids + body, status);
  }

  // ---------- The decoder ----------

  datatype Span = Span(
    traceID: Bytes, spanID: Bytes, parentSpanID: Bytes, name: Bytes, kind: int32, startNano: int64, endNano: int64,
    attrs: seq<(Bytes, Bytes)>, statusCode: nat)

  datatype ScopeSpans = ScopeSpans(scopeName: Bytes, spans: seq<Span>)

  datatype ResourceSpans = ResourceSpans(attrs: seq<(Bytes, Bytes)>, scopeSpans: seq<ScopeSpans>)

  /** An absent parent_span_id means that there is no parent. */
  const EMPTY_SPAN := Span([], [], ZERO_ID, [], 0, 0, 0, [], 0)

  /** The last occurrence of a singular length-delimited field. */
  function Singular(fs: seq<Field>, num: nat, default: Bytes): Bytes {
    if fs == [] then default
    else if fs[|fs| - 1].LenField? && fs[|fs| - 1].num == num then fs[|fs| - 1].data
    else Singular(fs[..|fs| - 1], num, default)
  }

  function SingularVarint(fs: seq<Field>, num: nat, default: nat): nat {
    if fs == [] then default
    else if fs[|fs| - 1].VarintField? && fs[|fs| - 1].num == num then fs[|fs| - 1].value
    else SingularVarint(fs[..|fs| - 1], num, default)
  }

  function DecodeKeyValue(b: Bytes): Option<(Bytes, Bytes)> {
    match ReadFields(b)
    case None => None
    case Some(fs) =>
      match ReadFields(Singular(fs, 2, []))
      case None => None
      case Some(any) => Some((Singular(fs, 1, []), Singular(any, 1, [])))
  }

  function DecodeStatus(b: Bytes): Option<nat> {
    match ReadFields(b)
    case None => None
    case Some(fs) => Some(SingularVarint(fs, 2, 0))
  }

  function ApplySpanField(span: Span, f: Field): Option<Span> {
    match f
    case LenField(1, data) => Some(span.(traceID := data))
    case LenField(2, data) => Some(span.(spanID := data))
    case LenField(4, data) => Some(span.(parentSpanID := data))
    case LenField(5, data) => Some(span.(name := data))
    case VarintField(6, v) => Some(span.(kind := ToInt32(v)))
    case Fixed64Field(7, v) => if v < TWO_64 then Some(span.(startNano := ToInt64(v))) else None
    case Fixed64Field(8, v) => if v < TWO_64 then Some(span.(endNano := ToInt64(v))) else None
    case LenField(9, data) =>
      (match DecodeKeyValue(data)
       case None => None
       case Some(kv) => Some(span.(attrs := span.attrs + [kv])))
    case LenField(15, data) =>
      (match DecodeStatus(data)
       case None => None
       case Some(code) => Some(span.(statusCode := code)))
    case _ => Some(span)
  }

  function ApplySpanFields(span: Span, fs: seq<Field>): Option<Span> {
    if fs == [] then Some(span)
    else match ApplySpanFields(span, fs[..|fs| - 1])
      case None => None
      case Some(before) => ApplySpanField(before, fs[|fs| - 1])
  }

  function DecodeSpan(b: Bytes): Option<Span> {
    match ReadFields(b)
    case None => None
    case Some(fs) => ApplySpanFields(EMPTY_SPAN, fs)
  }

  /** A repeated embedded message: every payload of field `num`, decoded, in order. */
  function Repeated<T>(fs: seq<Field>, num: nat, decode: Bytes -> Option<T>): Option<seq<T>> {
    if fs == [] then Some([])
    else match Repeated(fs[..|fs| - 1], num, decode)
      case None => None
      case Some(before) =>
        var f := fs[|fs| - 1];
        if !f.LenField? || f.num != num then Some(before)
        else match decode(f.data)
          case None => None
          case Some(x) => Some(before + [x])
  }

  function DecodeScopeSpans(b: Bytes): Option<ScopeSpans> {
    match ReadFields(b)
    case None => None
    case Some(fs) =>
      match (ReadFields(Singular(fs, 1, [])), Repeated(fs, 2, DecodeSpan))
      case (Some(scope), Some(spans)) => Some(ScopeSpans(Singular(scope, 1, []), spans))
      case _ => None
  }

  function DecodeResourceSpans(b: Bytes): Option<ResourceSpans> {
    match ReadFields(b)
    case None => None
    case Some(fs) =>
      match ReadFields(Singular(fs, 1, []))
      case None => None
      case Some(resource) =>
        match (Repeated(resource, 1, DecodeKeyValue), Repeated(fs, 2, DecodeScopeSpans))
        case (Some(attrs), Some(scopeSpans)) => Some(ResourceSpans(attrs, scopeSpans))
        case _ => None
  }

  function DecodeRequest(b: Bytes): Option<seq<ResourceSpans>> {
    match ReadFields(b)
    case None => None
    case Some(fs) => Repeated(fs, 1, DecodeResourceSpans)
  }

  // ---------- Decoding inverts encoding ----------

  predicate NumbersOk(f: Field) {
    1 <= f.num < 0x2000_0000 && (f.LenField? || f.value < TWO_64)
  }

  lemma MessageReadsBack(fs: seq<Field>)
    requires |WireFields(fs)| < TWO_63
    requires forall f :: f in fs ==> NumbersOk(f)
    ensures ReadFields(WireFields(fs)) == Some(fs)
  {
    forall f | f in fs
      ensures WellFormed(f)
    {
      if f.LenField? {
        PayloadFits(fs, f);
      }
    }
    FieldsReadBack(fs);
  }

  lemma KeyValueReadsBack(key: Bytes, value: Bytes)
    requires |WireFields(KeyValueFields(key, value))| < TWO_63
    ensures DecodeKeyValue(WireFields(KeyValueFields(key, value))) == Some((key, value))
  {
    var any := AnyValueFields(value);
    var fs := KeyValueFields(key, value);
    MessageReadsBack(fs);
    PayloadFits(fs, fs[1]);
    MessageReadsBack(any);
    hide WireFields, ReadFields;
    assert fs[..1] == [fs[0]];
    assert Singular(fs, 2, []) == fs[1].data;
    assert Singular([fs[0]], 1, []) == key;
    assert Singular(fs, 1, []) == key;
  }

  lemma StatusReadsBack()
    ensures DecodeStatus(WireFields(StatusFields(1))) == Some(1)
  {
    var fs := StatusFields(1);
    OneField(fs[0]);
    VarintIsSelfDelimiting(16, []);
    VarintIsSelfDelimiting(1, []);
    MessageReadsBack(fs);
  }

  /** The span as the receiver of the request should see it. */
  function Received(traceID: TraceID, s: SpanRecord): Span {
    Span(traceID, s.spanID, s.parentSpanID, s.name, s.kind, s.startNano, s.endNano, s.attrs, 1)
  }

  lemma ApplySnoc(span: Span, fs: seq<Field>, f: Field)
    ensures ApplySpanFields(span, fs + [f])
         == match ApplySpanFields(span, fs) case None => None case Some(before) => ApplySpanField(before, f)
  {
    assert (fs + [f])[..|fs|] == fs;
  }

  lemma IntegersSurvive(s: SpanRecord)
    ensures ToInt32(ToUint64(s.kind as int)) == s.kind
    ensures ToInt64(ToUint64(s.startNano as int)) == s.startNano
    ensures ToInt64(ToUint64(s.endNano as int)) == s.endNano
    ensures ToUint64(s.startNano as int) < TWO_64 && ToUint64(s.endNano as int) < TWO_64
  {
  }

  lemma HeadReadsBack(traceID: TraceID, s: SpanRecord)
    ensures ApplySpanFields(EMPTY_SPAN, HeadFields(traceID, s))
         == Some(Received(traceID, s).(attrs := [], statusCode := 0))
  {
    IntegersSurvive(s);
    hide ApplySpanFields, ToInt32, ToInt64, ToUint64;
    var fs: seq<Field> := [];
    var span := EMPTY_SPAN;
    assert ApplySpanFields(span, fs) == Some(span) by {
      NoFields(span);
    }
    ApplySnoc(EMPTY_SPAN, fs, LenField(1, traceID));
    fs := fs + [LenField(1, traceID)];
    ApplySnoc(EMPTY_SPAN, fs, LenField(2, s.spanID));
    fs := fs + [LenField(2, s.spanID)];
    if s.parentSpanID != ZERO_ID {
      ApplySnoc(EMPTY_SPAN, fs, LenField(4, s.parentSpanID));
      fs := fs + [LenField(4, s.parentSpanID)];
    }
    ApplySnoc(EMPTY_SPAN, fs, LenField(5, s.name));
    fs := fs + [LenField(5, s.name)];
    ApplySnoc(EMPTY_SPAN, fs, VarintField(6, ToUint64(s.kind as int)));
    fs := fs + [VarintField(6, ToUint64(s.kind as int))];
    ApplySnoc(EMPTY_SPAN, fs, Fixed64Field(7, ToUint64(s.startNano as int)));
    fs := fs + [Fixed64Field(7, ToUint64(s.startNano as int))];
    ApplySnoc(EMPTY_SPAN, fs, Fixed64Field(8, ToUint64(s.endNano as int)));
    fs := fs + [Fixed64Field(8, ToUint64(s.endNano as int))];
    assert fs == HeadFields(traceID, s);
  }

  lemma NoFields(span: Span)
    ensures ApplySpanFields(span, []) == Some(span)
  {
  }

  lemma {:induction false} AttributesReadBack(traceID: TraceID, s: SpanRecord, attrs: seq<(Bytes, Bytes)>)
    requires forall f :: f in AttributeFields(attrs) ==> f.LenField? && |f.data| < TWO_63
    ensures ApplySpanFields(EMPTY_SPAN, HeadFields(traceID, s) + AttributeFields(attrs))
         == Some(Received(traceID, s).(attrs := attrs, statusCode := 0))
  {
    hide WireFields, ApplySpanFields, DecodeKeyValue, HeadFields;
    var head := HeadFields(traceID, s);
    if attrs == [] {
      HeadReadsBack(traceID, s);
      assert head + AttributeFields(attrs) == head;
    } else {
      var before, last := attrs[..|attrs| - 1], attrs[|attrs| - 1];
      var f := LenField(9, WireFields(KeyValueFields(last.0, last.1)));
      assert f in AttributeFields(attrs);
      assert forall g :: g in AttributeFields(before) ==> g in AttributeFields(attrs);
      AttributesReadBack(traceID, s, before);
      KeyValueReadsBack(last.0, last.1);
      ApplySnoc(EMPTY_SPAN, head + AttributeFields(before), f);
      assert head + AttributeFields(attrs) == (head + AttributeFields(before)) + [f];
      assert attrs == before + [last];
    }
  }

  lemma {:induction false} AttributeFieldsOk(attrs: seq<(Bytes, Bytes)>)
    ensures forall f :: f in AttributeFields(attrs) ==> f.LenField? && NumbersOk(f)
  {
    if attrs == [] {
    } else {
      AttributeFieldsOk(attrs[..|attrs| - 1]);
    }
  }

  lemma {:induction false} SpanFieldsOk(traceID: TraceID, s: SpanRecord)
    ensures forall f :: f in SpanFields(traceID, s) ==> NumbersOk(f)
    ensures forall f :: f in AttributeFields(s.attrs) ==> f.LenField?
  {
    AttributeFieldsOk(s.attrs);
    hide WireFields, AttributeFields;
    assert forall f :: f in HeadFields(traceID, s) ==> NumbersOk(f);
  }

  lemma SpanReadsBack(traceID: TraceID, s: SpanRecord)
    requires |WireFields(SpanFields(traceID, s))| < TWO_63
    ensures DecodeSpan(WireFields(SpanFields(traceID, s))) == Some(Received(traceID, s))
  {
    hide WireFields, ApplySpanFields, AttributeFields, ReadFields, KeyValueFields, DecodeStatus;
    var fs := SpanFields(traceID, s);
    SpanFieldsOk(traceID, s);
    MessageReadsBack(fs);
    hide HeadFields;
    forall f | f in AttributeFields(s.attrs)
      ensures f.LenField? && |f.data| < TWO_63
    {
      assert f in fs;
      PayloadFits(fs, f);
    }
    AttributesReadBack(traceID, s, s.attrs);
    StatusReadsBack();
    ApplySnoc(EMPTY_SPAN, HeadFields(traceID, s) + AttributeFields(s.attrs), LenField(15, WireFields(StatusFields(1))));
  }

  function ReceivedAll(traceID: TraceID, spans: seq<SpanRecord>): seq<Span> {
    seq(|spans|, i requires 0 <= i < |spans| => Received(traceID, spans[i]))
  }

  lemma {:induction false} SpansReadBack(traceID: TraceID, spans: seq<SpanRecord>, head: Field)
    requires head.LenField? && head.num != 2
    requires forall f :: f in SpansFields(traceID, spans) ==> f.LenField? && |f.data| < TWO_63
    ensures Repeated([head] + SpansFields(traceID, spans), 2, DecodeSpan) == Some(ReceivedAll(traceID, spans))
  {
    hide WireFields, SpanFields, Received, DecodeSpan;
    var fs := [head] + SpansFields(traceID, spans);
    if spans == [] {
      assert fs == [head] && fs[..0] == [];
    } else {
      var before, last := spans[..|spans| - 1], spans[|spans| - 1];
      var f := LenField(2, WireFields(SpanFields(traceID, last)));
      assert f in SpansFields(traceID, spans);
      assert forall g :: g in SpansFields(traceID, before) ==> g in SpansFields(traceID, spans);
      SpansReadBack(traceID, before, head);
      SpanReadsBack(traceID, last);
      assert fs[..|fs| - 1] == [head] + SpansFields(traceID, before) && fs[|fs| - 1] == f;
      assert ReceivedAll(traceID, spans) == ReceivedAll(traceID, before) + [Received(traceID, last)];
    }
  }

  lemma {:induction false} SpansFieldsOk(traceID: TraceID, spans: seq<SpanRecord>)
    ensures forall f :: f in SpansFields(traceID, spans) ==> f.LenField? && f.num == 2
  {
    if spans == [] {
    } else {
      SpansFieldsOk(traceID, spans[..|spans| - 1]);
    }
  }

  lemma ScopeReadsBack()
    ensures |WireFields(ScopeFields())| == 18
    ensures ReadFields(WireFields(ScopeFields())) == Some(ScopeFields())
  {
    OneField(LenField(1, SCOPE_NAME));
    MessageReadsBack(ScopeFields());
  }

  /** The first field of a message, when no later field has its number. */
  lemma {:induction false} SingularFirst(first: Field, others: seq<Field>, default: Bytes)
    requires first.LenField? && forall f :: f in others ==> f.num != first.num
    ensures Singular([first] + others, first.num, default) == first.data
  {
    var fs := [first] + others;
    if others == [] {
      assert fs[|fs| - 1] == first;
    } else {
      assert others[|others| - 1] in others;
      assert fs[..|fs| - 1] == [first] + others[..|others| - 1];
      SingularFirst(first, others[..|others| - 1], default);
    }
  }

  lemma {:induction false} ScopeSpansReadBack(traceID: TraceID, spans: seq<SpanRecord>)
    requires |WireFields(ScopeSpansFields(traceID, spans))| < TWO_63
    ensures DecodeScopeSpans(WireFields(ScopeSpansFields(traceID, spans)))
         == Some(ScopeSpans(SCOPE_NAME, ReceivedAll(traceID, spans)))
  {
    var fs := ScopeSpansFields(traceID, spans);
    var head := LenField(1, WireFields(ScopeFields()));
    SpansFieldsOk(traceID, spans);
    MessageReadsBack(fs);
    forall f | f in SpansFields(traceID, spans)
      ensures f.LenField? && |f.data| < TWO_63
    {
      PayloadFits(fs, f);
    }
    SpansReadBack(traceID, spans, head);
    SingularFirst(head, SpansFields(traceID, spans), []);
    ScopeReadsBack();
    SingularFirst(LenField(1, SCOPE_NAME), [], []);
    assert [LenField(1, SCOPE_NAME)] + [] == ScopeFields();
  }

  lemma ResourceIsSmall()
    ensures |WireFields(KeyValueFields(SERVICE_NAME, WLLR))| == 22
    ensures |WireFields(ResourceFields())| == 24
  {
    hide WireFields;
    var kv := KeyValueFields(SERVICE_NAME, WLLR);
    OneField(LenField(1, WLLR));
    OneField(kv[0]);
    WireFieldsSnoc([kv[0]], kv[1]);
    assert kv == [kv[0]] + [kv[1]];
    OneField(LenField(1, WireFields(kv)));
  }

  lemma RepeatedOne<T>(f: Field, num: nat, decode: Bytes -> Option<T>)
    requires f.LenField? && f.num == num && decode(f.data).Some?
    ensures Repeated([f], num, decode) == Some([decode(f.data).value])
  {
    var none: seq<Field> := [];
    assert Repeated(none, num, decode) == Some([]);
    assert [f][..|[f]| - 1] == none;
    assert [] + [decode(f.data).value] == [decode(f.data).value];
  }

  lemma RepeatedSecond<T>(first: Field, f: Field, num: nat, decode: Bytes -> Option<T>)
    requires first.num != num && f.LenField? && f.num == num && decode(f.data).Some?
    ensures Repeated([first, f], num, decode) == Some([decode(f.data).value])
  {
    var none: seq<Field> := [];
    assert Repeated(none, num, decode) == Some([]);
    assert [first][..|[first]| - 1] == none;
    assert Repeated([first], num, decode) == Some([]);
    assert [first, f][..|[first, f]| - 1] == [first];
    assert [] + [decode(f.data).value] == [decode(f.data).value];
  }

  lemma ResourceReadsBack()
    ensures ReadFields(WireFields(ResourceFields())) == Some(ResourceFields())
    ensures Repeated(ResourceFields(), 1, DecodeKeyValue) == Some([(SERVICE_NAME, WLLR)])
  {
    ResourceIsSmall();
    hide WireFields, ReadFields, DecodeKeyValue, KeyValueFields;
    MessageReadsBack(ResourceFields());
    KeyValueReadsBack(SERVICE_NAME, WLLR);
    RepeatedOne(ResourceFields()[0], 1, DecodeKeyValue);
  }

  lemma {:induction false} ResourceSpansReadBack(traceID: TraceID, spans: seq<SpanRecord>)
    requires |WireFields(ResourceSpansFields(traceID, spans))| < TWO_63
    ensures DecodeResourceSpans(WireFields(ResourceSpansFields(traceID, spans)))
         == Some(ResourceSpans([(SERVICE_NAME, WLLR)], [ScopeSpans(SCOPE_NAME, ReceivedAll(traceID, spans))]))
  {
    hide WireFields, ReadFields, DecodeScopeSpans, ResourceFields, ScopeSpansFields, ReceivedAll, Repeated, Singular;
    var fs := ResourceSpansFields(traceID, spans);
    MessageReadsBack(fs);
    PayloadFits(fs, fs[1]);
    ScopeSpansReadBack(traceID, spans);
    ResourceReadsBack();
    SingularFirst(fs[0], [fs[1]], []);
    assert fs == [fs[0]] + [fs[1]];
    RepeatedSecond(fs[0], fs[1], 2, DecodeScopeSpans);
  }

  /** The bytes of a text of ASCII characters. */
  function Ascii(text: string): (b: Bytes) {
    seq(|text|, i requires 0 <= i < |text| => (if text[i] < 128 as char then text[i] as int else 63) as byte)
  }

  lemma NamesAreAscii()
    ensures SERVICE_NAME == Ascii("service.name") && WLLR == Ascii("wllr") && SCOPE_NAME == Ascii("wllr/otel-traces")
  {
  }

  /** The request decodes to exactly the recorded spans, in order, each with the trace ID,
      its IDs, parent, name, kind, timestamps and ordered attributes.  A Go slice is shorter
      than 2^63 bytes, which is all that is asked of the request. */
  lemma {:induction false} RequestRoundTrip(traceID: TraceID, spans: seq<SpanRecord>)
    requires |WireFields(RequestFields(traceID, spans))| < TWO_63
    ensures DecodeRequest(WireFields(RequestFields(traceID, spans)))
         == Some(if spans == [] then []
                 else [ResourceSpans([(Ascii("service.name"), Ascii("wllr"))],
                                     [ScopeSpans(Ascii("wllr/otel-traces"), ReceivedAll(traceID, spans))])])
  {
    NamesAreAscii();
    hide WireFields, ReadFields, DecodeResourceSpans, ResourceSpansFields, ReceivedAll;
    var fs := RequestFields(traceID, spans);
    MessageReadsBack(fs);
    if spans != [] {
      PayloadFits(fs, fs[0]);
      ResourceSpansReadBack(traceID, spans);
      RepeatedOne(fs[0], 1, DecodeResourceSpans);
    }
  }
}
