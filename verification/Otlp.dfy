/**
 The request as it arrives, and how its ids and attribute values become text and are read back.

 Float formatting and JSON text are library code: they are parameters, the fields of Codec, with the laws of
 Lawful. JSON is a value tree; its numbers are doubles, so an integer inside an array or list comes back as one.
 */
module Otlp {
  import opened Seqs
  import opened Texts

  type Int64 = i: int | -0x8000_0000_0000_0000 <= i < 0x8000_0000_0000_0000
  type Uint64 = i: int | 0 <= i < 0x1_0000_0000_0000_0000

  /** The finite doubles other than negative zero go by their bits. */
  datatype Float64 = NaN | PosInf | NegInf | NegZero | Finite(bits: Uint64)

  /** Unset stands for an absent value and for a value with no case set. */
  datatype AnyValue =
    | Unset
    | StringV(s: string) | IntV(i: Int64) | DoubleV(d: Float64) | BoolV(b: bool) | BytesV(bytes: seq<Byte>)
    | ArrayV(values: seq<AnyValue>) | KvListV(fields: seq<KeyValue>)

  datatype KeyValue = KeyValue(key: string, value: AnyValue)

  datatype Event = Event(name: string, time: Uint64, dropped: nat, attributes: seq<KeyValue>)

  datatype Link = Link(
    traceId: seq<Byte>, spanId: seq<Byte>, traceState: string, dropped: nat, flags: nat, attributes: seq<KeyValue>)

  datatype Span = Span(
    traceId: seq<Byte>, spanId: seq<Byte>, parentSpanId: seq<Byte>, name: string, kind: int,
    startTime: Uint64, endTime: Uint64, statusCode: int, statusMessage: string, flags: nat,
    attributes: seq<KeyValue>, events: seq<Event>, links: seq<Link>)

  datatype Scope = Scope(name: string, version: string, attributes: seq<KeyValue>)

  datatype ScopeSpans = ScopeSpans(scope: Scope, schemaUrl: string, spans: seq<Span>)

  datatype ResourceSpans = ResourceSpans(resource: seq<KeyValue>, schemaUrl: string, scopeSpans: seq<ScopeSpans>)

  type Request = seq<ResourceSpans>

  // ---------------------------------------------------------------- ids

  const ROOT_SPAN_PARENT_ID := "0000000000000000"

  function FormatTraceID(id: seq<Byte>): string {
    if |id| == 0 then "" else Hex(id)
  }

  function FormatSpanID(id: seq<Byte>): string {
    if |id| == 0 then ROOT_SPAN_PARENT_ID else Hex(id)
  }

  /** Trace ids keep their identity. */
  lemma TraceIDInjective(a: seq<Byte>, b: seq<Byte>)
    ensures FormatTraceID(a) == FormatTraceID(b) <==> a == b
  {
    HexInjective(a, b);
  }

  predicate IsZeroSpanID(id: seq<Byte>) {
    id == [] || id == [0, 0, 0, 0, 0, 0, 0, 0]
  }

  lemma ZerosInHex()
    ensures Hex([0, 0, 0, 0, 0, 0, 0, 0]) == ROOT_SPAN_PARENT_ID
  {
  }

  /** Span ids keep their identity, except that an empty id is the same key as eight zero bytes. */
  lemma SpanIDInjective(a: seq<Byte>, b: seq<Byte>)
    ensures FormatSpanID(a) == FormatSpanID(b) <==> a == b || (IsZeroSpanID(a) && IsZeroSpanID(b))
  {
    var zeros: seq<Byte> := [0, 0, 0, 0, 0, 0, 0, 0];
    ZerosInHex();
    HexInjective(a, b);
    HexInjective(a, zeros);
    HexInjective(zeros, b);
  }

  /** The int64 conversion of a uint64: two's complement. */
  function ToInt64(u: Uint64): Int64 {
    if u < 0x8000_0000_0000_0000 then u else u - 0x1_0000_0000_0000_0000
  }

  function SpanKind(kind: int): string {
    match kind
    case 0 => "UNSPECIFIED"
    case 1 => "SPAN_KIND_INTERNAL"
    case 2 => "SPAN_KIND_SERVER"
    case 3 => "SPAN_KIND_CLIENT"
    case 4 => "SPAN_KIND_PRODUCER"
    case 5 => "SPAN_KIND_CONSUMER"
    case _ => PrintInt(kind)
  }

  // ---------------------------------------------------------------- attribute values

  /** What a query hands out: the interface{} of Go, the JSON value of the client. */
  datatype Value =
    | Null | Str(s: string) | Int(i: int) | Num(d: Float64) | Bool(b: bool)
    | List(items: seq<Value>) | Obj(fields: map<string, Value>)

  datatype AttrType = TString | TInt | TDouble | TBool | TBytes | TArray | TKvList

  datatype Codec = Codec(
    formatFloat: Float64 -> string,
    parseFloat: string -> Option<Float64>,
    marshal: Value -> string,
    unmarshal: string -> Option<Value>,
    toFloat: int -> Float64)

  /** json.Marshal refuses NaN and the infinities. */
  predicate Marshalable(v: Value) {
    match v
    case Num(d) => !d.NaN? && !d.PosInf? && !d.NegInf?
    case List(items) => forall i | 0 <= i < |items| :: Marshalable(items[i])
    case Obj(fields) => forall k | k in fields :: Marshalable(fields[k])
    case _ => true
  }

  /** A value after a trip through JSON text. */
  function ThroughJson(c: Codec, v: Value): Value {
    match v
    case Int(i) => Num(c.toFloat(i))
    case List(items) => List(seq(|items|, i requires 0 <= i < |items| => ThroughJson(c, items[i])))
    case Obj(fields) => Obj(map k | k in fields :: ThroughJson(c, fields[k]))
    case _ => v
  }

  ghost predicate Lawful(c: Codec) {
    && (forall d :: c.parseFloat(c.formatFloat(d)) == Some(d))
    && (forall v | Marshalable(v) :: c.unmarshal(c.marshal(v)) == Some(ThroughJson(c, v)))
  }

  /** anyValueToInterface. */
  function Plain(v: AnyValue): Value
    decreases v
  {
    match v
    case Unset => Null
    case StringV(s) => Str(s)
    case IntV(i) => Int(i)
    case DoubleV(d) => Num(d)
    case BoolV(b) => Bool(b)
    case BytesV(bytes) => Str(Hex(bytes))
    case ArrayV(values) => List(seq(|values|, i requires 0 <= i < |values| => Plain(values[i])))
    case KvListV(fields) => Obj(PlainFields(fields))
  }

  /** keyValueListToMap: a later field replaces an earlier one with the same key. */
  function PlainFields(fields: seq<KeyValue>): map<string, Value>
    decreases fields
  {
    if fields == [] then map[]
    else
      var last := fields[|fields| - 1];
      PlainFields(fields[..|fields| - 1])[last.key := Plain(last.value)]
  }

  /** No later field has the key of field i. */
  ghost predicate IsLastField(fields: seq<KeyValue>, i: nat)
    requires i < |fields|
  {
    forall j | i < j < |fields| :: fields[j].key != fields[i].key
  }

  lemma {:induction false} PlainFieldAt(fields: seq<KeyValue>, i: nat)
    requires i < |fields| && IsLastField(fields, i)
    ensures fields[i].key in PlainFields(fields) && PlainFields(fields)[fields[i].key] == Plain(fields[i].value)
    decreases |fields|
  {
    if i < |fields| - 1 {
      var init := fields[..|fields| - 1];
      assert fields[|fields| - 1].key != fields[i].key;
      assert forall j | 0 <= j < |init| :: init[j] == fields[j];
      PlainFieldAt(init, i);
    }
  }

  lemma {:induction false} PlainFieldGiven(fields: seq<KeyValue>, k: string)
    requires k in PlainFields(fields)
    ensures exists i :: 0 <= i < |fields| && fields[i].key == k
    decreases |fields|
  {
    if fields[|fields| - 1].key != k {
      var init := fields[..|fields| - 1];
      PlainFieldGiven(init, k);
      var i :| 0 <= i < |init| && init[i].key == k;
      assert fields[i] == init[i];
    }
  }

  lemma {:induction false} PlainFieldKept(fields: seq<KeyValue>, i: nat)
    requires i < |fields|
    ensures fields[i].key in PlainFields(fields)
    decreases |fields|
  {
    if i < |fields| - 1 {
      assert fields[..|fields| - 1][i] == fields[i];
      PlainFieldKept(fields[..|fields| - 1], i);
    }
  }

  /** The loop of keyValueListToMap: the keys of the fields, each with its last value. */
  method KeyValueListToMap(fields: seq<KeyValue>) returns (result: map<string, Value>)
    ensures result == PlainFields(fields)
    ensures forall k | k in result :: exists i :: 0 <= i < |fields| && fields[i].key == k
    ensures forall i | 0 <= i < |fields| :: fields[i].key in result
    ensures forall i | 0 <= i < |fields| && IsLastField(fields, i) :: result[fields[i].key] == Plain(fields[i].value)
  {
    result := map[];
    for i := 0 to |fields|
      invariant result == PlainFields(fields[..i])
    {
      assert fields[..i + 1][..i] == fields[..i];
      result := result[fields[i].key := Plain(fields[i].value)];
    }
    assert fields[..|fields|] == fields;
    forall k | k in result ensures exists i :: 0 <= i < |fields| && fields[i].key == k {
      PlainFieldGiven(fields, k);
    }
    forall i | 0 <= i < |fields| ensures fields[i].key in result {
      PlainFieldKept(fields, i);
    }
    forall i | 0 <= i < |fields| && IsLastField(fields, i) ensures result[fields[i].key] == Plain(fields[i].value) {
      PlainFieldAt(fields, i);
    }
  }

  /** formatAttributeValue, when it succeeds. */
  function Format(c: Codec, v: AnyValue): (AttrType, string) {
    match v
    case Unset => (TString, "")
    case StringV(s) => (TString, s)
    case IntV(i) => (TInt, PrintInt(i))
    case DoubleV(d) => (TDouble, c.formatFloat(d))
    case BoolV(b) => (TBool, if b then "true" else "false")
    case BytesV(bytes) => (TBytes, Hex(bytes))
    case ArrayV(_) => (TArray, c.marshal(Plain(v)))
    case KvListV(_) => (TKvList, c.marshal(Plain(v)))
  }

  /** formatAttributeValue fails exactly when JSON text is needed and refuses the value. */
  predicate Formattable(v: AnyValue) {
    (v.ArrayV? || v.KvListV?) ==> Marshalable(Plain(v))
  }

  /** parseAttributeValue. */
  function Parse(c: Codec, typ: AttrType, text: string): Value {
    match typ
    case TInt => (match ParseInt64(text) case Some(i) => Int(i) case None => Str(text))
    case TDouble => (match c.parseFloat(text) case Some(d) => Num(d) case None => Str(text))
    case TBool =>
      if text in ["1", "t", "T", "TRUE", "true", "True"] then Bool(true)
      else if text in ["0", "f", "F", "FALSE", "false", "False"] then Bool(false)
      else Str(text)
    case TArray =>
      (match c.unmarshal(text)
       case Some(v) => if v.List? || v.Null? then v else List([Str(text)])
       case None => List([Str(text)]))
    case TKvList =>
      (match c.unmarshal(text)
       case Some(v) => if v.Obj? || v.Null? then v else Obj(map["value" := Str(text)])
       case None => Obj(map["value" := Str(text)]))
    case _ => Str(text)
  }

  // ---------------------------------------------------------------- what is read back

  /** What integers are inside an array or list: themselves before it becomes JSON text, doubles after it was read. */
  datatype Numbers = Whole | Doubles(c: Codec)

  function InNumbers(n: Numbers, i: int): Value {
    if n.Whole? then Int(i) else Num(n.c.toFloat(i))
  }

  /** o is v as it is inside an array or list: element by element, key by key, the last field counting, bytes in hex. */
  ghost predicate InJson(n: Numbers, v: AnyValue, o: Value)
    decreases v
  {
    match v
    case Unset => o == Null
    case StringV(s) => o == Str(s)
    case IntV(i) => o == InNumbers(n, i)
    case DoubleV(d) => o == Num(d)
    case BoolV(b) => o == Bool(b)
    case BytesV(bytes) => o.Str? && IsHexOf(o.s, bytes)
    case ArrayV(values) =>
      && o.List? && |o.items| == |values|
      && forall i | 0 <= i < |values| :: InJson(n, values[i], o.items[i])
    case KvListV(fields) =>
      && o.Obj?
      && (forall k | k in o.fields :: exists i :: 0 <= i < |fields| && fields[i].key == k)
      && (forall i | 0 <= i < |fields| :: fields[i].key in o.fields)
      && (forall i | 0 <= i < |fields| && IsLastField(fields, i) ::
           InJson(n, fields[i].value, o.fields[fields[i].key]))
  }

  /** o is what a query shows for an attribute v: integers are themselves at top level, an unset value is no text. */
  ghost predicate ReadAs(c: Codec, v: AnyValue, o: Value) {
    match v
    case Unset => o == Str("")
    case IntV(i) => o == Int(i)
    case _ => InJson(Doubles(c), v, o)
  }

  /** The value as it is written, or as it is read again. */
  function Carried(n: Numbers, v: Value): Value {
    if n.Whole? then v else ThroughJson(n.c, v)
  }

  lemma {:induction false} PlainInJson(n: Numbers, v: AnyValue)
    ensures InJson(n, v, Carried(n, Plain(v)))
    decreases v
  {
    match v
    case BytesV(bytes) => HexReads(bytes);
    case ArrayV(values) =>
      forall i | 0 <= i < |values| ensures InJson(n, values[i], Carried(n, Plain(values[i]))) {
        PlainInJson(n, values[i]);
      }
    case KvListV(fields) => FieldsInJson(n, v);
    case _ =>
  }

  lemma {:induction false} FieldsInJson(n: Numbers, v: AnyValue)
    requires v.KvListV?
    ensures InJson(n, v, Carried(n, Plain(v)))
    decreases v, 0
  {
    var fields, o := v.fields, Carried(n, Plain(v));
    forall k | k in o.fields ensures exists i :: 0 <= i < |fields| && fields[i].key == k {
      PlainFieldGiven(fields, k);
    }
    forall i | 0 <= i < |fields| ensures fields[i].key in o.fields {
      PlainFieldKept(fields, i);
    }
    forall i | 0 <= i < |fields| && IsLastField(fields, i) ensures InJson(n, fields[i].value, o.fields[fields[i].key]) {
      PlainFieldAt(fields, i);
      PlainInJson(n, fields[i].value);
    }
  }

  /** Writing a value and reading it back shows it. */
  lemma AttributeRoundTrip(c: Codec, v: AnyValue)
    requires Lawful(c) && Formattable(v)
    ensures ReadAs(c, v, Parse(c, Format(c, v).0, Format(c, v).1))
  {
    match v
    case IntV(i) => ParsePrintInt(i);
    case BoolV(b) =>
      assert "true" in ["1", "t", "T", "TRUE", "true", "True"];
      assert "false" in ["0", "f", "F", "FALSE", "false", "False"];
    case BytesV(bytes) => HexReads(bytes);
    case ArrayV(_) => PlainInJson(Doubles(c), v);
    case KvListV(_) => PlainInJson(Doubles(c), v);
    case _ =>
  }

  lemma DigitsOfOne(a: char, b: char, c: char, d: char)
    requires HexValue(a).Some? && HexValue(b).Some? && HexValue(c).Some? && HexValue(d).Some?
    requires 16 * HexValue(a).value + HexValue(b).value == 16 * HexValue(c).value + HexValue(d).value
    ensures a == c && b == d
  {
  }

  lemma HexOfOne(a: string, b: string, bytes: seq<Byte>)
    requires IsHexOf(a, bytes) && IsHexOf(b, bytes)
    ensures a == b
  {
    forall i | 0 <= i < |bytes| ensures a[2 * i] == b[2 * i] && a[2 * i + 1] == b[2 * i + 1] {
      DigitsOfOne(a[2 * i], a[2 * i + 1], b[2 * i], b[2 * i + 1]);
    }
    forall i | 0 <= i < |a| ensures a[i] == b[i] {
      assert i == 2 * (i / 2) || i == 2 * (i / 2) + 1;
    }
  }

  lemma {:induction false} LastFieldOf(fields: seq<KeyValue>, k: string) returns (i: nat)
    requires exists j :: 0 <= j < |fields| && fields[j].key == k
    ensures i < |fields| && fields[i].key == k && IsLastField(fields, i)
    decreases |fields|
  {
    var n := |fields| - 1;
    if fields[n].key == k {
      i := n;
    } else {
      i := LastFieldOf(fields[..n], k);
      forall j | i < j < |fields| ensures fields[j].key != fields[i].key {
        assert j < n ==> fields[..n][j] == fields[j];
      }
    }
  }

  /** Only one value is what comes back. */
  lemma {:induction false} OneInJson(n: Numbers, v: AnyValue, o: Value, p: Value)
    requires InJson(n, v, o) && InJson(n, v, p)
    ensures o == p
    decreases v
  {
    match v
    case BytesV(bytes) => HexOfOne(o.s, p.s, bytes);
    case ArrayV(values) =>
      forall i | 0 <= i < |values| ensures o.items[i] == p.items[i] {
        OneInJson(n, values[i], o.items[i], p.items[i]);
      }
    case KvListV(fields) =>
      forall k ensures k in o.fields <==> k in p.fields {
      }
      forall k | k in o.fields ensures o.fields[k] == p.fields[k] {
        var i := LastFieldOf(fields, k);
        OneInJson(n, fields[i].value, o.fields[k], p.fields[k]);
      }
      assert o.fields == p.fields;
    case _ =>
  }

  lemma OneIsRead(c: Codec, v: AnyValue, o: Value, p: Value)
    requires ReadAs(c, v, o) && ReadAs(c, v, p)
    ensures o == p
  {
    if !v.Unset? && !v.IntV? {
      OneInJson(Doubles(c), v, o, p);
    }
  }

  // ---------------------------------------------------------------- what is searched

  /** The text is a value's own, as it is stored and searched for. */
  ghost predicate IsAttrText(c: Codec, v: AnyValue, text: string) {
    match v
    case Unset => text == ""
    case StringV(s) => text == s
    case IntV(i) => text == PrintInt(i)
    case DoubleV(d) => text == c.formatFloat(d)
    case BoolV(b) => text == if b then "true" else "false"
    case BytesV(bytes) => IsHexOf(text, bytes)
    case _ => exists o :: InJson(Whole, v, o) && text == c.marshal(o)
  }

  lemma ContainerTextIs(c: Codec, v: AnyValue, text: string)
    requires v.ArrayV? || v.KvListV?
    ensures IsAttrText(c, v, text) <==> text == c.marshal(Plain(v))
  {
    PlainInJson(Whole, v);
    if o :| InJson(Whole, v, o) && text == c.marshal(o) {
      OneInJson(Whole, v, o, Plain(v));
    }
  }

  lemma AttrTextIs(c: Codec, v: AnyValue, text: string)
    ensures IsAttrText(c, v, text) <==> text == Format(c, v).1
  {
    match v
    case BytesV(bytes) =>
      HexReads(bytes);
      if IsHexOf(text, bytes) {
        HexOfOne(text, Hex(bytes), bytes);
      }
    case ArrayV(_) => ContainerTextIs(c, v, text);
    case KvListV(_) => ContainerTextIs(c, v, text);
    case _ =>
  }

  // ---------------------------------------------------------------- what cannot be written

  predicate IsRough(d: Float64) {
    d.NaN? || d.PosInf? || d.NegInf?
  }

  /** Somewhere in the value, in a field that counts, is a number JSON has no text for. */
  ghost predicate HasRough(v: AnyValue) {
    match v
    case DoubleV(d) => IsRough(d)
    case ArrayV(values) => exists i :: 0 <= i < |values| && HasRough(values[i])
    case KvListV(fields) => exists i :: 0 <= i < |fields| && IsLastField(fields, i) && HasRough(fields[i].value)
    case _ => false
  }

  lemma {:induction false} MarshalableIsSmooth(v: AnyValue)
    ensures Marshalable(Plain(v)) <==> !HasRough(v)
  {
    match v
    case ArrayV(values) =>
      forall i | 0 <= i < |values| ensures Marshalable(Plain(values[i])) <==> !HasRough(values[i]) {
        MarshalableIsSmooth(values[i]);
      }
      assert forall i | 0 <= i < |values| :: Plain(v).items[i] == Plain(values[i]);
    case KvListV(fields) =>
      var m := PlainFields(fields);
      forall i | 0 <= i < |fields| && IsLastField(fields, i)
        ensures fields[i].key in m && (Marshalable(m[fields[i].key]) <==> !HasRough(fields[i].value))
      {
        PlainFieldAt(fields, i);
        MarshalableIsSmooth(fields[i].value);
      }
      if !HasRough(v) {
        forall k | k in m ensures Marshalable(m[k]) {
          PlainFieldGiven(fields, k);
          var i := LastFieldOf(fields, k);
        }
      }
    case _ =>
  }

  /** A value cannot be written if and only if it is an array or list with such a number in it. */
  lemma FormattableIs(v: AnyValue)
    ensures Formattable(v) <==> v.DoubleV? || !HasRough(v)
  {
    MarshalableIsSmooth(v);
  }

  // ---------------------------------------------------------------- service names

  function ValueString(c: Codec, v: AnyValue): string {
    match v
    case StringV(s) => s
    case IntV(i) => PrintInt(i)
    case DoubleV(d) => c.formatFloat(d)
    case BoolV(b) => if b then "true" else "false"
    case _ => ""
  }

  /** The first service.name attribute decides. */
  function ResourceServiceName(c: Codec, attributes: seq<KeyValue>): string {
    if attributes == [] then "unknown"
    else if attributes[0].key == "service.name" then ValueString(c, attributes[0].value)
    else ResourceServiceName(c, attributes[1..])
  }

  /** The text of a service name. */
  ghost predicate IsServiceText(c: Codec, v: AnyValue, text: string) {
    if v.BytesV? || v.ArrayV? || v.KvListV? then text == "" else IsAttrText(c, v, text)
  }

  ghost predicate FirstServiceName(attributes: seq<KeyValue>, i: nat) {
    && i < |attributes| && attributes[i].key == "service.name"
    && forall j | 0 <= j < i :: attributes[j].key != "service.name"
  }

  /** The text of the first service.name attribute, or "unknown" if there is none. */
  ghost predicate IsServiceName(c: Codec, attributes: seq<KeyValue>, name: string) {
    && ((forall a | a in attributes :: a.key != "service.name") ==> name == "unknown")
    && forall i: nat | FirstServiceName(attributes, i) :: IsServiceText(c, attributes[i].value, name)
  }

  lemma FirstServiceNameNext(a: KeyValue, rest: seq<KeyValue>, i: nat)
    requires a.key != "service.name"
    ensures FirstServiceName([a] + rest, i + 1) <==> FirstServiceName(rest, i)
  {
    var attributes := [a] + rest;
    assert forall j | 0 < j < |attributes| :: attributes[j] == rest[j - 1];
    if FirstServiceName(attributes, i + 1) {
      forall j | 0 <= j < i ensures rest[j].key != "service.name" {
        assert attributes[j + 1] == rest[j];
      }
    }
  }

  lemma ServiceNameCons(c: Codec, a: KeyValue, rest: seq<KeyValue>, name: string)
    ensures IsServiceName(c, [a] + rest, name) <==>
      if a.key == "service.name" then IsServiceText(c, a.value, name) else IsServiceName(c, rest, name)
  {
    var attributes := [a] + rest;
    if a.key == "service.name" {
      assert a in attributes && FirstServiceName(attributes, 0);
    } else {
      forall i: nat ensures FirstServiceName(attributes, i + 1) <==> FirstServiceName(rest, i) {
        FirstServiceNameNext(a, rest, i);
      }
      forall i: nat | FirstServiceName(rest, i) ensures attributes[i + 1] == rest[i] {
      }
      assert forall i: nat | FirstServiceName(attributes, i) :: i > 0 && FirstServiceName(rest, i - 1);
    }
  }

  lemma {:induction false} ServiceNameIs(c: Codec, attributes: seq<KeyValue>, name: string)
    ensures IsServiceName(c, attributes, name) <==> name == ResourceServiceName(c, attributes)
  {
    if attributes != [] {
      assert attributes == [attributes[0]] + attributes[1..];
      ServiceNameCons(c, attributes[0], attributes[1..], name);
      if attributes[0].key != "service.name" {
        ServiceNameIs(c, attributes[1..], name);
      }
    }
  }
}
