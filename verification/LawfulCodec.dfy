/** The laws asked of the codec can be met: floats and JSON values have texts that can be told apart. */
module LawfulCodec {
  import opened Seqs
  import opened Texts
  import opened Otlp

  // ---------------------------------------------------------------- floats

  function FloatText(d: Float64): string {
    match d
    case NaN => "n"
    case PosInf => "p"
    case NegInf => "m"
    case NegZero => "z"
    case Finite(bits) => PrintNat(bits)
  }

  function ReadFloat(s: string): Option<Float64> {
    if s == "n" then Some(NaN)
    else if s == "p" then Some(PosInf)
    else if s == "m" then Some(NegInf)
    else if s == "z" then Some(NegZero)
    else match ParseNat(s)
      case Some(n) => if n < 0x1_0000_0000_0000_0000 then Some(Finite(n)) else None
      case None => None
  }

  lemma ReadFloatText(d: Float64)
    ensures ReadFloat(FloatText(d)) == Some(d)
  {
    if d.Finite? {
      ParsePrintNat(d.bits);
    }
  }

  // ---------------------------------------------------------------- JSON values as text

  /** A string, marked so that its end can be seen. */
  function Quote(s: string): string {
    if s == "" then ";" else "." + [s[0]] + Quote(s[1..])
  }

  lemma {:induction false} QuoteEnds(a: string, b: string, x: string, y: string)
    requires Quote(a) + x == Quote(b) + y
    ensures a == b && x == y
  {
    assert (Quote(a) + x)[0] == Quote(a)[0] && (Quote(b) + y)[0] == Quote(b)[0];
    if a == "" {
      assert (Quote(a) + x)[1..] == x && (Quote(b) + y)[1..] == y;
    } else {
      assert (Quote(a) + x)[1] == a[0] && (Quote(b) + y)[1] == b[0];
      assert (Quote(a) + x)[2..] == Quote(a[1..]) + x && (Quote(b) + y)[2..] == Quote(b[1..]) + y;
      QuoteEnds(a[1..], b[1..], x, y);
      assert a == [a[0]] + a[1..] && b == [b[0]] + b[1..];
    }
  }

  /** Values as they come out of JSON: no integers. */
  predicate IsJson(v: Value) {
    match v
    case Int(_) => false
    case List(items) => forall i | 0 <= i < |items| :: IsJson(items[i])
    case Obj(fields) => forall k | k in fields :: IsJson(fields[k])
    case _ => true
  }

  ghost predicate Lists(keys: seq<string>, names: set<string>) {
    forall k :: k in keys <==> k in names
  }

  lemma {:induction false} CanBeListed(names: set<string>)
    ensures exists keys :: Lists(keys, names)
    decreases |names|
  {
    if names == {} {
      assert Lists([], names);
    } else {
      var k :| k in names;
      CanBeListed(names - {k});
      var rest :| Lists(rest, names - {k});
      assert Lists([k] + rest, names);
    }
  }

  /** The keys of an object, in some order. */
  ghost function KeysOf(fields: map<string, Value>): (keys: seq<string>)
    ensures Lists(keys, fields.Keys)
  {
    CanBeListed(fields.Keys);
    var keys :| Lists(keys, fields.Keys);
    keys
  }

  /** The first character tells the kind of value. */
  function Mark(v: Value): char {
    match v
    case Null => '0'
    case Str(_) => 's'
    case Int(_) => 'i'
    case Num(_) => 'd'
    case Bool(b) => if b then 't' else 'f'
    case List(_) => '['
    case Obj(_) => '{'
  }

  ghost function Text(v: Value): string
    decreases v, 2, 0
  {
    [Mark(v)] + Body(v)
  }

  ghost function Body(v: Value): string
    decreases v, 1, 0
  {
    match v
    case Str(s) => Quote(s)
    case Num(d) => Quote(FloatText(d))
    case List(items) => ItemsText(v, 0)
    case Obj(fields) => FieldsText(v, KeysOf(fields))
    case _ => ""
  }

  ghost function ItemsText(v: Value, i: nat): string
    requires v.List? && i <= |v.items|
    decreases v, 0, |v.items| - i
  {
    if i == |v.items| then ['.'] + "" else [','] + (Text(v.items[i]) + ItemsText(v, i + 1))
  }

  ghost function FieldsText(v: Value, keys: seq<string>): string
    requires v.Obj? && forall k | k in keys :: k in v.fields
    decreases v, 0, |keys|
  {
    if keys == [] then ['.'] + ""
    else [','] + (Quote(keys[0]) + (Text(v.fields[keys[0]]) + FieldsText(v, keys[1..])))
  }

  lemma Head(m: char, p: string, x: string, n: char, q: string, y: string)
    requires [m] + p + x == [n] + q + y
    ensures m == n && p + x == q + y
  {
    assert ([m] + p + x)[0] == m && ([n] + q + y)[0] == n;
    assert ([m] + p + x)[1..] == p + x && ([n] + q + y)[1..] == q + y;
  }

  /** Texts say where they end, and different values have different texts. */
  lemma {:induction false} TextEnds(a: Value, b: Value, x: string, y: string)
    requires IsJson(a) && IsJson(b) && Text(a) + x == Text(b) + y
    ensures a == b && x == y
    decreases a, 1, 0
  {
    Head(Mark(a), Body(a), x, Mark(b), Body(b), y);
    assert "" + x == x && "" + y == y;
    match a
    case Str(s) => QuoteEnds(s, b.s, x, y);
    case Num(d) =>
      QuoteEnds(FloatText(d), FloatText(b.d), x, y);
      ReadFloatText(d);
      ReadFloatText(b.d);
    case List(items) =>
      ItemsEnd(a, b, 0, x, y);
      assert items == items[0..] == b.items[0..] == b.items;
    case Obj(fields) =>
      FieldsEnd(a, b, KeysOf(fields), KeysOf(b.fields), x, y);
      assert fields == b.fields;
    case _ =>
  }

  lemma Associate(a: string, b: string, c: string)
    ensures a + b + c == a + (b + c)
  {
  }

  lemma SplitFirst(items: seq<Value>, i: nat)
    requires i < |items|
    ensures items[i..] == [items[i]] + items[i + 1..]
  {
  }

  lemma {:induction false} ItemsEnd(a: Value, b: Value, i: nat, x: string, y: string)
    requires a.List? && b.List? && IsJson(a) && IsJson(b) && i <= |a.items| && i <= |b.items|
    requires ItemsText(a, i) + x == ItemsText(b, i) + y
    ensures a.items[i..] == b.items[i..] && x == y
    decreases a, 0, |a.items| - i
  {
    var p := if i == |a.items| then "" else Text(a.items[i]) + ItemsText(a, i + 1);
    var q := if i == |b.items| then "" else Text(b.items[i]) + ItemsText(b, i + 1);
    Head(if i == |a.items| then '.' else ',', p, x, if i == |b.items| then '.' else ',', q, y);
    if i < |a.items| {
      var s, t := ItemsText(a, i + 1), ItemsText(b, i + 1);
      Associate(Text(a.items[i]), s, x);
      Associate(Text(b.items[i]), t, y);
      TextEnds(a.items[i], b.items[i], s + x, t + y);
      ItemsEnd(a, b, i + 1, x, y);
      SplitFirst(a.items, i);
      SplitFirst(b.items, i);
    } else {
      assert "" + x == x && "" + y == y;
    }
  }

  lemma Regroup(a: string, b: string, c: string, d: string)
    ensures a + (b + c) + d == a + (b + (c + d))
  {
  }

  ghost function FieldText(v: Value, keys: seq<string>): string
    requires v.Obj? && forall k | k in keys :: k in v.fields
  {
    if keys == [] then "" else Quote(keys[0]) + (Text(v.fields[keys[0]]) + FieldsText(v, keys[1..]))
  }

  lemma {:induction false} FieldsEnd(a: Value, b: Value, ka: seq<string>, kb: seq<string>, x: string, y: string)
    requires a.Obj? && b.Obj? && IsJson(a) && IsJson(b)
    requires (forall k | k in ka :: k in a.fields) && (forall k | k in kb :: k in b.fields)
    requires FieldsText(a, ka) + x == FieldsText(b, kb) + y
    ensures ka == kb && x == y && forall k | k in ka :: k in b.fields && a.fields[k] == b.fields[k]
    decreases a, 0, |ka|
  {
    var p, q := FieldText(a, ka), FieldText(b, kb);
    Head(if ka == [] then '.' else ',', p, x, if kb == [] then '.' else ',', q, y);
    if ka != [] {
      var k, l, va, vb := ka[0], kb[0], a.fields[ka[0]], b.fields[kb[0]];
      var s, t := FieldsText(a, ka[1..]), FieldsText(b, kb[1..]);
      Regroup(Quote(k), Text(va), s, x);
      Regroup(Quote(l), Text(vb), t, y);
      QuoteEnds(k, l, Text(va) + (s + x), Text(vb) + (t + y));
      TextEnds(va, vb, s + x, t + y);
      FieldsEnd(a, b, ka[1..], kb[1..], x, y);
      assert ka == [k] + ka[1..] && kb == [l] + kb[1..];
    } else {
      assert "" + x == x && "" + y == y;
    }
  }

  ghost predicate IsTextOf(s: string, v: Value) {
    IsJson(v) && Text(v) == s
  }

  ghost function ReadText(s: string): Option<Value> {
    if exists v :: IsTextOf(s, v) then
      var v :| IsTextOf(s, v);
      Some(v)
    else None
  }

  lemma ReadTextBack(v: Value)
    requires IsJson(v)
    ensures ReadText(Text(v)) == Some(v)
  {
    assert IsTextOf(Text(v), v);
    var w := ReadText(Text(v)).value;
    assert Text(w) + "" == Text(v) + "";
    TextEnds(w, v, "", "");
  }

  // ---------------------------------------------------------------- the codec

  lemma {:induction false} ImageIsJson(c: Codec, v: Value)
    ensures IsJson(ThroughJson(c, v))
  {
    match v
    case List(items) =>
      forall i | 0 <= i < |items| ensures IsJson(ThroughJson(c, items[i])) {
        ImageIsJson(c, items[i]);
      }
    case Obj(fields) =>
      forall k | k in fields ensures IsJson(ThroughJson(c, fields[k])) {
        ImageIsJson(c, fields[k]);
      }
    case _ =>
  }

  /** The image depends on the codec only through the conversion of integers. */
  lemma {:induction false} SameImage(c: Codec, d: Codec, v: Value)
    requires c.toFloat == d.toFloat
    ensures ThroughJson(c, v) == ThroughJson(d, v)
  {
    match v
    case List(items) =>
      forall i | 0 <= i < |items| ensures ThroughJson(c, items[i]) == ThroughJson(d, items[i]) {
        SameImage(c, d, items[i]);
      }
      assert ThroughJson(c, v).items == ThroughJson(d, v).items;
    case Obj(fields) =>
      forall k | k in fields ensures ThroughJson(c, fields[k]) == ThroughJson(d, fields[k]) {
        SameImage(c, d, fields[k]);
      }
      assert ThroughJson(c, v).fields == ThroughJson(d, v).fields;
    case _ =>
  }

  lemma SomeCodecIsLawful() returns (c: Codec)
    ensures Lawful(c)
  {
    var base := Codec(FloatText, ReadFloat, _ => "", _ => None, _ => NegZero);
    c := base.(marshal := v => Text(ThroughJson(base, v)), unmarshal := s => ReadText(s));
    forall d ensures c.parseFloat(c.formatFloat(d)) == Some(d) {
      ReadFloatText(d);
    }
    forall v | Marshalable(v) ensures c.unmarshal(c.marshal(v)) == Some(ThroughJson(c, v)) {
      ImageIsJson(base, v);
      ReadTextBack(ThroughJson(base, v));
      SameImage(base, c, v);
    }
  }
}
