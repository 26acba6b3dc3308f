/** OpenTelemetry spans as the scripts see them once a trace line is decoded. */
module Otel {
  import opened Text

  datatype Value = Int(n: int) | Str(s: string) | List(xs: seq<string>)

  type Attrs = map<string, Value>

  /** `json.loads` on an attribute text, for the texts that hold an array of strings.
      Every result holds whatever this function is. */
  type Decoder = string -> Option<seq<string>>

  /** An attribute value is either wrapped with its type or bare. */
  datatype RawValue = Wrapped(kind: string, value: Value) | Bare(value: Value)

  datatype RawAttr = RawAttr(key: string, raw: RawValue)

  datatype RawEvent = RawEvent(name: string, time: string, attrs: seq<RawAttr>)

  datatype RawSpan = RawSpan(name: string, startTime: string, attrs: seq<RawAttr>, events: seq<RawEvent>)

  datatype Event = Event(name: string, time: string, attrs: Attrs)

  datatype Span = Span(attrs: Attrs, events: seq<Event>)

  function Extract(raw: RawValue): Value { raw.value }

  /** The attributes as a dictionary; a repeated key keeps its last value. */
  function Flatten(attrs: seq<RawAttr>): Attrs {
    if attrs == [] then map[]
    else
      var last := attrs[|attrs| - 1];
      Flatten(attrs[..|attrs| - 1])[last.key := Extract(last.raw)]
  }

  method FlattenAttrs(attrs: seq<RawAttr>) returns (out: Attrs)
    ensures out == Flatten(attrs)
  {
    out := map[];
    for i := 0 to |attrs|
      invariant out == Flatten(attrs[..i])
    {
      assert attrs[..i + 1][..i] == attrs[..i];
      out := out[attrs[i].key := Extract(attrs[i].raw)];
    }
    assert attrs[..|attrs|] == attrs;
  }

  /** Attribute `i` is the last one under `key`. */
  predicate IsLastWith(attrs: seq<RawAttr>, key: string, i: int) {
    0 <= i < |attrs| && attrs[i].key == key && forall j :: i < j < |attrs| ==> attrs[j].key != key
  }

  /** A key is in the dictionary exactly when it is in the list, with its last value. */
  lemma {:induction false} FlattenKeepsLast(attrs: seq<RawAttr>, key: string)
    ensures key !in Flatten(attrs) <==> forall i :: 0 <= i < |attrs| ==> attrs[i].key != key
    ensures forall i :: IsLastWith(attrs, key, i) ==> key in Flatten(attrs) && Flatten(attrs)[key] == Extract(attrs[i].raw)
  {
    if attrs != [] {
      var n := |attrs| - 1;
      FlattenKeepsLast(attrs[..n], key);
      assert forall i :: 0 <= i < n ==> attrs[..n][i] == attrs[i];
      assert attrs[n].key != key ==> forall i :: IsLastWith(attrs, key, i) ==> IsLastWith(attrs[..n], key, i);
    }
  }

  lemma {:induction false} LastWith(attrs: seq<RawAttr>, key: string) returns (j: int)
    requires key in Flatten(attrs)
    ensures IsLastWith(attrs, key, j)
  {
    var n := |attrs| - 1;
    if attrs[n].key == key {
      j := n;
    } else {
      j := LastWith(attrs[..n], key);
      assert attrs[..n][j] == attrs[j];
      assert forall i :: 0 <= i < n ==> attrs[..n][i] == attrs[i];
    }
  }

  function Lookup(attrs: Attrs, key: string): Option<Value> {
    if key in attrs then Some(attrs[key]) else None
  }

  /** `_coerce_int(attrs.get(key))`. */
  function CoerceInt(v: Option<Value>): Option<int> {
    match v
    case None => None
    case Some(Int(n)) => Some(n)
    case Some(Str(s)) => ParseInt(s)
    case Some(List(_)) => None
  }

  /** A list attribute, or the array inside a text that starts with a bracket. */
  function AsList(decode: Decoder, v: Option<Value>): seq<string> {
    match v
    case None => []
    case Some(List(xs)) => xs
    case Some(Int(_)) => []
    case Some(Str(s)) =>
      if "[" <= s then
        match decode(s)
        case Some(xs) => xs
        case None => []
      else []
  }

  function ToEvent(e: RawEvent): Event {
    Event(e.name, e.time, Flatten(e.attrs))
  }

  function ToEvents(es: seq<RawEvent>): seq<Event> {
    seq(|es|, i requires 0 <= i < |es| => ToEvent(es[i]))
  }

  function ToSpan(s: RawSpan): Span {
    Span(Flatten(s.attrs), ToEvents(s.events))
  }

  function Elapsed(e: Event): Option<int> {
    CoerceInt(Lookup(e.attrs, "elapsed_ms"))
  }

  function ListAttr(decode: Decoder, e: Event, key: string): seq<string> {
    AsList(decode, Lookup(e.attrs, key))
  }

  // ------------------------------------------------------------ reading values

  /** A number reads the same whether it is stored as a number or as its text; a
      list and a missing value read as none. */
  lemma NumbersRead(n: int, xs: seq<string>)
    ensures CoerceInt(Some(Int(n))) == CoerceInt(Some(Str(DecimalInt(n)))) == Some(n)
    ensures CoerceInt(Some(List(xs))) == CoerceInt(None) == None
  {
    DecimalRoundTrip(n);
  }

  /** A list reads the same whether it is stored as a list or as the text of an array
      that decodes to it; a text that does not start with a bracket, or does not
      decode, and every other value read as empty. */
  lemma ListsRead(decode: Decoder, xs: seq<string>, text: string, n: int)
    ensures "[" <= text && decode(text) == Some(xs) ==>
              AsList(decode, Some(Str(text))) == AsList(decode, Some(List(xs))) == xs
    ensures !("[" <= text) || decode(text) == None ==> AsList(decode, Some(Str(text))) == []
    ensures AsList(decode, Some(Int(n))) == AsList(decode, None) == []
  {
  }
}
