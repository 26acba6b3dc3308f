/** Spans read back from Jaeger, exported as the analyzer's input. */
module Export {
  import opened Text
  import opened Otel
  import opened Bytes
  import opened Analyze
  import opened Migration

  datatype Entry = Entry(key: string, value: Value)

  datatype JaegerEvent = JaegerEvent(name: string, timeNs: string, attrs: seq<Entry>)

  datatype JaegerSpan = JaegerSpan(name: string, traceId: string, attrs: seq<Entry>, events: seq<JaegerEvent>)

  /** The span query keeps scalar event attributes only. */
  predicate FromQuery(s: JaegerSpan) {
    forall i :: 0 <= i < |s.events| ==> ScalarAttrs(s.events[i])
  }

  predicate ScalarAttrs(e: JaegerEvent) {
    forall j :: 0 <= j < |e.attrs| ==> !e.attrs[j].value.List?
  }

  /** A string of digits turns into a number; every other value is kept. */
  function Normal(v: Value): Value {
    if v.Str? && IsDigits(v.s) then Int(NatOf(v.s)) else v
  }

  function ExportAttr(e: Entry): RawAttr {
    RawAttr(e.key,
            match e.value
            case List(_) => Wrapped("STRINGSLICE", e.value)
            case Int(_) => Wrapped("INT64", e.value)
            case Str(s) => if IsDigits(s) then Wrapped("INT64", Int(NatOf(s))) else Wrapped("STRING", e.value))
  }

  function ExportAttrs(es: seq<Entry>): seq<RawAttr> {
    seq(|es|, i requires 0 <= i < |es| => ExportAttr(es[i]))
  }

  function ExportEvent(e: JaegerEvent): RawEvent { RawEvent(e.name, e.timeNs, ExportAttrs(e.attrs)) }

  function ExportSpan(s: JaegerSpan): RawSpan {
    RawSpan(s.name, "", ExportAttrs(s.attrs),
            seq(|s.events|, i requires 0 <= i < |s.events| => ExportEvent(s.events[i])))
  }

  function ExportFile(spans: seq<JaegerSpan>): seq<RawSpan> {
    seq(|spans|, i requires 0 <= i < |spans| => ExportSpan(spans[i]))
  }

  method ExportEntries(entries: seq<Entry>) returns (attrs: seq<RawAttr>)
    ensures attrs == ExportAttrs(entries)
  {
    attrs := [];
    for i := 0 to |entries|
      invariant attrs == ExportAttrs(entries[..i])
    {
      var v := entries[i].value;
      if v.List? {
        attrs := attrs + [RawAttr(entries[i].key, Wrapped("STRINGSLICE", v))];
      } else if v.Int? || (v.Str? && IsDigits(v.s)) {
        attrs := attrs + [RawAttr(entries[i].key, Wrapped("INT64", if v.Int? then v else Int(NatOf(v.s))))];
      } else {
        attrs := attrs + [RawAttr(entries[i].key, Wrapped("STRING", v))];
      }
    }
    assert entries[..|entries|] == entries;
  }

  method ExportTraceJsonl(spans: seq<JaegerSpan>) returns (file: seq<RawSpan>)
    requires forall i :: 0 <= i < |spans| ==> FromQuery(spans[i])
    ensures file == ExportFile(spans)
  {
    file := [];
    for i := 0 to |spans|
      invariant file == ExportFile(spans[..i])
    {
      var s := spans[i];
      var otelAttrs := ExportEntries(s.attrs);
      var otelEvents := [];
      for e := 0 to |s.events|
        invariant |otelEvents| == e && forall x :: 0 <= x < e ==> otelEvents[x] == ExportEvent(s.events[x])
      {
        var evAttrs := ExportEntries(s.events[e].attrs);
        otelEvents := otelEvents + [RawEvent(s.events[e].name, s.events[e].timeNs, evAttrs)];
      }
      assert otelEvents == ExportSpan(s).events;
      file := file + [RawSpan(s.name, "", otelAttrs, otelEvents)];
    }
    assert spans[..|spans|] == spans;
  }

  // -------------------------------------------------------------- round trip

  /** The same spans written down without touching any value. */
  function PlainAttrs(es: seq<Entry>): seq<RawAttr> {
    seq(|es|, i requires 0 <= i < |es| => RawAttr(es[i].key, Bare(es[i].value)))
  }

  function PlainEvent(e: JaegerEvent): RawEvent { RawEvent(e.name, e.timeNs, PlainAttrs(e.attrs)) }

  function PlainSpan(s: JaegerSpan): RawSpan {
    RawSpan(s.name, "", PlainAttrs(s.attrs),
            seq(|s.events|, i requires 0 <= i < |s.events| => PlainEvent(s.events[i])))
  }

  function PlainFile(spans: seq<JaegerSpan>): seq<RawSpan> {
    seq(|spans|, i requires 0 <= i < |spans| => PlainSpan(spans[i]))
  }

  function NormalAttrs(attrs: Attrs): Attrs {
    map key | key in attrs :: Normal(attrs[key])
  }

  function NormalEvent(e: Event): Event { e.(attrs := NormalAttrs(e.attrs)) }

  function NormalEvents(es: seq<Event>): seq<Event> {
    seq(|es|, i requires 0 <= i < |es| => NormalEvent(es[i]))
  }

  function NormalSpan(s: Span): Span { Span(NormalAttrs(s.attrs), NormalEvents(s.events)) }

  function NormalSpans(ss: seq<Span>): seq<Span> {
    seq(|ss|, i requires 0 <= i < |ss| => NormalSpan(ss[i]))
  }

  function NormalTrace(t: Trace): Trace {
    Trace(if t.session.None? then None else Some(NormalSpan(t.session.value)),
          NormalSpans(t.refreshCycles), NormalSpans(t.probes),
          seq(|t.serverSelections|, i requires 0 <= i < |t.serverSelections| => NormalAttrs(t.serverSelections[i])))
  }

  /** Normalising twice is normalising once, and it keeps how a value reads as a
      number and as a list. */
  lemma NormalKeepsReadings(decode: Decoder, v: Value)
    ensures Normal(Normal(v)) == Normal(v)
    ensures CoerceInt(Some(Normal(v))) == CoerceInt(Some(v))
    ensures AsList(decode, Some(Normal(v))) == AsList(decode, Some(v))
    ensures Normal(v) == Str("public") <==> v == Str("public")
  {
    if v.Str? && IsDigits(v.s) {
      assert IsDigit(v.s[0]) && !IsDigit('[') && !IsDigit('p');
    }
  }

  lemma {:induction false} FlattenExported(es: seq<Entry>)
    ensures Flatten(ExportAttrs(es)) == NormalAttrs(Flatten(PlainAttrs(es)))
  {
    if es != [] {
      var n := |es| - 1;
      assert ExportAttrs(es)[..n] == ExportAttrs(es[..n]) && PlainAttrs(es)[..n] == PlainAttrs(es[..n]);
      FlattenExported(es[..n]);
    }
  }

  lemma SpanExported(s: JaegerSpan)
    ensures ToSpan(ExportSpan(s)) == NormalSpan(ToSpan(PlainSpan(s)))
    ensures AsEvent(ExportSpan(s)) == NormalEvent(AsEvent(PlainSpan(s)))
  {
    FlattenExported(s.attrs);
    forall i | 0 <= i < |s.events|
      ensures ToEvent(ExportEvent(s.events[i])) == NormalEvent(ToEvent(PlainEvent(s.events[i])))
    {
      FlattenExported(s.events[i].attrs);
    }
    assert ToSpan(ExportSpan(s)).events == NormalSpan(ToSpan(PlainSpan(s))).events;
  }

  lemma {:induction false} NamedExported(spans: seq<JaegerSpan>, name: string)
    ensures Named(ExportFile(spans), name) == NormalSpans(Named(PlainFile(spans), name))
  {
    if spans != [] {
      var n := |spans| - 1;
      assert ExportFile(spans)[..n] == ExportFile(spans[..n]) && PlainFile(spans)[..n] == PlainFile(spans[..n]);
      NamedExported(spans[..n], name);
      SpanExported(spans[n]);
    }
  }

  lemma {:induction false} ExtraExported(spans: seq<JaegerSpan>)
    ensures ExtraEvents(ExportFile(spans)) == NormalEvents(ExtraEvents(PlainFile(spans)))
  {
    if spans != [] {
      var n := |spans| - 1;
      assert ExportFile(spans)[..n] == ExportFile(spans[..n]) && PlainFile(spans)[..n] == PlainFile(spans[..n]);
      ExtraExported(spans[..n]);
      SpanExported(spans[n]);
    }
  }

  lemma MergeNormal(session: Option<Span>, extra: seq<Event>)
    ensures Merge(if session.None? then None else Some(NormalSpan(session.value)), NormalEvents(extra))
         == (var m := Merge(session, extra); if m.None? then None else Some(NormalSpan(m.value)))
  {
    var base := session.GetOr(Span(map[], []));
    assert NormalEvents(base.events + extra) == NormalEvents(base.events) + NormalEvents(extra);
    assert NormalAttrs(map[]) == map[];
  }

  lemma LastExported(spans: seq<JaegerSpan>)
    ensures var last := LastNamed(PlainFile(spans), SESSION);
            LastNamed(ExportFile(spans), SESSION) == if last.None? then None else Some(NormalSpan(last.value))
  {
    NamedExported(spans, SESSION);
  }

  lemma SessionExported(spans: seq<JaegerSpan>)
    ensures var m := ParseTrace(PlainFile(spans)).session;
            ParseTrace(ExportFile(spans)).session == if m.None? then None else Some(NormalSpan(m.value))
  {
    LastExported(spans);
    ExtraExported(spans);
    MergeNormal(LastNamed(PlainFile(spans), SESSION), ExtraEvents(PlainFile(spans)));
  }

  lemma SelectionsExported(spans: seq<JaegerSpan>)
    ensures var selections := ParseTrace(PlainFile(spans)).serverSelections;
            ParseTrace(ExportFile(spans)).serverSelections
            == seq(|selections|, i requires 0 <= i < |selections| => NormalAttrs(selections[i]))
  {
    NamedExported(spans, SELECTION);
  }

  /** Export and parse: the trace parsed from an export is the trace of the same
      spans, in the same order, with every attribute normalised. */
  lemma ExportParseRoundTrip(spans: seq<JaegerSpan>)
    ensures ParseTrace(ExportFile(spans)) == NormalTrace(ParseTrace(PlainFile(spans)))
  {
    SessionExported(spans);
    NamedExported(spans, REFRESH);
    NamedExported(spans, PROBE);
    SelectionsExported(spans);
  }

  lemma LookupNormal(decode: Decoder, attrs: Attrs, key: string)
    ensures CoerceInt(Lookup(NormalAttrs(attrs), key)) == CoerceInt(Lookup(attrs, key))
    ensures AsList(decode, Lookup(NormalAttrs(attrs), key)) == AsList(decode, Lookup(attrs, key))
    ensures Lookup(NormalAttrs(attrs), key) == Some(Str("public")) <==> Lookup(attrs, key) == Some(Str("public"))
  {
    if key in attrs {
      NormalKeepsReadings(decode, attrs[key]);
    }
  }

  /** A text of digits alone is no JSON array. */
  ghost predicate DigitsAreNoArray(decode: Decoder) {
    forall s :: IsDigits(s) ==> decode(s) == None
  }

  lemma {:induction false} RequestedNormal(decode: Decoder, es: seq<Event>)
    ensures RequestedBytes(NormalEvents(es)) == RequestedBytes(es)
  {
    if es != [] {
      LookupNormal(decode, es[0].attrs, "num_bytes");
      assert NormalEvents(es)[1..] == NormalEvents(es[1..]);
      RequestedNormal(decode, es[1..]);
    }
  }

  lemma HasEventNormal(es: seq<Event>, name: string)
    ensures HasEvent(NormalEvents(es), name) == HasEvent(es, name)
  {
    assert forall i :: 0 <= i < |es| ==> NormalEvents(es)[i].name == es[i].name;
  }

  lemma ProbeNormal(decode: Decoder, p: Span)
    requires DigitsAreNoArray(decode)
    ensures SameProbe(decode, p, NormalSpan(p))
  {
    LookupNormal(decode, p.attrs, "autonat.reachability");
    RequestedNormal(decode, p.events);
    HasEventNormal(p.events, "dial_data_requested");
    HasEventNormal(p.events, "dial_back_received");
    assert NormalSpan(p).events == [] <==> p.events == [];
    assert ProbeAddrs(decode, NormalAttrs(p.attrs)) == ProbeAddrs(decode, p.attrs);
  }

  lemma TraceNormal(decode: Decoder, t: Trace)
    requires DigitsAreNoArray(decode)
    ensures Alike(decode, t, NormalTrace(t))
  {
    var es := EventsOf(t);
    assert EventsOf(NormalTrace(t)) == NormalEvents(es);
    forall i | 0 <= i < |es| ensures SameView(decode, es[i], NormalEvents(es)[i]) {
      LookupNormal(decode, es[i].attrs, "elapsed_ms");
      LookupNormal(decode, es[i].attrs, "reachable");
      LookupNormal(decode, es[i].attrs, "unreachable");
    }
    KnownViews(decode, es, NormalEvents(es));
    forall i | 0 <= i < |t.probes| ensures SameProbe(decode, t.probes[i], NormalTrace(t).probes[i]) {
      ProbeNormal(decode, t.probes[i]);
    }
  }

  /** No metric notices that its traces went through the export. */
  lemma ExportPreservesMetrics(decode: Decoder, runs: seq<seq<JaegerSpan>>)
    requires DigitsAreNoArray(decode)
    ensures AllReports(decode, ParseAll(seq(|runs|, i requires 0 <= i < |runs| => ExportFile(runs[i]))))
         == AllReports(decode, ParseAll(seq(|runs|, i requires 0 <= i < |runs| => PlainFile(runs[i]))))
  {
    var exported := ParseAll(seq(|runs|, i requires 0 <= i < |runs| => ExportFile(runs[i])));
    var plain := ParseAll(seq(|runs|, i requires 0 <= i < |runs| => PlainFile(runs[i])));
    forall i | 0 <= i < |runs| ensures Alike(decode, plain[i], exported[i]) {
      ExportParseRoundTrip(runs[i]);
      TraceNormal(decode, plain[i]);
    }
    AlikeReports(decode, plain, exported);
  }
}
