/** What the five metrics look at, and why moving session events out to spans of
    their own changes none of them. */
module Migration {
  import opened Text
  import opened Otel
  import opened Bytes
  import opened Analyze

  // -------------------------------------------------- views the metrics share

  /** Two events no metric can tell apart. */
  predicate SameView(decode: Decoder, e: Event, e': Event) {
    && e.name == e'.name
    && Elapsed(e) == Elapsed(e')
    && ListAttr(decode, e, "reachable") == ListAttr(decode, e', "reachable")
    && ListAttr(decode, e, "unreachable") == ListAttr(decode, e', "unreachable")
  }

  predicate SameViews(decode: Decoder, es: seq<Event>, es': seq<Event>) {
    |es| == |es'| && forall i :: 0 <= i < |es| ==> SameView(decode, es[i], es'[i])
  }

  predicate SameProbe(decode: Decoder, p: Span, p': Span) {
    IsPublic(p.attrs) == IsPublic(p'.attrs) && EstimateOf(decode, p) == EstimateOf(decode, p')
  }

  predicate SameProbes(decode: Decoder, ps: seq<Span>, ps': seq<Span>) {
    |ps| == |ps'| && forall i :: 0 <= i < |ps| ==> SameProbe(decode, ps[i], ps'[i])
  }

  function EventsOf(t: Trace): seq<Event> {
    if t.session.None? then [] else t.session.value.events
  }

  /** The events with a testbed name; no metric looks at any other. */
  function KnownEvents(es: seq<Event>): seq<Event> {
    if es == [] then [] else KnownAlone(es[0]) + KnownEvents(es[1..])
  }

  function KnownAlone(e: Event): seq<Event> { if e.name in TESTBED_SPAN_NAMES then [e] else [] }

  /** Two traces no metric can tell apart. */
  predicate Alike(decode: Decoder, t: Trace, t': Trace) {
    && SameViews(decode, KnownEvents(EventsOf(t)), KnownEvents(EventsOf(t')))
    && |t.refreshCycles| == |t'.refreshCycles|
    && SameProbes(decode, t.probes, t'.probes)
  }

  lemma {:induction false} FilterViews(decode: Decoder, es: seq<Event>, es': seq<Event>, name: string)
    requires SameViews(decode, es, es')
    ensures SameViews(decode, Filter(es, name), Filter(es', name))
  {
    if es != [] {
      assert SameView(decode, es[0], es'[0]);
      forall i | 0 <= i < |es[1..]| ensures SameView(decode, es[1..][i], es'[1..][i]) {
        assert es[1..][i] == es[i + 1] && es'[1..][i] == es'[i + 1];
      }
      FilterViews(decode, es[1..], es'[1..], name);
    }
  }

  lemma {:induction false} ListedViews(decode: Decoder, es: seq<Event>, es': seq<Event>, key: string)
    requires SameViews(decode, es, es') && key in {"reachable", "unreachable"}
    ensures FirstListed(decode, es, key) == FirstListed(decode, es', key)
    ensures SomeListed(decode, es, key) == SomeListed(decode, es', key)
  {
    assert forall i :: 0 <= i < |es| ==> SameView(decode, es[i], es'[i]);
    if es != [] {
      assert SameView(decode, es[0], es'[0]);
      assert SameViews(decode, es[1..], es'[1..]);
      ListedViews(decode, es[1..], es'[1..], key);
    }
  }

  lemma {:induction false} FlipViews(decode: Decoder, es: seq<Event>, es': seq<Event>, previous: Option<bool>)
    requires SameViews(decode, es, es')
    ensures FirstFlip(decode, es, previous) == FirstFlip(decode, es', previous)
  {
    if es != [] {
      assert SameView(decode, es[0], es'[0]);
      assert SameViews(decode, es[1..], es'[1..]);
      FlipViews(decode, es[1..], es'[1..], Some(ListAttr(decode, es[0], "reachable") != []));
    }
  }

  lemma FilterAlone(e: Event, rest: seq<Event>, name: string)
    requires name in TESTBED_SPAN_NAMES
    ensures Filter(KnownAlone(e) + rest, name) == (if e.name == name then [e] else []) + Filter(rest, name)
  {
    if e.name in TESTBED_SPAN_NAMES {
      assert ([e] + rest)[1..] == rest;
    } else {
      assert [] + rest == rest;
    }
  }

  lemma {:induction false} FilterKnown(es: seq<Event>, name: string)
    requires name in TESTBED_SPAN_NAMES
    ensures Filter(KnownEvents(es), name) == Filter(es, name)
  {
    if es != [] {
      FilterKnown(es[1..], name);
      FilterAlone(es[0], KnownEvents(es[1..]), name);
    }
  }

  lemma {:induction false} KnownAppend(a: seq<Event>, b: seq<Event>)
    ensures KnownEvents(a + b) == KnownEvents(a) + KnownEvents(b)
  {
    if a == [] {
      assert a + b == b;
    } else {
      HeadOfAppend(a, b);
      KnownAppend(a[1..], b);
      AppendAssociates(KnownAlone(a[0]), KnownEvents(a[1..]), KnownEvents(b));
    }
  }

  lemma AloneViews(decode: Decoder, e: Event, e': Event, rest: seq<Event>, rest': seq<Event>)
    requires SameView(decode, e, e') && SameViews(decode, rest, rest')
    ensures SameViews(decode, KnownAlone(e) + rest, KnownAlone(e') + rest')
  {
    var a, a' := KnownAlone(e), KnownAlone(e');
    assert |a| == |a'|;
    forall i | 0 <= i < |a + rest| ensures SameView(decode, (a + rest)[i], (a' + rest')[i]) {
      if i >= |a| {
        assert SameView(decode, rest[i - |a|], rest'[i - |a|]);
      }
    }
  }

  lemma {:induction false} KnownViews(decode: Decoder, es: seq<Event>, es': seq<Event>)
    requires SameViews(decode, es, es')
    ensures SameViews(decode, KnownEvents(es), KnownEvents(es'))
  {
    if es != [] {
      assert SameView(decode, es[0], es'[0]);
      forall i | 0 <= i < |es[1..]| ensures SameView(decode, es[1..][i], es'[1..][i]) {
        assert es[1..][i] == es[i + 1] && es'[1..][i] == es'[i + 1];
      }
      KnownViews(decode, es[1..], es'[1..]);
      AloneViews(decode, es[0], es'[0], KnownEvents(es[1..]), KnownEvents(es'[1..]));
    }
  }

  lemma SessionViews(decode: Decoder, t: Trace, t': Trace, name: string)
    requires Alike(decode, t, t') && name in TESTBED_SPAN_NAMES
    ensures SameViews(decode, SessionEvents(t, name), SessionEvents(t', name))
  {
    assert SessionEvents(t, name) == Filter(EventsOf(t), name);
    assert SessionEvents(t', name) == Filter(EventsOf(t'), name);
    FilterKnown(EventsOf(t), name);
    FilterKnown(EventsOf(t'), name);
    FilterViews(decode, KnownEvents(EventsOf(t)), KnownEvents(EventsOf(t')), name);
  }

  lemma AlikeDetails(decode: Decoder, t: Trace, t': Trace)
    requires Alike(decode, t, t')
    ensures FnrDetail(decode, t) == FnrDetail(decode, t') && FprDetail(decode, t) == FprDetail(decode, t')
    ensures ConvergenceOf(decode, t) == ConvergenceOf(decode, t')
    ensures FlipOf(decode, t) == FlipOf(decode, t')
  {
    SessionViews(decode, t, t', CHANGED);
    var es, es' := SessionEvents(t, CHANGED), SessionEvents(t', CHANGED);
    ListedViews(decode, es, es', "reachable");
    ListedViews(decode, es, es', "unreachable");
    FlipViews(decode, es, es', None);
    assert AnyProbePublic(t) == AnyProbePublic(t') by {
      assert forall i :: 0 <= i < |t.probes| ==> SameProbe(decode, t.probes[i], t'.probes[i]);
    }
  }

  lemma PrefixProbes(decode: Decoder, ps: seq<Span>, ps': seq<Span>)
    requires SameProbes(decode, ps, ps') && ps != []
    ensures SameProbes(decode, ps[..|ps| - 1], ps'[..|ps| - 1])
    ensures EstimateOf(decode, ps[|ps| - 1]) == EstimateOf(decode, ps'[|ps| - 1])
  {
    var n := |ps| - 1;
    assert SameProbe(decode, ps[n], ps'[n]);
    forall i | 0 <= i < n ensures SameProbe(decode, ps[..n][i], ps'[..n][i]) {
      assert SameProbe(decode, ps[i], ps'[i]);
    }
  }

  lemma {:induction false} AlikeProbes(decode: Decoder, r: OverheadReport, ps: seq<Span>, ps': seq<Span>)
    requires SameProbes(decode, ps, ps')
    ensures AddProbes(decode, r, ps) == AddProbes(decode, r, ps')
    ensures SessionTotal(decode, ps) == SessionTotal(decode, ps')
  {
    if ps != [] {
      PrefixProbes(decode, ps, ps');
      AlikeProbes(decode, r, ps[..|ps| - 1], ps'[..|ps| - 1]);
    }
  }

  lemma AlikeOverhead(decode: Decoder, r: OverheadReport, t: Trace, t': Trace)
    requires Alike(decode, t, t')
    ensures AddTrace(decode, r, t) == AddTrace(decode, r, t')
  {
    SessionViews(decode, t, t', "shutdown");
    var es, es' := SessionEvents(t, "shutdown"), SessionEvents(t', "shutdown");
    if es != [] {
      assert SameView(decode, es[|es| - 1], es'[|es| - 1]);
    }
    assert CountTrace(r, t) == CountTrace(r, t');
    AlikeProbes(decode, CountTrace(r, t), t.probes, t'.probes);
  }

  /** The five metrics over a list of traces. */
  datatype Reports = Reports(
    fnr: RateReport, fpr: RateReport, confidence: ConfidenceReport, update: UpdateReport, overhead: OverheadReport
  )

  function AllReports(decode: Decoder, traces: seq<Trace>): Reports {
    Reports(FnrReport(decode, traces), FprReport(decode, traces), ConfidenceOf(decode, traces),
            UpdateOf(decode, traces), OverheadOf(decode, traces))
  }

  predicate AllAlike(decode: Decoder, ts: seq<Trace>, ts': seq<Trace>) {
    |ts| == |ts'| && forall i :: 0 <= i < |ts| ==> Alike(decode, ts[i], ts'[i])
  }

  lemma {:induction false} OverheadAlike(decode: Decoder, ts: seq<Trace>, ts': seq<Trace>)
    requires AllAlike(decode, ts, ts')
    ensures OverheadOf(decode, ts) == OverheadOf(decode, ts')
  {
    if ts != [] {
      var n := |ts| - 1;
      PrefixAlike(decode, ts, ts');
      OverheadAlike(decode, ts[..n], ts'[..n]);
      AlikeOverhead(decode, OverheadOf(decode, ts[..n]), ts[n], ts'[n]);
    }
  }

  lemma PrefixAlike(decode: Decoder, ts: seq<Trace>, ts': seq<Trace>)
    requires AllAlike(decode, ts, ts') && ts != []
    ensures AllAlike(decode, ts[..|ts| - 1], ts'[..|ts| - 1])
    ensures Alike(decode, ts[|ts| - 1], ts'[|ts| - 1])
  {
    var front, front' := ts[..|ts| - 1], ts'[..|ts| - 1];
    forall i | 0 <= i < |front| ensures Alike(decode, front[i], front'[i]) {
      assert Alike(decode, ts[i], ts'[i]);
    }
  }

  lemma RatesAlike(decode: Decoder, ts: seq<Trace>, ts': seq<Trace>)
    requires AllAlike(decode, ts, ts')
    ensures FnrReport(decode, ts) == FnrReport(decode, ts') && FprReport(decode, ts) == FprReport(decode, ts')
  {
    forall i | 0 <= i < |ts|
      ensures FnrDetail(decode, ts[i]) == FnrDetail(decode, ts'[i])
      ensures FprDetail(decode, ts[i]) == FprDetail(decode, ts'[i])
    {
      AlikeDetails(decode, ts[i], ts'[i]);
    }
    assert FnrReport(decode, ts).details == FnrReport(decode, ts').details;
    assert FprReport(decode, ts).details == FprReport(decode, ts').details;
  }

  lemma TimesAlike(decode: Decoder, ts: seq<Trace>, ts': seq<Trace>)
    requires AllAlike(decode, ts, ts')
    ensures ConfidenceOf(decode, ts) == ConfidenceOf(decode, ts')
    ensures UpdateOf(decode, ts) == UpdateOf(decode, ts')
  {
    forall i | 0 <= i < |ts|
      ensures ConvergenceOf(decode, ts[i]) == ConvergenceOf(decode, ts'[i])
      ensures FlipOf(decode, ts[i]) == FlipOf(decode, ts'[i])
    {
      AlikeDetails(decode, ts[i], ts'[i]);
    }
    assert Convergences(decode, ts) == Convergences(decode, ts');
    assert FlipsOf(decode, ts) == FlipsOf(decode, ts');
  }

  lemma AlikeReports(decode: Decoder, ts: seq<Trace>, ts': seq<Trace>)
    requires AllAlike(decode, ts, ts')
    ensures AllReports(decode, ts) == AllReports(decode, ts')
  {
    RatesAlike(decode, ts, ts');
    TimesAlike(decode, ts, ts');
    OverheadAlike(decode, ts, ts');
  }

  // -------------------------------------------------------- format migration

  /** The spans of a file that are not testbed events of their own. */
  function Others(file: seq<RawSpan>): seq<RawSpan> {
    if file == [] then []
    else
      var last := file[|file| - 1];
      Others(file[..|file| - 1]) + (if last.name in TESTBED_SPAN_NAMES then [] else [last])
  }

  lemma {:induction false} NamedAmongOthers(file: seq<RawSpan>, name: string)
    requires name !in TESTBED_SPAN_NAMES
    ensures Named(file, name) == Named(Others(file), name)
  {
    if file != [] {
      var n := |file| - 1;
      NamedAmongOthers(file[..n], name);
      var before := Others(file[..n]);
      assert (before + [file[n]])[..|before|] == before;
      assert before + [] == before && Named(before, name) + [] == Named(before, name);
    }
  }

  lemma {:induction false} NamedOnce(file: seq<RawSpan>, k: nat, name: string)
    requires k < |file| && file[k].name == name
    requires forall i :: 0 <= i < |file| && i != k ==> file[i].name != name
    ensures Named(file, name) == [ToSpan(file[k])]
  {
    var n := |file| - 1;
    if k < n {
      NamedOnce(file[..n], k, name);
    } else {
      NotNamed(file[..n], name);
    }
  }

  lemma {:induction false} NotNamed(file: seq<RawSpan>, name: string)
    requires forall i :: 0 <= i < |file| ==> file[i].name != name
    ensures Named(file, name) == []
  {
    if file != [] {
      NotNamed(file[..|file| - 1], name);
    }
  }

  lemma {:induction false} NamedElsewhere(file: seq<RawSpan>, k: nat, s: RawSpan, name: string)
    requires k < |file| && file[k].name != name && s.name != name
    ensures Named(file[k := s], name) == Named(file, name)
  {
    var n := |file| - 1;
    if k < n {
      assert file[k := s][..n] == file[..n][k := s];
      NamedElsewhere(file[..n], k, s, name);
    } else {
      assert file[k := s][..n] == file[..n];
    }
  }

  /** Equal up to the time stamp. */
  predicate Restamped(es: seq<Event>, es': seq<Event>) {
    |es| == |es'| && forall i :: 0 <= i < |es| ==> es[i].name == es'[i].name && es[i].attrs == es'[i].attrs
  }

  function KnownIn(es: seq<RawEvent>): seq<RawEvent> {
    if es == [] then [] else (if es[0].name in TESTBED_SPAN_NAMES then [es[0]] else []) + KnownIn(es[1..])
  }

  function UnknownIn(es: seq<RawEvent>): seq<RawEvent> {
    if es == [] then [] else (if es[0].name in TESTBED_SPAN_NAMES then [] else [es[0]]) + UnknownIn(es[1..])
  }

  /** The file holds one session span, which is the `k`-th of those that are not
      testbed events. */
  ghost predicate OneSession(file: seq<RawSpan>, k: nat) {
    var others := Others(file);
    && k < |others|
    && others[k].name == SESSION
    && (forall i :: 0 <= i < |others| && i != k ==> others[i].name != SESSION)
  }

  /** `after` is `before` with the last known-name events of its one session span,
      those in `tail`, as top-level spans: anywhere in the file, in order, ahead of
      any testbed spans that were there already, with any start times. Events with
      other names stay where they are. */
  ghost predicate Migrated(before: seq<RawSpan>, after: seq<RawSpan>, k: nat, kept: seq<RawEvent>, tail: seq<RawEvent>) {
    && OneSession(before, k)
    && Others(before)[k].events == kept + tail
    && Others(after) == Others(before)[k := Others(before)[k].(events := kept + UnknownIn(tail))]
    && Restamped(ExtraEvents(after), ToEvents(KnownIn(tail)) + ExtraEvents(before))
  }

  /** The session events of a file with one session span. */
  lemma EventsOfOneSession(file: seq<RawSpan>, k: nat)
    requires OneSession(file, k)
    ensures EventsOf(ParseTrace(file)) == ToEvents(Others(file)[k].events) + ExtraEvents(file)
  {
    LibraryNames();
    NamedAmongOthers(file, SESSION);
    NamedOnce(Others(file), k, SESSION);
    var events := ToEvents(Others(file)[k].events);
    assert events + [] == events;
  }

  lemma {:induction false} KnownExtras(file: seq<RawSpan>)
    ensures KnownEvents(ExtraEvents(file)) == ExtraEvents(file)
  {
    if file != [] {
      var n := |file| - 1;
      KnownExtras(file[..n]);
      KnownAppend(ExtraEvents(file[..n]), OwnEvent(file[n]));
      KnownOwn(file[n]);
    }
  }

  lemma KnownOwn(s: RawSpan)
    ensures KnownEvents(OwnEvent(s)) == OwnEvent(s)
  {
    var own := OwnEvent(s);
    if own != [] {
      assert own[1..] == [] && KnownAlone(own[0]) == own;
      assert own + [] == own;
    }
  }

  /** Every suffix of the known-name events is what some tail of the session holds. */
  lemma {:induction false} AnySuffixCanMove(es: seq<RawEvent>, m: nat) returns (kept: seq<RawEvent>, tail: seq<RawEvent>)
    requires m <= |KnownIn(es)|
    ensures es == kept + tail && KnownIn(tail) == KnownIn(es)[m..]
  {
    if m == 0 {
      return [], es;
    }
    var known := es[0].name in TESTBED_SPAN_NAMES;
    kept, tail := AnySuffixCanMove(es[1..], if known then m - 1 else m);
    kept := [es[0]] + kept;
  }

  lemma KnownHead(e: RawEvent, rest: seq<RawEvent>)
    ensures ToEvents((if e.name in TESTBED_SPAN_NAMES then [e] else []) + rest) == KnownAlone(ToEvent(e)) + ToEvents(rest)
  {
  }

  lemma {:induction false} KnownRaw(es: seq<RawEvent>)
    ensures KnownEvents(ToEvents(es)) == ToEvents(KnownIn(es))
  {
    if es != [] {
      KnownRaw(es[1..]);
      assert ToEvents(es)[1..] == ToEvents(es[1..]);
      KnownHead(es[0], KnownIn(es[1..]));
    }
  }

  lemma {:induction false} UnknownRaw(es: seq<RawEvent>)
    ensures KnownIn(UnknownIn(es)) == []
  {
    if es != [] {
      UnknownRaw(es[1..]);
      UnknownHead(es[0], UnknownIn(es[1..]));
    }
  }

  lemma UnknownHead(e: RawEvent, rest: seq<RawEvent>)
    ensures KnownIn((if e.name in TESTBED_SPAN_NAMES then [] else [e]) + rest) == KnownIn(rest)
  {
    assert ([e] + rest)[1..] == rest;
    assert [] + rest == rest && [] + KnownIn(rest) == KnownIn(rest);
  }

  /** The known events of a session that hosts `kept + tail` beside its own spans. */
  lemma KnownSession(file: seq<RawSpan>, k: nat, kept: seq<RawEvent>, tail: seq<RawEvent>)
    requires OneSession(file, k) && Others(file)[k].events == kept + tail
    ensures KnownEvents(EventsOf(ParseTrace(file)))
         == KnownEvents(ToEvents(kept)) + (ToEvents(KnownIn(tail)) + ExtraEvents(file))
  {
    EventsOfOneSession(file, k);
    assert ToEvents(kept + tail) == ToEvents(kept) + ToEvents(tail);
    KnownAppend(ToEvents(kept) + ToEvents(tail), ExtraEvents(file));
    KnownAppend(ToEvents(kept), ToEvents(tail));
    KnownRaw(tail);
    KnownExtras(file);
    AppendAssociates(KnownEvents(ToEvents(kept)), ToEvents(KnownIn(tail)), ExtraEvents(file));
  }

  lemma StillOneSession(before: seq<RawSpan>, after: seq<RawSpan>, k: nat, kept: seq<RawEvent>, tail: seq<RawEvent>)
    requires Migrated(before, after, k, kept, tail)
    ensures OneSession(after, k) && Others(after)[k].events == kept + UnknownIn(tail)
  {
  }

  lemma MigratedSession(before: seq<RawSpan>, after: seq<RawSpan>, k: nat, kept: seq<RawEvent>, tail: seq<RawEvent>)
    requires Migrated(before, after, k, kept, tail)
    ensures var shared := KnownEvents(ToEvents(kept));
            && KnownEvents(EventsOf(ParseTrace(before))) == shared + (ToEvents(KnownIn(tail)) + ExtraEvents(before))
            && KnownEvents(EventsOf(ParseTrace(after))) == shared + ExtraEvents(after)
  {
    KnownSession(before, k, kept, tail);
    StillOneSession(before, after, k, kept, tail);
    KnownSession(after, k, kept, UnknownIn(tail));
    UnknownRaw(tail);
    assert ToEvents([]) + ExtraEvents(after) == ExtraEvents(after);
  }

  lemma MigratedRest(before: seq<RawSpan>, after: seq<RawSpan>, k: nat, kept: seq<RawEvent>, tail: seq<RawEvent>, name: string)
    requires Migrated(before, after, k, kept, tail)
    requires name !in TESTBED_SPAN_NAMES && name != SESSION
    ensures Named(before, name) == Named(after, name)
  {
    NamedAmongOthers(before, name);
    NamedAmongOthers(after, name);
    NamedElsewhere(Others(before), k, Others(before)[k].(events := kept + UnknownIn(tail)), name);
  }

  /** Behind the same events, events equal up to their stamps look the same. */
  lemma RestampedViews(decode: Decoder, shared: seq<Event>, es: seq<Event>, es': seq<Event>)
    requires Restamped(es', es)
    ensures SameViews(decode, shared + es, shared + es')
  {
    var a, a' := shared + es, shared + es';
    forall i | 0 <= i < |a| ensures SameView(decode, a[i], a'[i]) {
      if i >= |shared| {
        assert a[i] == es[i - |shared|] && a'[i] == es'[i - |shared|];
      }
    }
  }

  lemma MigratedAlike(decode: Decoder, before: seq<RawSpan>, after: seq<RawSpan>, k: nat, kept: seq<RawEvent>, tail: seq<RawEvent>)
    requires Migrated(before, after, k, kept, tail)
    ensures Alike(decode, ParseTrace(before), ParseTrace(after))
    ensures ParseTrace(before).probes == ParseTrace(after).probes
    ensures ParseTrace(before).refreshCycles == ParseTrace(after).refreshCycles
    ensures ParseTrace(before).serverSelections == ParseTrace(after).serverSelections
  {
    MigratedSession(before, after, k, kept, tail);
    RestampedViews(decode, KnownEvents(ToEvents(kept)), ToEvents(KnownIn(tail)) + ExtraEvents(before), ExtraEvents(after));
    LibraryNames();
    MigratedRest(before, after, k, kept, tail, REFRESH);
    MigratedRest(before, after, k, kept, tail, PROBE);
    MigratedRest(before, after, k, kept, tail, SELECTION);
  }

  function ParseAll(files: seq<seq<RawSpan>>): seq<Trace> {
    seq(|files|, i requires 0 <= i < |files| => ParseTrace(files[i]))
  }

  /** Migrating any of the trace files leaves all five metrics as they were. */
  lemma MigrationPreservesMetrics(decode: Decoder, before: seq<seq<RawSpan>>, after: seq<seq<RawSpan>>)
    requires |before| == |after|
    requires forall i :: 0 <= i < |before| ==>
               before[i] == after[i] || exists k, kept, tail :: Migrated(before[i], after[i], k, kept, tail)
    ensures AllReports(decode, ParseAll(before)) == AllReports(decode, ParseAll(after))
  {
    forall i | 0 <= i < |before| ensures Alike(decode, ParseAll(before)[i], ParseAll(after)[i]) {
      if before[i] != after[i] {
        var k, kept, tail :| Migrated(before[i], after[i], k, kept, tail);
        MigratedAlike(decode, before[i], after[i], k, kept, tail);
      }
    }
    AlikeReports(decode, ParseAll(before), ParseAll(after));
  }
}
