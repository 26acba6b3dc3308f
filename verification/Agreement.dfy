/** The assertion evaluator and the analyzer, two readers of one trace file, agree. */
module Agreement {
  import opened Text
  import opened Otel
  import opened Analyze
  import opened Assertions

  /** The assertion scenarios use: some address was reported reachable. */
  const REPORTED_REACHABLE := Assertion(HasEvent, CHANGED, [NotEmpty("reachable")], "", true)

  /** The time at which that first happened. */
  const FIRST_REACHABLE := Assertion(Info, CHANGED, [NotEmpty("reachable")], "elapsed_ms", true)

  /** A change event that lists a reachable address. */
  predicate Shows(decode: Decoder, e: Event) {
    e.name == CHANGED && ListAttr(decode, e, "reachable") != []
  }

  predicate ShowsIn(decode: Decoder, es: seq<Event>) {
    exists i :: 0 <= i < |es| && Shows(decode, es[i])
  }

  lemma FlatKeepsView(lib: Library, e: Event, spanName: string)
    ensures Matches(lib, FlatOf(e, spanName), CHANGED, [NotEmpty("reachable")]) <==> Shows(lib.decode, e)
    ensures CoerceInt(Lookup(FlatOf(e, spanName), "elapsed_ms")) == Elapsed(e)
    ensures Elapsed(e).Some? ==> Lookup(FlatOf(e, spanName), "elapsed_ms") == Some(Int(Elapsed(e).value))
  {
    var flat := FlatOf(e, spanName);
    assert Lookup(flat, "type") == Some(Str(e.name));
    assert Lookup(flat, "reachable") == Lookup(e.attrs, "reachable");
    var filters := [NotEmpty("reachable")];
    assert Holds(lib, flat, filters[0]) <==> ListAttr(lib.decode, e, "reachable") != [];
  }

  /** A testbed span that lists a reachable address is read by the evaluator: its
      attributes are not empty and it is no library span. */
  lemma OwnEventIsRead(decode: Decoder, s: RawSpan)
    ensures ShowsIn(decode, EventsIn(s))
       <==> ShowsIn(decode, ToEvents(s.events)) || (s.name in TESTBED_SPAN_NAMES && Shows(decode, AsEvent(s)))
  {
    LibraryNames();
    var es := ToEvents(s.events);
    var read := s.name !in LIBRARY_SPANS && Flatten(s.attrs) != map[];
    if read {
      assert EventsIn(s) == es + [AsEvent(s)];
      assert EventsIn(s)[|es|] == AsEvent(s);
    } else {
      assert EventsIn(s) == es;
    }
    assert forall i :: 0 <= i < |es| ==> EventsIn(s)[i] == es[i];
    assert Shows(decode, AsEvent(s)) ==> s.name == CHANGED && s.name in TESTBED_SPAN_NAMES;
    assert Shows(decode, AsEvent(s)) ==> Flatten(s.attrs) != map[];
  }

  predicate SpanShows(decode: Decoder, s: RawSpan) { ShowsIn(decode, EventsIn(s)) }

  lemma SpanMatches(lib: Library, s: RawSpan)
    ensures |Matched(lib, REPORTED_REACHABLE, FlatsIn(s))| > 0 <==> SpanShows(lib.decode, s)
  {
    MatchedSome(lib, REPORTED_REACHABLE, FlatsIn(s));
    var es := EventsIn(s);
    forall i | 0 <= i < |es|
      ensures Matches(lib, FlatsIn(s)[i], CHANGED, [NotEmpty("reachable")]) <==> Shows(lib.decode, es[i])
    {
      FlatKeepsView(lib, es[i], s.name);
    }
    if i :| 0 <= i < |es| && Shows(lib.decode, es[i]) {
      assert Matches(lib, FlatsIn(s)[i], CHANGED, [NotEmpty("reachable")]);
    }
  }

  predicate SomeSpanShows(decode: Decoder, file: seq<RawSpan>) {
    exists i :: 0 <= i < |file| && SpanShows(decode, file[i])
  }

  lemma SomeSpanOneMore(decode: Decoder, file: seq<RawSpan>)
    requires file != []
    ensures SomeSpanShows(decode, file)
       <==> SomeSpanShows(decode, file[..|file| - 1]) || SpanShows(decode, file[|file| - 1])
  {
    var front := file[..|file| - 1];
    if i :| 0 <= i < |front| && SpanShows(decode, front[i]) {
      assert SpanShows(decode, file[i]);
    }
    if i :| 0 <= i < |file| && SpanShows(decode, file[i]) {
      assert i < |front| ==> SpanShows(decode, front[i]);
    }
  }

  lemma {:induction false} PassesWhenShown(lib: Library, file: seq<RawSpan>)
    ensures |Matched(lib, REPORTED_REACHABLE, LoadEvents(file))| > 0 <==> SomeSpanShows(lib.decode, file)
  {
    if file != [] {
      var n := |file| - 1;
      PassesWhenShown(lib, file[..n]);
      MatchedAppend(lib, REPORTED_REACHABLE, LoadEvents(file[..n]), FlatsIn(file[n]));
      SpanMatches(lib, file[n]);
      SomeSpanOneMore(lib.decode, file);
    }
  }

  // ------------------------------------------------------ the analyzer's side

  lemma ShowsInCons(decode: Decoder, es: seq<Event>)
    requires es != []
    ensures ShowsIn(decode, es) <==> Shows(decode, es[0]) || ShowsIn(decode, es[1..])
  {
    assert es == [es[0]] + es[1..];
    ShowsInAppend(decode, [es[0]], es[1..]);
    assert ShowsIn(decode, [es[0]]) <==> Shows(decode, es[0]) by {
      if Shows(decode, es[0]) {
        assert Shows(decode, [es[0]][0]);
      }
    }
  }

  lemma {:induction false} FilterChanged(es: seq<Event>)
    ensures forall i :: 0 <= i < |Filter(es, CHANGED)| ==> Filter(es, CHANGED)[i].name == CHANGED
  {
    if es != [] {
      FilterChanged(es[1..]);
    }
  }

  lemma {:induction false} FilterShowsIn(decode: Decoder, es: seq<Event>)
    ensures ShowsIn(decode, Filter(es, CHANGED)) <==> ShowsIn(decode, es)
  {
    if es != [] {
      FilterShowsIn(decode, es[1..]);
      ShowsInCons(decode, es);
      var head := if es[0].name == CHANGED then [es[0]] else [];
      ShowsInAppend(decode, head, Filter(es[1..], CHANGED));
      assert ShowsIn(decode, head) <==> Shows(decode, es[0]) by {
        if Shows(decode, es[0]) {
          assert Shows(decode, head[0]);
        }
      }
    }
  }

  lemma FilterShows(decode: Decoder, es: seq<Event>)
    ensures SomeListed(decode, Filter(es, CHANGED), "reachable") <==> ShowsIn(decode, es)
  {
    FilterShowsIn(decode, es);
    FilterChanged(es);
    var f := Filter(es, CHANGED);
    assert forall i :: 0 <= i < |f| ==> (Shows(decode, f[i]) <==> ListAttr(decode, f[i], "reachable") != []);
  }

  lemma ShowsInAppend(decode: Decoder, a: seq<Event>, b: seq<Event>)
    ensures ShowsIn(decode, a + b) <==> ShowsIn(decode, a) || ShowsIn(decode, b)
  {
    if i :| 0 <= i < |a| && Shows(decode, a[i]) {
      assert (a + b)[i] == a[i];
    }
    if i :| 0 <= i < |b| && Shows(decode, b[i]) {
      assert (a + b)[|a| + i] == b[i];
    }
  }

  predicate OwnShows(decode: Decoder, s: RawSpan) {
    s.name in TESTBED_SPAN_NAMES && Shows(decode, AsEvent(s))
  }

  lemma {:induction false} ExtraShows(decode: Decoder, file: seq<RawSpan>)
    ensures ShowsIn(decode, ExtraEvents(file)) <==> exists i :: 0 <= i < |file| && OwnShows(decode, file[i])
  {
    if file != [] {
      var n := |file| - 1;
      ExtraShows(decode, file[..n]);
      var last := if file[n].name in TESTBED_SPAN_NAMES then [AsEvent(file[n])] else [];
      ShowsInAppend(decode, ExtraEvents(file[..n]), last);
      assert ShowsIn(decode, last) <==> OwnShows(decode, file[n]) by {
        if OwnShows(decode, file[n]) {
          assert Shows(decode, last[0]);
        }
      }
      assert forall i :: 0 <= i < n ==> file[..n][i] == file[i];
    }
  }

  /** The last session span, the only one the analyzer keeps. */
  predicate IsLastSession(file: seq<RawSpan>, i: int) {
    0 <= i < |file| && file[i].name == SESSION && forall j :: i < j < |file| ==> file[j].name != SESSION
  }

  predicate HostShows(decode: Decoder, s: RawSpan) { ShowsIn(decode, ToEvents(s.events)) }

  lemma {:induction false} LastSessionAt(file: seq<RawSpan>)
    ensures LastNamed(file, SESSION).None? ==> forall i :: !IsLastSession(file, i)
    ensures LastNamed(file, SESSION).Some? ==>
              exists i :: IsLastSession(file, i) && LastNamed(file, SESSION).value == ToSpan(file[i])
  {
    if file != [] {
      var n := |file| - 1;
      LastSessionAt(file[..n]);
      assert forall i :: 0 <= i < n ==> file[..n][i] == file[i];
      if file[n].name == SESSION {
        assert IsLastSession(file, n);
      } else {
        assert Named(file, SESSION) == Named(file[..n], SESSION);
        assert forall i :: IsLastSession(file, i) ==> IsLastSession(file[..n], i);
        if i :| IsLastSession(file[..n], i) && LastNamed(file[..n], SESSION).value == ToSpan(file[..n][i]) {
          assert IsLastSession(file, i);
        }
      }
    }
  }

  lemma ConvergedWhenShown(decode: Decoder, file: seq<RawSpan>)
    ensures ConvergedReachable(decode, ParseTrace(file)) <==>
              (exists i :: IsLastSession(file, i) && HostShows(decode, file[i])) ||
              (exists i :: 0 <= i < |file| && OwnShows(decode, file[i]))
  {
    var session, extra := LastNamed(file, SESSION), ExtraEvents(file);
    var base := if session.Some? then session.value.events else [];
    var t := ParseTrace(file);
    var events := if t.session.Some? then t.session.value.events else [];
    assert events == base + extra;
    FilterShows(decode, events);
    ShowsInAppend(decode, base, extra);
    ExtraShows(decode, file);
    LastSessionAt(file);
    assert ShowsIn(decode, base) <==> exists i :: IsLastSession(file, i) && HostShows(decode, file[i]);
  }

  /** A reachable address listed by an event the analyzer never looks at: one that
      hangs on another span, or on a session span that a later one replaces. */
  ghost predicate Stray(decode: Decoder, file: seq<RawSpan>) {
    exists i :: 0 <= i < |file| && !IsLastSession(file, i) && HostShows(decode, file[i])
  }

  /** For every trace file, in either format or a mixture, the `has_event`
      assertion passes exactly when the analyzer sees the node converge to
      reachable or a stray event shows it. */
  lemma HasEventIffConverged(lib: Library, file: seq<RawSpan>)
    ensures Passed(Evaluate(lib, REPORTED_REACHABLE, LoadEvents(file)))
       <==> ConvergedReachable(lib.decode, ParseTrace(file)) || Stray(lib.decode, file)
  {
    PassesWhenShown(lib, file);
    ConvergedWhenShown(lib.decode, file);
    forall i | 0 <= i < |file|
      ensures SpanShows(lib.decode, file[i]) <==> HostShows(lib.decode, file[i]) || OwnShows(lib.decode, file[i])
    {
      OwnEventIsRead(lib.decode, file[i]);
    }
  }

  // ------------------------------------------------------- false negatives

  function Failing(lib: Library, files: seq<seq<RawSpan>>): nat {
    if files == [] then 0
    else
      Failing(lib, files[..|files| - 1])
      + (if Passed(Evaluate(lib, REPORTED_REACHABLE, LoadEvents(files[|files| - 1]))) then 0 else 1)
  }

  function Traces(files: seq<seq<RawSpan>>): seq<Trace> {
    seq(|files|, i requires 0 <= i < |files| => ParseTrace(files[i]))
  }

  /** How many files hold a stray event. */
  ghost function StrayFiles(decode: Decoder, files: seq<seq<RawSpan>>): nat {
    if files == [] then 0
    else StrayFiles(decode, files[..|files| - 1]) + (if Stray(decode, files[|files| - 1]) then 1 else 0)
  }

  lemma {:induction false} NoStrayFiles(decode: Decoder, files: seq<seq<RawSpan>>)
    ensures StrayFiles(decode, files) == 0 <==> forall i :: 0 <= i < |files| ==> !Stray(decode, files[i])
  {
    if files != [] {
      var n := |files| - 1;
      NoStrayFiles(decode, files[..n]);
      assert forall i :: 0 <= i < n ==> files[..n][i] == files[i];
    }
  }

  /** Every false negative shows as a failing assertion, unless its file holds a
      stray event. */
  lemma {:induction false} FalseNegativesFail(lib: Library, files: seq<seq<RawSpan>>)
    ensures FnrReport(lib.decode, Traces(files)).hits <= Failing(lib, files) + StrayFiles(lib.decode, files)
  {
    if files != [] {
      var n := |files| - 1;
      FalseNegativesFail(lib, files[..n]);
      HasEventIffConverged(lib, files[n]);
      assert FnrReport(lib.decode, Traces(files)).details[..n] == FnrReport(lib.decode, Traces(files[..n])).details;
    }
  }

  // ------------------------------------------------------ time to confidence

  /** The events that show a reachable address, in order. */
  function Shown(decode: Decoder, es: seq<Event>): seq<Event> {
    if es == [] then [] else ShownAlone(decode, es[0]) + Shown(decode, es[1..])
  }

  function ShownAlone(decode: Decoder, e: Event): seq<Event> {
    if Shows(decode, e) then [e] else []
  }

  lemma {:induction false} ShownAppend(decode: Decoder, a: seq<Event>, b: seq<Event>)
    ensures Shown(decode, a + b) == Shown(decode, a) + Shown(decode, b)
  {
    if a == [] {
      assert a + b == b;
    } else {
      HeadOfAppend(a, b);
      ShownAppend(decode, a[1..], b);
      AppendAssociates(ShownAlone(decode, a[0]), Shown(decode, a[1..]), Shown(decode, b));
    }
  }

  lemma {:induction false} ShownNothing(decode: Decoder, es: seq<Event>)
    requires !ShowsIn(decode, es)
    ensures Shown(decode, es) == []
  {
    if es != [] {
      assert !Shows(decode, es[0]);
      forall i | 0 <= i < |es[1..]| ensures !Shows(decode, es[1..][i]) {
        assert es[1..][i] == es[i + 1];
      }
      ShownNothing(decode, es[1..]);
    }
  }

  /** The events of a file in the order in which the evaluator loads them. */
  function Loaded(file: seq<RawSpan>): seq<Event> {
    if file == [] then [] else Loaded(file[..|file| - 1]) + EventsIn(file[|file| - 1])
  }

  /** Change events are hosted by one session span, or are spans of their own. */
  ghost predicate SingleFormat(decode: Decoder, file: seq<RawSpan>) {
    || (forall i :: 0 <= i < |file| ==> !HostShows(decode, file[i]))
    || (&& (forall i :: 0 <= i < |file| ==> !OwnShows(decode, file[i]))
        && !Stray(decode, file))
  }

  lemma ShownIn(decode: Decoder, s: RawSpan)
    ensures !HostShows(decode, s) ==>
              Shown(decode, EventsIn(s)) == if OwnShows(decode, s) then [AsEvent(s)] else []
    ensures !OwnShows(decode, s) ==> Shown(decode, EventsIn(s)) == Shown(decode, ToEvents(s.events))
  {
    LibraryNames();
    var es := ToEvents(s.events);
    var own := if s.name !in LIBRARY_SPANS && Flatten(s.attrs) != map[] then [AsEvent(s)] else [];
    ShownAppend(decode, es, own);
    assert Shows(decode, AsEvent(s)) ==> s.name == CHANGED && s.name in TESTBED_SPAN_NAMES;
    assert Shows(decode, AsEvent(s)) ==> Flatten(s.attrs) != map[];
    assert Shown(decode, own) == if OwnShows(decode, s) then [AsEvent(s)] else [] by {
      if own != [] {
        assert own[1..] == [];
      }
    }
    if !HostShows(decode, s) {
      ShownNothing(decode, es);
    }
  }

  lemma ShownOne(decode: Decoder, e: Event)
    ensures Shown(decode, [e]) == if Shows(decode, e) then [e] else []
  {
    assert [e][1..] == [];
  }

  function OwnShown(decode: Decoder, s: RawSpan): seq<Event> {
    if OwnShows(decode, s) then [AsEvent(s)] else []
  }

  lemma ShownOwn(decode: Decoder, s: RawSpan)
    ensures Shown(decode, OwnEvent(s)) == OwnShown(decode, s)
  {
    ShownOne(decode, AsEvent(s));
  }

  lemma ShownExtraOneMore(decode: Decoder, file: seq<RawSpan>)
    requires file != []
    ensures var last := file[|file| - 1];
            Shown(decode, ExtraEvents(file))
            == Shown(decode, ExtraEvents(file[..|file| - 1])) + OwnShown(decode, last)
  {
    ShownAppend(decode, ExtraEvents(file[..|file| - 1]), OwnEvent(file[|file| - 1]));
    ShownOwn(decode, file[|file| - 1]);
  }

  lemma ShownLoadedOneMore(decode: Decoder, file: seq<RawSpan>)
    requires file != []
    ensures Shown(decode, Loaded(file))
         == Shown(decode, Loaded(file[..|file| - 1])) + Shown(decode, EventsIn(file[|file| - 1]))
  {
    ShownAppend(decode, Loaded(file[..|file| - 1]), EventsIn(file[|file| - 1]));
  }

  lemma {:induction false} ShownNewFormat(decode: Decoder, file: seq<RawSpan>)
    requires forall i :: 0 <= i < |file| ==> !HostShows(decode, file[i])
    ensures Shown(decode, Loaded(file)) == Shown(decode, ExtraEvents(file))
  {
    if file != [] {
      var n := |file| - 1;
      assert forall i :: 0 <= i < n ==> file[..n][i] == file[i];
      ShownNewFormat(decode, file[..n]);
      ShownLoadedOneMore(decode, file);
      ShownExtraOneMore(decode, file);
      ShownIn(decode, file[n]);
    }
  }

  lemma {:induction false} ShownOldFormat(decode: Decoder, file: seq<RawSpan>, k: int)
    requires forall i :: 0 <= i < |file| ==> !OwnShows(decode, file[i])
    requires forall i :: 0 <= i < |file| && i != k ==> !HostShows(decode, file[i])
    ensures Shown(decode, Loaded(file)) == if 0 <= k < |file| then Shown(decode, ToEvents(file[k].events)) else []
  {
    if file != [] {
      var n := |file| - 1;
      assert forall i :: 0 <= i < n ==> file[..n][i] == file[i];
      ShownOldFormat(decode, file[..n], k);
      ShownLoadedOneMore(decode, file);
      ShownIn(decode, file[n]);
      if n != k {
        ShownNothing(decode, ToEvents(file[n].events));
      }
    }
  }

  lemma ShownAgree(decode: Decoder, file: seq<RawSpan>)
    requires SingleFormat(decode, file)
    ensures var t := ParseTrace(file);
            Shown(decode, Loaded(file)) == Shown(decode, if t.session.Some? then t.session.value.events else [])
  {
    var session, extra := LastNamed(file, SESSION), ExtraEvents(file);
    var base := if session.Some? then session.value.events else [];
    var t := ParseTrace(file);
    var events := if t.session.Some? then t.session.value.events else [];
    assert events == base + extra;
    ShownAppend(decode, base, extra);
    LastSessionAt(file);
    if forall i :: 0 <= i < |file| ==> !HostShows(decode, file[i]) {
      ShownNewFormat(decode, file);
      if session.Some? {
        var i :| IsLastSession(file, i) && session.value == ToSpan(file[i]);
        assert !HostShows(decode, file[i]);
        ShownNothing(decode, base);
      }
    } else {
      ExtraShows(decode, file);
      ShownNothing(decode, extra);
      var h :| 0 <= h < |file| && HostShows(decode, file[h]);
      assert IsLastSession(file, h);
      var i :| IsLastSession(file, i) && session.value == ToSpan(file[i]);
      assert i == h;
      ShownOldFormat(decode, file, h);
    }
  }

  lemma {:induction false} FirstMatchedIsFirstShown(lib: Library, file: seq<RawSpan>)
    ensures |Matched(lib, FIRST_REACHABLE, LoadEvents(file))| == |Shown(lib.decode, Loaded(file))|
    ensures forall i :: 0 <= i < |Shown(lib.decode, Loaded(file))| ==>
              && CoerceInt(Lookup(Matched(lib, FIRST_REACHABLE, LoadEvents(file))[i], "elapsed_ms"))
                 == Elapsed(Shown(lib.decode, Loaded(file))[i])
              && (Elapsed(Shown(lib.decode, Loaded(file))[i]).Some? ==>
                    Lookup(Matched(lib, FIRST_REACHABLE, LoadEvents(file))[i], "elapsed_ms")
                    == Some(Int(Elapsed(Shown(lib.decode, Loaded(file))[i]).value)))
  {
    if file != [] {
      var n := |file| - 1;
      FirstMatchedIsFirstShown(lib, file[..n]);
      MatchedAppend(lib, FIRST_REACHABLE, LoadEvents(file[..n]), FlatsIn(file[n]));
      ShownAppend(lib.decode, Loaded(file[..n]), EventsIn(file[n]));
      MatchedSpan(lib, EventsIn(file[n]), file[n].name, FlatsIn(file[n]));
    }
  }

  lemma {:induction false} MatchedSpan(lib: Library, es: seq<Event>, spanName: string, flats: seq<Flat>)
    requires |flats| == |es| && forall i :: 0 <= i < |es| ==> flats[i] == FlatOf(es[i], spanName)
    ensures |Matched(lib, FIRST_REACHABLE, flats)| == |Shown(lib.decode, es)|
    ensures forall i :: 0 <= i < |Shown(lib.decode, es)| ==>
              && CoerceInt(Lookup(Matched(lib, FIRST_REACHABLE, flats)[i], "elapsed_ms")) == Elapsed(Shown(lib.decode, es)[i])
              && (Elapsed(Shown(lib.decode, es)[i]).Some? ==>
                    Lookup(Matched(lib, FIRST_REACHABLE, flats)[i], "elapsed_ms")
                    == Some(Int(Elapsed(Shown(lib.decode, es)[i]).value)))
  {
    if es != [] {
      FlatKeepsView(lib, es[0], spanName);
      MatchedSpan(lib, es[1..], spanName, flats[1..]);
    }
  }

  /** The analyzer's time to confidence, read off the shown events. */
  function FirstTimed(es: seq<Event>): Option<int> {
    if es == [] then None else if Elapsed(es[0]).Some? then Elapsed(es[0]) else FirstTimed(es[1..])
  }

  lemma {:induction false} FirstListedIsFirstTimed(decode: Decoder, es: seq<Event>)
    ensures FirstListed(decode, Filter(es, CHANGED), "reachable") == FirstTimed(Shown(decode, es))
  {
    if es != [] {
      FirstListedIsFirstTimed(decode, es[1..]);
      var f, s := Filter(es[1..], CHANGED), Shown(decode, es[1..]);
      assert ([es[0]] + f)[1..] == f && ([es[0]] + s)[1..] == s;
      assert [] + f == f && [] + s == s;
    }
  }

  function InfoValue(lib: Library, file: seq<RawSpan>): Option<Value> {
    Evaluate(lib, FIRST_REACHABLE, LoadEvents(file)).value
  }

  function TimeToReachable(decode: Decoder, file: seq<RawSpan>): Option<int> {
    FirstListed(decode, SessionEvents(ParseTrace(file), CHANGED), "reachable")
  }

  lemma TimeIsFirstTimed(decode: Decoder, file: seq<RawSpan>)
    requires SingleFormat(decode, file)
    ensures TimeToReachable(decode, file) == FirstTimed(Shown(decode, Loaded(file)))
  {
    ShownAgree(decode, file);
    var t := ParseTrace(file);
    FirstListedIsFirstTimed(decode, if t.session.Some? then t.session.value.events else []);
  }

  lemma InfoIsFirstShown(lib: Library, file: seq<RawSpan>)
    ensures var shown := Shown(lib.decode, Loaded(file));
            && (shown == [] ==> InfoValue(lib, file) == None)
            && (shown != [] ==>
                  && CoerceInt(InfoValue(lib, file)) == Elapsed(shown[0])
                  && (Elapsed(shown[0]).Some? ==> InfoValue(lib, file) == Some(Int(Elapsed(shown[0]).value))))
  {
    FirstMatchedIsFirstShown(lib, file);
  }

  /** In a single-format file the `info` assertion and the analyzer give the same
      time to confidence whenever the first event that shows a reachable address
      has a usable elapsed_ms, or there is no such event; otherwise the assertion
      reports no number while the analyzer looks further, so that the two agree
      only if it finds nothing either. */
  lemma InfoIsTimeToConfidence(lib: Library, file: seq<RawSpan>)
    requires SingleFormat(lib.decode, file)
    ensures var shown := Shown(lib.decode, Loaded(file));
            var timed := shown == [] || Elapsed(shown[0]).Some?;
            && (timed ==> InfoValue(lib, file)
                          == (var ms := TimeToReachable(lib.decode, file); if ms.Some? then Some(Int(ms.value)) else None))
            && (!timed ==> CoerceInt(InfoValue(lib, file)) == None
                           && TimeToReachable(lib.decode, file) == FirstTimed(shown[1..]))
            && (CoerceInt(InfoValue(lib, file)) == TimeToReachable(lib.decode, file)
                <==> timed || FirstTimed(shown[1..]) == None)
  {
    InfoIsFirstShown(lib, file);
    TimeIsFirstTimed(lib.decode, file);
  }
}
