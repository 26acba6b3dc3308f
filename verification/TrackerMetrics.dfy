/** What the analyzer makes of the traces the trackers write. */
module TrackerMetrics {
  import opened Text
  import opened Otel
  import opened Analyze
  import opened Trackers

  /** The span `emitSpan` writes for an emission. */
  function SpanFor(e: Emission): RawSpan {
    RawSpan(CHANGED, "",
            [RawAttr("elapsed_ms", Wrapped("INT64", Int(e.elapsedMs))),
             RawAttr("reachable", Wrapped("STRINGSLICE", List(e.reachable))),
             RawAttr("unreachable", Wrapped("STRINGSLICE", List(e.unreachable))),
             RawAttr("unknown", Wrapped("STRINGSLICE", List([])))],
            [])
  }

  /** The change events of a file, in order. */
  function ChangeSpans(file: seq<RawSpan>): seq<RawSpan> {
    if file == [] then []
    else ChangeSpans(file[..|file| - 1]) + (if file[|file| - 1].name == CHANGED then [file[|file| - 1]] else [])
  }

  /** A trace file whose change events are these emissions, among any other spans. */
  ghost predicate Records(file: seq<RawSpan>, emitted: seq<Emission>) {
    && (forall i :: 0 <= i < |file| ==> file[i].name != SESSION)
    && ChangeSpans(file) == seq(|emitted|, i requires 0 <= i < |emitted| => SpanFor(emitted[i]))
  }

  function EventFor(e: Emission): Event { AsEvent(SpanFor(e)) }

  function EventsFor(es: seq<Emission>): seq<Event> {
    seq(|es|, i requires 0 <= i < |es| => EventFor(es[i]))
  }

  lemma ReadBack(decode: Decoder, e: Emission)
    ensures EventFor(e).name == CHANGED && Elapsed(EventFor(e)) == Some(e.elapsedMs)
    ensures ListAttr(decode, EventFor(e), "reachable") == e.reachable
    ensures ListAttr(decode, EventFor(e), "unreachable") == e.unreachable
  {
    var attrs := SpanFor(e).attrs;
    assert attrs[..3][..2] == attrs[..2] && attrs[..2][..1] == attrs[..1] && attrs[..1][..0] == [];
    assert Flatten(attrs[..1]) == map["elapsed_ms" := Int(e.elapsedMs)];
    assert Flatten(attrs[..2]) == map["elapsed_ms" := Int(e.elapsedMs), "reachable" := List(e.reachable)];
    assert Flatten(attrs[..3]) == Flatten(attrs[..2])["unreachable" := List(e.unreachable)];
    assert Flatten(attrs) == Flatten(attrs[..3])["unknown" := List([])];
  }

  lemma {:induction false} FilterAppend(a: seq<Event>, b: seq<Event>, name: string)
    ensures Filter(a + b, name) == Filter(a, name) + Filter(b, name)
  {
    if a == [] {
      assert a + b == b;
    } else {
      HeadOfAppend(a, b);
      FilterAppend(a[1..], b, name);
      AppendAssociates(if a[0].name == name then [a[0]] else [], Filter(a[1..], name), Filter(b, name));
    }
  }

  lemma {:induction false} ExtrasAreChanges(file: seq<RawSpan>)
    ensures var changes := ChangeSpans(file);
            Filter(ExtraEvents(file), CHANGED) == seq(|changes|, i requires 0 <= i < |changes| => AsEvent(changes[i]))
  {
    if file != [] {
      var n := |file| - 1;
      ExtrasAreChanges(file[..n]);
      var last := if file[n].name in TESTBED_SPAN_NAMES then [AsEvent(file[n])] else [];
      FilterAppend(ExtraEvents(file[..n]), last, CHANGED);
      assert last != [] ==> last[1..] == [];
      assert file[n].name == CHANGED ==> file[n].name in TESTBED_SPAN_NAMES;
    }
  }

  lemma {:induction false} NoSession(file: seq<RawSpan>)
    requires forall i :: 0 <= i < |file| ==> file[i].name != SESSION
    ensures Named(file, SESSION) == []
  {
    if file != [] {
      NoSession(file[..|file| - 1]);
    }
  }

  /** The analyzer's change events are the tracker's emissions. */
  lemma AnalyzerSees(file: seq<RawSpan>, emitted: seq<Emission>)
    requires Records(file, emitted)
    ensures SessionEvents(ParseTrace(file), CHANGED) == EventsFor(emitted)
  {
    NoSession(file);
    ExtrasAreChanges(file);
    var extra := ExtraEvents(file);
    assert Span(map[], []).events + extra == extra;
  }

  // ------------------------------------------------------------ JS and updates

  lemma {:induction false} FlipAppend(decode: Decoder, es: seq<Event>, e: Event, previous: Option<bool>)
    ensures FirstFlip(decode, es + [e], previous)
         == if FirstFlip(decode, es, previous).Some? then FirstFlip(decode, es, previous)
            else
              FirstFlip(decode, [e],
                        if es == [] then previous else Some(ListAttr(decode, es[|es| - 1], "reachable") != []))
  {
    if es == [] {
      assert es + [e] == [e];
    } else {
      assert (es + [e])[1..] == es[1..] + [e];
      FlipAppend(decode, es[1..], e, Some(ListAttr(decode, es[0], "reachable") != []));
    }
  }

  /** The flip of a run, read off the updates: the first loss. */
  ghost predicate FlipIsFirstLoss(flip: Option<Flip>, updates: seq<Update>) {
    match flip
    case None => forall i :: !Loss(updates, i)
    case Some(f) =>
      f.fromReachable
      && exists i :: Loss(updates, i) && updates[i].elapsedMs == f.elapsedMs && forall j :: j < i ==> !Loss(updates, j)
  }

  lemma LossOneMore(updates: seq<Update>, u: Update)
    ensures forall i :: i < |updates| ==> (Loss(updates + [u], i) <==> Loss(updates, i))
    ensures Loss(updates + [u], |updates|) <==> u.external == {} && Current(updates) != {}
    ensures forall i :: i > |updates| ==> !Loss(updates + [u], i)
  {
    assert forall i :: 0 <= i < |updates| ==> (updates + [u])[i] == updates[i];
  }

  lemma FlipStays(flip: Option<Flip>, updates: seq<Update>, u: Update)
    requires FlipIsFirstLoss(flip, updates)
    requires flip.Some? || !(u.external == {} && Current(updates) != {})
    ensures FlipIsFirstLoss(flip, updates + [u])
  {
    LossOneMore(updates, u);
    if flip.Some? {
      var i :| Loss(updates, i) && updates[i].elapsedMs == flip.value.elapsedMs && forall j :: j < i ==> !Loss(updates, j);
      assert Loss(updates + [u], i) && (updates + [u])[i] == updates[i];
    }
  }

  lemma FlipStarts(updates: seq<Update>, u: Update)
    requires FlipIsFirstLoss(None, updates) && u.external == {} && Current(updates) != {}
    ensures FlipIsFirstLoss(Some(Flip(u.elapsedMs, true)), updates + [u])
  {
    LossOneMore(updates, u);
    assert Loss(updates + [u], |updates|);
  }

  lemma {:induction false} FlipOfUpdates(decode: Decoder, emitted: seq<Emission>, updates: seq<Update>)
    requires Represents(emitted, Reports(updates))
    ensures FlipIsFirstLoss(FirstFlip(decode, EventsFor(emitted), None), updates)
    decreases |updates|
  {
    if updates != [] {
      var n := |updates| - 1;
      var before, u := updates[..n], updates[n];
      assert updates == before + [u];
      LastReportIsCurrent(before);
      if u.external == Current(before) {
        assert Reports(updates) == Reports(before);
        FlipOfUpdates(decode, emitted, before);
        FlipStays(FirstFlip(decode, EventsFor(emitted), None), before, u);
      } else {
        FlipAtChange(decode, emitted, before, u);
      }
    }
  }

  lemma RepresentsFront(emitted: seq<Emission>, before: seq<Update>, u: Update)
    requires Represents(emitted, Reports(before + [u])) && u.external != Current(before)
    ensures emitted != [] && Represents(emitted[..|emitted| - 1], Reports(before))
    ensures Elements(emitted[|emitted| - 1].reachable) == u.external
    ensures emitted[|emitted| - 1].elapsedMs == u.elapsedMs
  {
    ReportsOneMore(before, u);
    var report := Reports(before + [u])[|Reports(before)|];
    assert report.elapsedMs == u.elapsedMs && report.reachable == u.external;
    RepresentsAppended(emitted, Reports(before), report);
  }

  lemma RepresentsAppended(emitted: seq<Emission>, reports: seq<Report>, last: Report)
    requires Represents(emitted, reports + [last])
    ensures emitted != [] && Represents(emitted[..|emitted| - 1], reports)
    ensures Elements(emitted[|emitted| - 1].reachable) == last.reachable
    ensures emitted[|emitted| - 1].elapsedMs == last.elapsedMs
  {
    assert (reports + [last])[|reports|] == last;
    assert forall i :: 0 <= i < |reports| ==> (reports + [last])[i] == reports[i];
  }

  /** The emission a change adds flips the status exactly when it loses everything. */
  lemma LastFlip(decode: Decoder, front: seq<Emission>, last: Emission, before: seq<Update>, u: Update)
    requires Represents(front, Reports(before)) && front != []
    requires Elements(last.reachable) == u.external && last.elapsedMs == u.elapsedMs
    ensures FirstFlip(decode, [EventFor(last)], Some(ListAttr(decode, EventFor(front[|front| - 1]), "reachable") != []))
         == if (u.external != {}) != (Current(before) != {}) then Some(Flip(u.elapsedMs, Current(before) != {})) else None
  {
    ReadBack(decode, last);
    EmptyElements(last.reachable);
    ReadBack(decode, front[|front| - 1]);
    EmptyElements(front[|front| - 1].reachable);
    LastReportIsCurrent(before);
    assert [EventFor(last)][1..] == [];
  }

  lemma LastEvent(emitted: seq<Emission>)
    requires emitted != []
    ensures EventsFor(emitted) == EventsFor(emitted[..|emitted| - 1]) + [EventFor(emitted[|emitted| - 1])]
  {
  }

  /** What one more emission makes of the flip. */
  lemma FlipOneMore(decode: Decoder, emitted: seq<Emission>)
    requires emitted != []
    ensures var m := |emitted| - 1;
            var flip := FirstFlip(decode, EventsFor(emitted[..m]), None);
            FirstFlip(decode, EventsFor(emitted), None)
            == if flip.Some? || m == 0 then flip
               else
                 FirstFlip(decode, [EventFor(emitted[m])],
                           Some(ListAttr(decode, EventFor(emitted[m - 1]), "reachable") != []))
  {
    var m := |emitted| - 1;
    LastEvent(emitted);
    FlipAppend(decode, EventsFor(emitted[..m]), EventFor(emitted[m]), None);
    assert [EventFor(emitted[m])][1..] == [];
  }

  lemma FlipAtChange(decode: Decoder, emitted: seq<Emission>, before: seq<Update>, u: Update)
    requires Represents(emitted, Reports(before + [u]))
    requires u.external != Current(before)
    ensures FlipIsFirstLoss(FirstFlip(decode, EventsFor(emitted), None), before + [u])
    decreases |before| + 1, 0
  {
    RepresentsFront(emitted, before, u);
    var m := |emitted| - 1;
    var front, last := emitted[..m], emitted[m];
    FlipOfUpdates(decode, front, before);
    assert emitted == front + [last];
    FlipAppends(decode, front, last, before, u);
  }

  lemma FlipAppends(decode: Decoder, front: seq<Emission>, last: Emission, before: seq<Update>, u: Update)
    requires Represents(front, Reports(before))
    requires Elements(last.reachable) == u.external && last.elapsedMs == u.elapsedMs
    requires FlipIsFirstLoss(FirstFlip(decode, EventsFor(front), None), before)
    ensures FlipIsFirstLoss(FirstFlip(decode, EventsFor(front + [last]), None), before + [u])
  {
    var emitted := front + [last];
    assert emitted[..|front|] == front;
    FlipOneMore(decode, emitted);
    LastReportIsCurrent(before);
    var flip := FirstFlip(decode, EventsFor(front), None);
    if flip.Some? || front == [] {
      FlipStays(flip, before, u);
    } else {
      LastFlip(decode, front, last, before, u);
      FirstLossNow(before, u);
    }
  }

  /** Without a loss so far, an external set that was reported is not empty. */
  lemma FirstLossNow(before: seq<Update>, u: Update)
    requires FlipIsFirstLoss(None, before) && Reports(before) != []
    ensures FlipIsFirstLoss(
              if (u.external != {}) != (Current(before) != {}) then Some(Flip(u.elapsedMs, Current(before) != {})) else None,
              before + [u])
  {
    if Current(before) == {} {
      EmptyAgainIsLoss(before);
      assert false;
    } else if u.external == {} {
      FlipStarts(before, u);
    } else {
      FlipStays(None, before, u);
    }
  }

  /** The JS tracker over a whole run: every emission splits the addresses ever
      external in two, the first is not empty, and consecutive ones differ. */
  lemma JsEmissionsAlternate(t: PeerTracker)
    requires t.Valid()
    ensures Elements(t.reachableAddrs) !! Elements(t.unreachableAddrs)
    ensures Elements(t.reachableAddrs) + Elements(t.unreachableAddrs) == Ever(t.updates)
    ensures forall i :: 0 <= i < |t.emitted| ==> Elements(t.emitted[i].reachable) !! Elements(t.emitted[i].unreachable)
    ensures forall i :: 0 <= i < |t.emitted| - 1 ==>
              Elements(t.emitted[i].reachable) != Elements(t.emitted[i + 1].reachable)
    ensures t.emitted != [] ==> t.emitted[0].reachable != []
  {
    ReportsAlternate(t.updates);
    CurrentIsEver(t.updates);
    if t.emitted != [] {
      EmptyElements(t.emitted[0].reachable);
    }
  }

  /** Tracker and analyzer together. For every run of the JS tracker, recorded in
      any trace file, the analyzer reports a flip exactly when the external set
      became empty after being non-empty; the flip is the first such moment, and
      its direction is always reachable to unreachable. */
  lemma JsFlipIsFirstLoss(decode: Decoder, t: PeerTracker, file: seq<RawSpan>)
    requires t.Valid() && Records(file, t.emitted)
    ensures FlipIsFirstLoss(FlipOf(decode, ParseTrace(file)), t.updates)
  {
    AnalyzerSees(file, t.emitted);
    FlipOfUpdates(decode, t.emitted, t.updates);
  }

  /** The analyzer calls a JS run converged exactly when an external address was
      ever seen, and dates it by the first update that brought one. */
  lemma JsConvergesWhenExternal(decode: Decoder, t: PeerTracker, file: seq<RawSpan>)
    requires t.Valid() && Records(file, t.emitted)
    ensures ConvergedReachable(decode, ParseTrace(file)) <==> Ever(t.updates) != {}
    ensures ConvergenceOf(decode, ParseTrace(file)) == match FirstExternal(t.updates)
                                                      case None => Never
                                                      case Some(ms) => ReachableAt(ms)
  {
    AnalyzerSees(file, t.emitted);
    FirstReport(t.updates);
    var es := EventsFor(t.emitted);
    if t.emitted == [] {
      assert es == [];
    } else {
      ReadBack(decode, t.emitted[0]);
      EmptyElements(t.emitted[0].reachable);
      assert es[0] == EventFor(t.emitted[0]);
    }
  }

  /** When an external address was first seen. */
  function FirstExternal(updates: seq<Update>): Option<int> {
    if updates == [] then None
    else
      var earlier := FirstExternal(updates[..|updates| - 1]);
      if earlier.Some? then earlier
      else if updates[|updates| - 1].external != {} then Some(updates[|updates| - 1].elapsedMs)
      else None
  }

  lemma {:induction false} FirstReport(updates: seq<Update>)
    ensures Reports(updates) == [] <==> Ever(updates) == {}
    ensures Reports(updates) == [] <==> FirstExternal(updates) == None
    ensures Reports(updates) != [] ==>
              Reports(updates)[0].reachable != {} && FirstExternal(updates) == Some(Reports(updates)[0].elapsedMs)
  {
    LastReportIsCurrent(updates);
    if updates != [] {
      var n := |updates| - 1;
      FirstReport(updates[..n]);
      LastReportIsCurrent(updates[..n]);
      assert updates == updates[..n] + [updates[n]];
      EverOneMore(updates[..n], updates[n]);
    }
  }

  // ---------------------------------------------------------- Rust and probes

  /** Some address is reachable after the first `n` results. */
  predicate UpAfter(results: seq<ProbeResult>, n: nat)
    requires n <= |results|
  {
    Latest(results[..n], true) != {}
  }

  lemma RustShows(decode: Decoder, t: ProbeTracker, i: nat)
    requires t.Valid() && i < |t.results|
    ensures ShowsReachable(decode, EventsFor(t.emitted)[i]) <==> UpAfter(t.results, i + 1)
    ensures Elapsed(EventsFor(t.emitted)[i]) == Some(t.emitted[i].elapsedMs)
  {
    ReadBack(decode, t.emitted[i]);
    EmptyElements(t.emitted[i].reachable);
    assert Announces(t.emitted[i], t.results[..i + 1]);
  }

  lemma UpOnce(results: seq<ProbeResult>, n: nat)
    requires n <= |results|
    ensures UpAfter(results, n) ==> exists i :: 0 <= i < n && results[i].ok
    ensures n > 0 && results[n - 1].ok ==> UpAfter(results, n)
  {
    if UpAfter(results, n) {
      var a :| a in Latest(results[..n], true);
      LastOkProbe(results[..n], a);
      var i :| 0 <= i < n && results[..n][i].ok;
      assert results[i].ok;
    }
    if n > 0 && results[n - 1].ok {
      assert results[..n] == results[..n - 1] + [results[n - 1]];
      LatestOneMore(results[..n - 1], results[n - 1]);
      assert results[n - 1].addr in Latest(results[..n], true);
    }
  }

  /** The analyzer calls a Rust run converged exactly when some probe succeeded. */
  lemma RustConvergesWhenProbed(decode: Decoder, t: ProbeTracker, file: seq<RawSpan>)
    requires t.Valid() && Records(file, t.emitted)
    ensures ConvergedReachable(decode, ParseTrace(file)) <==> exists i :: 0 <= i < |t.results| && t.results[i].ok
  {
    AnalyzerSees(file, t.emitted);
    var es := EventsFor(t.emitted);
    if i :| 0 <= i < |t.results| && t.results[i].ok {
      UpOnce(t.results, i + 1);
      RustShows(decode, t, i);
      assert ListAttr(decode, es[i], "reachable") != [];
    }
    if i :| 0 <= i < |es| && ListAttr(decode, es[i], "reachable") != [] {
      RustShows(decode, t, i);
      UpOnce(t.results, i + 1);
    }
  }

  /** Result `i` changes whether any address is reachable. */
  predicate Toggles(results: seq<ProbeResult>, i: int) {
    0 < i < |results| && UpAfter(results, i + 1) != UpAfter(results, i)
  }

  /** `flip` is the first such result, with the time of its span and the status it left. */
  ghost predicate IsFirstToggle(t: ProbeTracker, flip: Option<Flip>)
    reads t
    requires t.Valid()
  {
    match flip
    case None => forall i :: !Toggles(t.results, i)
    case Some(f) =>
      exists i :: Toggles(t.results, i)
        && f == Flip(t.emitted[i].elapsedMs, UpAfter(t.results, i))
        && forall j :: j < i ==> !Toggles(t.results, j)
  }

  lemma RustChanges(decode: Decoder, t: ProbeTracker, i: int)
    requires t.Valid()
    ensures Changes(decode, EventsFor(t.emitted), i) <==> Toggles(t.results, i)
    ensures Toggles(t.results, i) ==>
              ChangeAt(decode, EventsFor(t.emitted), i) == Flip(t.emitted[i].elapsedMs, UpAfter(t.results, i))
  {
    if 0 < i < |t.results| {
      RustShows(decode, t, i);
      RustShows(decode, t, i - 1);
    }
  }

  /** Rust tracker and analyzer together. The analyzer reports a flip exactly when
      some probe after the first changed whether any address is reachable; it is the
      first such probe, in either direction. */
  lemma RustFlipIsFirstToggle(decode: Decoder, t: ProbeTracker, file: seq<RawSpan>)
    requires t.Valid() && Records(file, t.emitted)
    ensures IsFirstToggle(t, FlipOf(decode, ParseTrace(file)))
  {
    AnalyzerSees(file, t.emitted);
    var es := EventsFor(t.emitted);
    FlipIsEarliestChange(decode, es);
    forall i ensures Changes(decode, es, i) <==> Toggles(t.results, i) {
      RustChanges(decode, t, i);
    }
    var flip := FirstFlip(decode, es, None);
    if flip.Some? {
      var i :| i >= 1 && Changes(decode, es, i) && flip.value == ChangeAt(decode, es, i)
            && forall j :: 1 <= j < i ==> !Changes(decode, es, j);
      RustChanges(decode, t, i);
      assert Toggles(t.results, i);
    }
  }

  lemma {:induction false} LastOkProbe(results: seq<ProbeResult>, addr: string)
    requires LastResult(results, addr) == Some(true)
    ensures exists i :: 0 <= i < |results| && results[i].ok
  {
    var n := |results| - 1;
    if results[n].addr != addr {
      LastOkProbe(results[..n], addr);
      var i :| 0 <= i < n && results[..n][i].ok;
      assert results[i].ok;
    }
  }
}
