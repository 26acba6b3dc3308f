/** The two error rates, read off the trace files themselves. */
module Rates {
  import opened Text
  import opened Otel
  import opened Bytes
  import opened Analyze
  import opened Agreement
  import opened Migration

  /** The last attribute under `key` has the value `v`. */
  predicate LastIs(attrs: seq<RawAttr>, key: string, v: Value) {
    exists j :: 0 <= j < |attrs| && IsLastWith(attrs, key, j) && attrs[j].raw.value == v
  }

  /** The last attribute under `key` reads as a list that is not empty. */
  predicate LastListed(decode: Decoder, attrs: seq<RawAttr>, key: string) {
    exists j :: 0 <= j < |attrs| && IsLastWith(attrs, key, j) && AsList(decode, Some(attrs[j].raw.value)) != []
  }

  /** A probe whose server said "public". */
  predicate PublicProbe(s: RawSpan) {
    s.name == "autonatv2.probe" && LastIs(s.attrs, "autonat.reachability", Str("public"))
  }

  predicate HasPublicProbe(file: seq<RawSpan>) {
    exists i :: 0 <= i < |file| && PublicProbe(file[i])
  }

  /** A change event, hosted or a span of its own, that lists a reachable address. */
  predicate ShowsRaw(decode: Decoder, name: string, attrs: seq<RawAttr>) {
    name == "reachable_addrs_changed" && LastListed(decode, attrs, "reachable")
  }

  predicate HostsShowing(decode: Decoder, s: RawSpan) {
    exists e :: 0 <= e < |s.events| && ShowsRaw(decode, s.events[e].name, s.events[e].attrs)
  }

  /** Some change event the analyzer reads, on the last session span or a span of its
      own, lists a reachable address. */
  predicate FileShows(decode: Decoder, file: seq<RawSpan>) {
    || (exists i :: 0 <= i < |file| && IsLastSession(file, i) && HostsShowing(decode, file[i]))
    || (exists i :: 0 <= i < |file| && ShowsRaw(decode, file[i].name, file[i].attrs))
  }

  // --------------------------------------------------------- raw and flattened

  /** Reading the dictionary is reading the last attribute. */
  lemma LookupLast(attrs: seq<RawAttr>, key: string)
    ensures forall v :: Lookup(Flatten(attrs), key) == Some(v) <==> LastIs(attrs, key, v)
    ensures forall decode :: AsList(decode, Lookup(Flatten(attrs), key)) != [] <==> LastListed(decode, attrs, key)
  {
    FlattenKeepsLast(attrs, key);
    if key in Flatten(attrs) {
      var j := LastWith(attrs, key);
      assert forall i :: IsLastWith(attrs, key, i) ==> i == j;
      assert Flatten(attrs)[key] == attrs[j].raw.value;
    }
  }

  lemma RawShows(decode: Decoder, name: string, time: string, attrs: seq<RawAttr>)
    ensures Shows(decode, Event(name, time, Flatten(attrs))) <==> ShowsRaw(decode, name, attrs)
  {
    LookupLast(attrs, "reachable");
  }

  lemma HostedShows(decode: Decoder, s: RawSpan)
    ensures HostShows(decode, s) <==> HostsShowing(decode, s)
  {
    var es := ToEvents(s.events);
    forall e | 0 <= e < |es| ensures Shows(decode, es[e]) <==> ShowsRaw(decode, s.events[e].name, s.events[e].attrs) {
      RawShows(decode, s.events[e].name, s.events[e].time, s.events[e].attrs);
    }
    if e :| 0 <= e < |es| && Shows(decode, es[e]) {
      assert ShowsRaw(decode, s.events[e].name, s.events[e].attrs);
    }
    if e :| 0 <= e < |es| && ShowsRaw(decode, s.events[e].name, s.events[e].attrs) {
      assert Shows(decode, es[e]);
    }
  }

  lemma ChangedIsTestbed()
    ensures CHANGED in TESTBED_SPAN_NAMES
  {
  }

  lemma OwnShowsRaw(decode: Decoder, s: RawSpan)
    ensures OwnShows(decode, s) <==> ShowsRaw(decode, s.name, s.attrs)
  {
    ChangedIsTestbed();
    RawShows(decode, s.name, s.startTime, s.attrs);
  }

  /** The analyzer sees convergence exactly when the file shows it. */
  lemma ConvergedInFile(decode: Decoder, file: seq<RawSpan>)
    ensures ConvergedReachable(decode, ParseTrace(file)) <==> FileShows(decode, file)
  {
    ConvergedWhenShown(decode, file);
    forall i | 0 <= i < |file|
      ensures HostShows(decode, file[i]) <==> HostsShowing(decode, file[i])
      ensures OwnShows(decode, file[i]) <==> ShowsRaw(decode, file[i].name, file[i].attrs)
    {
      HostedShows(decode, file[i]);
      OwnShowsRaw(decode, file[i]);
    }
  }

  // ------------------------------------------------------------------- probes

  predicate SomePublic(probes: seq<Span>) {
    exists i :: 0 <= i < |probes| && IsPublic(probes[i].attrs)
  }

  lemma PublicAppend(probes: seq<Span>, p: Span)
    ensures SomePublic(probes + [p]) <==> SomePublic(probes) || IsPublic(p.attrs)
  {
    if i :| 0 <= i < |probes| && IsPublic(probes[i].attrs) {
      assert (probes + [p])[i] == probes[i];
    }
    assert (probes + [p])[|probes|] == p;
  }

  lemma {:induction false} PublicInFile(file: seq<RawSpan>)
    ensures SomePublic(Named(file, PROBE)) <==> HasPublicProbe(file)
  {
    if file != [] {
      var n := |file| - 1;
      PublicInFile(file[..n]);
      HasProbeOneMore(file);
      LookupLast(file[n].attrs, "autonat.reachability");
      PublicAppend(Named(file[..n], PROBE), ToSpan(file[n]));
      assert IsPublic(ToSpan(file[n]).attrs) <==> LastIs(file[n].attrs, "autonat.reachability", Str("public"));
      assert Named(file, PROBE) == if file[n].name == PROBE then Named(file[..n], PROBE) + [ToSpan(file[n])]
                                   else Named(file[..n], PROBE);
    }
  }

  lemma HasProbeOneMore(file: seq<RawSpan>)
    requires file != []
    ensures HasPublicProbe(file) <==> HasPublicProbe(file[..|file| - 1]) || PublicProbe(file[|file| - 1])
  {
    var front := file[..|file| - 1];
    if i :| 0 <= i < |front| && PublicProbe(front[i]) {
      assert PublicProbe(file[i]);
    }
    if i :| 0 <= i < |file| && PublicProbe(file[i]) {
      assert i < |front| ==> PublicProbe(front[i]);
    }
  }

  lemma ProbesInFile(file: seq<RawSpan>)
    ensures AnyProbePublic(ParseTrace(file)) <==> HasPublicProbe(file)
  {
    PublicInFile(file);
    assert AnyProbePublic(ParseTrace(file)) <==> SomePublic(Named(file, PROBE));
  }

  // ---------------------------------------------------------------- the rates

  function HitSet(details: seq<Detail>): set<int> { set i | 0 <= i < |details| && details[i].hit }

  lemma {:induction false} HitsCount(details: seq<Detail>)
    ensures Hits(details) == |HitSet(details)| && Hits(details) <= |details|
  {
    if details != [] {
      var n := |details| - 1;
      HitsCount(details[..n]);
      assert HitSet(details) == HitSet(details[..n]) + (if details[n].hit then {n} else {});
    } else {
      assert HitSet(details) == {};
    }
  }

  /** Probes say the node can be reached and no change event ever says so. */
  predicate FalseNegative(decode: Decoder, file: seq<RawSpan>) {
    HasPublicProbe(file) && !FileShows(decode, file)
  }

  /** A change event says the node is reachable and no probe does. */
  predicate FalsePositive(decode: Decoder, file: seq<RawSpan>) {
    !HasPublicProbe(file) && FileShows(decode, file)
  }

  function FalseNegatives(decode: Decoder, files: seq<seq<RawSpan>>): set<int> {
    set i | 0 <= i < |files| && FalseNegative(decode, files[i])
  }

  function FalsePositives(decode: Decoder, files: seq<seq<RawSpan>>): set<int> {
    set i | 0 <= i < |files| && FalsePositive(decode, files[i])
  }

  /** The share of `count` files among all of them; 0 when there are none. */
  predicate IsShare(r: RateReport, count: nat, total: nat) {
    && r.total == total && r.hits == count
    && 0.0 <= r.rate <= 1.0
    && r.rate * total as real == count as real
    && (total == 0 ==> r.rate == 0.0)
  }

  lemma ShareBound(rate: real, count: real, total: real)
    requires total > 0.0 && 0.0 <= count <= total && rate == count / total
    ensures rate * total == count && 0.0 <= rate <= 1.0
  {
  }

  lemma ShareOf(count: nat, total: nat, details: seq<Detail>)
    requires count <= total
    ensures IsShare(RateReport(total, count, Rate(count, total), details), count, total)
  {
    if total > 0 {
      ShareBound(Rate(count, total), count as real, total as real);
    }
  }

  /** The false negative rate over any trace files: the share of the files in which
      some probe was public and no change event that counts shows an address. */
  lemma FnrOverFiles(decode: Decoder, files: seq<seq<RawSpan>>)
    ensures var r := FnrReport(decode, ParseAll(files));
            && |r.details| == |files|
            && (forall i :: 0 <= i < |files| ==>
                  && r.details[i].anyPublic == HasPublicProbe(files[i])
                  && r.details[i].reachable == FileShows(decode, files[i])
                  && r.details[i].hit == FalseNegative(decode, files[i]))
            && IsShare(r, |FalseNegatives(decode, files)|, |files|)
  {
    var r := FnrReport(decode, ParseAll(files));
    forall i | 0 <= i < |files|
      ensures r.details[i] == Detail(HasPublicProbe(files[i]), FileShows(decode, files[i]), FalseNegative(decode, files[i]))
    {
      ProbesInFile(files[i]);
      ConvergedInFile(decode, files[i]);
    }
    HitsCount(r.details);
    assert HitSet(r.details) == FalseNegatives(decode, files);
    ShareOf(r.hits, |files|, r.details);
  }

  /** The false positive rate: no probe was public and a change event shows one. */
  lemma FprOverFiles(decode: Decoder, files: seq<seq<RawSpan>>)
    ensures var r := FprReport(decode, ParseAll(files));
            && |r.details| == |files|
            && (forall i :: 0 <= i < |files| ==>
                  && r.details[i].anyPublic == HasPublicProbe(files[i])
                  && r.details[i].reachable == FileShows(decode, files[i])
                  && r.details[i].hit == FalsePositive(decode, files[i]))
            && IsShare(r, |FalsePositives(decode, files)|, |files|)
  {
    var r := FprReport(decode, ParseAll(files));
    forall i | 0 <= i < |files|
      ensures r.details[i] == Detail(HasPublicProbe(files[i]), FileShows(decode, files[i]), FalsePositive(decode, files[i]))
    {
      ProbesInFile(files[i]);
      ConvergedInFile(decode, files[i]);
    }
    HitsCount(r.details);
    assert HitSet(r.details) == FalsePositives(decode, files);
    ShareOf(r.hits, |files|, r.details);
  }
}
