/** The trace analyzer: parsing a trace file and the five metrics over parsed traces. */
module Analyze {
  import opened Text
  import opened Otel
  import opened Bytes
  import opened Stats

  const SESSION := "autonat.session"
  const REFRESH := "autonatv2.refresh_cycle"
  const PROBE := "autonatv2.probe"
  const SELECTION := "autonatv2.server_selection"
  const CHANGED := "reachable_addrs_changed"

  /** The spans that are testbed events of their own. */
  const TESTBED_SPAN_NAMES := {
    "started", "shutdown", "reachability_changed", "reachable_addrs_changed",
    "nat_device_type_changed", "addresses_updated", "local_protocols_updated",
    "auto_relay_addrs_updated", "connected", "connect_failed",
    "bootstrap_start", "bootstrap_done", "bootstrap_error",
    "bootstrap_connected", "peer_discovery_start", "peer_discovery_done",
    "peer_discovery_timeout"
  }

  datatype Trace = Trace(
    session: Option<Span>,
    refreshCycles: seq<Span>,
    probes: seq<Span>,
    serverSelections: seq<Attrs>
  )

  /** The spans called `name`, in file order. */
  function Named(file: seq<RawSpan>, name: string): seq<Span> {
    if file == [] then []
    else
      var last := file[|file| - 1];
      Named(file[..|file| - 1], name) + (if last.name == name then [ToSpan(last)] else [])
  }

  function LastNamed(file: seq<RawSpan>, name: string): Option<Span> {
    var spans := Named(file, name);
    if spans == [] then None else Some(spans[|spans| - 1])
  }

  function AttrsOf(spans: seq<Span>): seq<Attrs> {
    seq(|spans|, i requires 0 <= i < |spans| => spans[i].attrs)
  }

  /** A top-level testbed span read as a session event. */
  function AsEvent(s: RawSpan): Event {
    Event(s.name, s.startTime, Flatten(s.attrs))
  }

  function ExtraEvents(file: seq<RawSpan>): seq<Event> {
    if file == [] then []
    else ExtraEvents(file[..|file| - 1]) + OwnEvent(file[|file| - 1])
  }

  /** The event a testbed span stands for. */
  function OwnEvent(s: RawSpan): seq<Event> {
    if s.name in TESTBED_SPAN_NAMES then [AsEvent(s)] else []
  }

  function Merge(session: Option<Span>, extra: seq<Event>): Option<Span> {
    if extra == [] then session
    else
      var base := session.GetOr(Span(map[], []));
      Some(base.(events := base.events + extra))
  }

  function ParseTrace(file: seq<RawSpan>): Trace {
    Trace(Merge(LastNamed(file, SESSION), ExtraEvents(file)),
          Named(file, REFRESH), Named(file, PROBE), AttrsOf(Named(file, SELECTION)))
  }

  lemma LibraryNames()
    ensures SESSION != REFRESH && SESSION != PROBE && SESSION != SELECTION
    ensures REFRESH != PROBE && REFRESH != SELECTION && PROBE != SELECTION
    ensures SESSION !in TESTBED_SPAN_NAMES && REFRESH !in TESTBED_SPAN_NAMES
    ensures PROBE !in TESTBED_SPAN_NAMES && SELECTION !in TESTBED_SPAN_NAMES
  {
    assert SESSION[7] == '.' && REFRESH[7] == PROBE[7] == SELECTION[7] == 'v';
    assert REFRESH[10] == 'r' && PROBE[10] == 'p' && SELECTION[10] == 's';
    assert SESSION[0] == REFRESH[0] == PROBE[0] == SELECTION[0] == 'a';
    assert SESSION[4] == REFRESH[4] == PROBE[4] == SELECTION[4] == 'n';
    TestbedNameShape(SESSION);
    TestbedNameShape(REFRESH);
    TestbedNameShape(PROBE);
    TestbedNameShape(SELECTION);
  }

  /** No testbed name starts like "auton". */
  lemma TestbedNameShape(name: string)
    requires |name| >= 5 && name[0] == 'a' && name[4] == 'n'
    ensures name !in TESTBED_SPAN_NAMES
  {
    assert name != "addresses_updated" by { assert "addresses_updated"[4] == 'e'; }
    assert name != "auto_relay_addrs_updated" by { assert "auto_relay_addrs_updated"[4] == '_'; }
  }

  /** What the loop of `parse_trace` has gathered. */
  datatype Partial = Partial(
    session: Option<Span>, refreshCycles: seq<Span>, probes: seq<Span>, serverSelections: seq<Attrs>, extra: seq<Event>
  )

  function PartialOf(file: seq<RawSpan>): Partial {
    Partial(LastNamed(file, SESSION), Named(file, REFRESH), Named(file, PROBE),
            AttrsOf(Named(file, SELECTION)), ExtraEvents(file))
  }

  lemma NamedOneMore(file: seq<RawSpan>, i: nat, name: string)
    requires i < |file|
    ensures Named(file[..i + 1], name) == if file[i].name == name then Named(file[..i], name) + [ToSpan(file[i])] else Named(file[..i], name)
  {
    assert file[..i + 1][..i] == file[..i];
  }

  lemma ExtraOneMore(file: seq<RawSpan>, i: nat)
    requires i < |file|
    ensures ExtraEvents(file[..i + 1])
         == ExtraEvents(file[..i]) + OwnEvent(file[i])
  {
    assert file[..i + 1][..i] == file[..i];
  }

  lemma SessionOneMore(file: seq<RawSpan>, i: nat)
    requires i < |file|
    ensures LastNamed(file[..i + 1], SESSION)
         == if file[i].name == SESSION then Some(ToSpan(file[i])) else LastNamed(file[..i], SESSION)
  {
    NamedOneMore(file, i, SESSION);
  }

  lemma SelectionOneMore(file: seq<RawSpan>, i: nat)
    requires i < |file|
    ensures AttrsOf(Named(file[..i + 1], SELECTION))
         == AttrsOf(Named(file[..i], SELECTION)) + (if file[i].name == SELECTION then [ToSpan(file[i]).attrs] else [])
  {
    NamedOneMore(file, i, SELECTION);
    var spans := Named(file[..i], SELECTION);
    assert AttrsOf(spans + [ToSpan(file[i])]) == AttrsOf(spans) + [ToSpan(file[i]).attrs];
    assert AttrsOf(spans) + [] == AttrsOf(spans);
  }

  lemma PartialOneMore(file: seq<RawSpan>, i: nat)
    requires i < |file|
    ensures var p, p', s := PartialOf(file[..i]), PartialOf(file[..i + 1]), file[i];
            && p'.session == (if s.name == SESSION then Some(ToSpan(s)) else p.session)
            && p'.refreshCycles == (if s.name == REFRESH then p.refreshCycles + [ToSpan(s)] else p.refreshCycles)
            && p'.probes == (if s.name == PROBE then p.probes + [ToSpan(s)] else p.probes)
            && p'.serverSelections == p.serverSelections + (if s.name == SELECTION then [ToSpan(s).attrs] else [])
            && p'.extra == p.extra + OwnEvent(s)
  {
    SessionOneMore(file, i);
    NamedOneMore(file, i, REFRESH);
    NamedOneMore(file, i, PROBE);
    SelectionOneMore(file, i);
    ExtraOneMore(file, i);
  }

  method ParseTraceFile(file: seq<RawSpan>) returns (t: Trace)
    ensures t == ParseTrace(file)
  {
    var session: Option<Span> := None;
    var refreshCycles, probes, serverSelections, extra := [], [], [], [];
    for i := 0 to |file|
      invariant Partial(session, refreshCycles, probes, serverSelections, extra) == PartialOf(file[..i])
    {
      PartialOneMore(file, i);
      LibraryNames();
      var name := file[i].name;
      var attrs := FlattenAttrs(file[i].attrs);
      var events := ToEvents(file[i].events);
      if name == SESSION {
        session := Some(Span(attrs, events));
      } else if name == REFRESH {
        refreshCycles := refreshCycles + [Span(attrs, events)];
      } else if name == PROBE {
        probes := probes + [Span(attrs, events)];
      } else if name == SELECTION {
        serverSelections := serverSelections + [attrs];
      } else if name in TESTBED_SPAN_NAMES {
        extra := extra + [Event(name, file[i].startTime, attrs)];
      }
    }
    assert file[..|file|] == file;
    if extra != [] {
      if session.None? {
        session := Some(Span(map[], []));
      }
      session := Some(session.value.(events := session.value.events + extra));
    }
    t := Trace(session, refreshCycles, probes, serverSelections);
  }

  // ------------------------------------------------------------- per trace

  function Filter(events: seq<Event>, name: string): seq<Event> {
    if events == [] then []
    else (if events[0].name == name then [events[0]] else []) + Filter(events[1..], name)
  }

  function SessionEvents(t: Trace, name: string): seq<Event> {
    if t.session.None? then [] else Filter(t.session.value.events, name)
  }

  predicate AnyProbePublic(t: Trace) {
    exists i :: 0 <= i < |t.probes| && IsPublic(t.probes[i].attrs)
  }

  /** Some event carries a non-empty list under `key`. */
  predicate SomeListed(decode: Decoder, events: seq<Event>, key: string) {
    exists i :: 0 <= i < |events| && ListAttr(decode, events[i], key) != []
  }

  predicate ConvergedReachable(decode: Decoder, t: Trace) {
    SomeListed(decode, SessionEvents(t, CHANGED), "reachable")
  }

  /** elapsed_ms of the first event that lists something under `key` and has one. */
  function FirstListed(decode: Decoder, events: seq<Event>, key: string): Option<int> {
    if events == [] then None
    else if ListAttr(decode, events[0], key) != [] && Elapsed(events[0]).Some? then Elapsed(events[0])
    else FirstListed(decode, events[1..], key)
  }

  /** A status flip: when it was seen, and the status it left. */
  datatype Flip = Flip(elapsedMs: int, fromReachable: bool)

  /** The first event whose reachability differs from the event before it, among
      those with a usable elapsed_ms. */
  function FirstFlip(decode: Decoder, events: seq<Event>, previous: Option<bool>): Option<Flip> {
    if events == [] then None
    else
      var reachable := ListAttr(decode, events[0], "reachable") != [];
      if previous.Some? && reachable != previous.value && Elapsed(events[0]).Some? then
        Some(Flip(Elapsed(events[0]).value, previous.value))
      else FirstFlip(decode, events[1..], Some(reachable))
  }

  function FlipOf(decode: Decoder, t: Trace): Option<Flip> {
    FirstFlip(decode, SessionEvents(t, CHANGED), None)
  }

  // ------------------------------------------------------------- FNR and FPR

  datatype Detail = Detail(anyPublic: bool, reachable: bool, hit: bool)

  datatype RateReport = RateReport(total: nat, hits: nat, rate: real, details: seq<Detail>)

  function Hits(details: seq<Detail>): nat {
    if details == [] then 0 else Hits(details[..|details| - 1]) + (if details[|details| - 1].hit then 1 else 0)
  }

  lemma HitsOneMore(details: seq<Detail>, d: Detail)
    ensures Hits(details + [d]) == Hits(details) + if d.hit then 1 else 0
  {
    assert (details + [d])[..|details|] == details;
  }

  function Rate(hits: nat, total: nat): real {
    if total > 0 then hits as real / total as real else 0.0
  }

  function FnrDetail(decode: Decoder, t: Trace): Detail {
    Detail(AnyProbePublic(t), ConvergedReachable(decode, t), AnyProbePublic(t) && !ConvergedReachable(decode, t))
  }

  function FprDetail(decode: Decoder, t: Trace): Detail {
    Detail(AnyProbePublic(t), ConvergedReachable(decode, t), !AnyProbePublic(t) && ConvergedReachable(decode, t))
  }

  function FnrReport(decode: Decoder, traces: seq<Trace>): RateReport {
    var details := seq(|traces|, i requires 0 <= i < |traces| => FnrDetail(decode, traces[i]));
    RateReport(|traces|, Hits(details), Rate(Hits(details), |traces|), details)
  }

  function FprReport(decode: Decoder, traces: seq<Trace>): RateReport {
    var details := seq(|traces|, i requires 0 <= i < |traces| => FprDetail(decode, traces[i]));
    RateReport(|traces|, Hits(details), Rate(Hits(details), |traces|), details)
  }

  method ComputeFnr(decode: Decoder, traces: seq<Trace>) returns (r: RateReport)
    ensures r == FnrReport(decode, traces)
  {
    var fnCount := 0;
    var details := [];
    for i := 0 to |traces|
      invariant |details| == i && forall k :: 0 <= k < i ==> details[k] == FnrDetail(decode, traces[k])
      invariant fnCount == Hits(details)
    {
      var anyPublic := AnyProbePublic(traces[i]);
      var convergedReachable := ConvergedReachable(decode, traces[i]);
      var isFn := anyPublic && !convergedReachable;
      if isFn {
        fnCount := fnCount + 1;
      }
      var detail := Detail(anyPublic, convergedReachable, isFn);
      HitsOneMore(details, detail);
      details := details + [detail];
    }
    assert details == FnrReport(decode, traces).details;
    r := RateReport(|traces|, fnCount, Rate(fnCount, |traces|), details);
  }

  method ComputeFpr(decode: Decoder, traces: seq<Trace>) returns (r: RateReport)
    ensures r == FprReport(decode, traces)
  {
    var fpCount := 0;
    var details := [];
    for i := 0 to |traces|
      invariant |details| == i && forall k :: 0 <= k < i ==> details[k] == FprDetail(decode, traces[k])
      invariant fpCount == Hits(details)
    {
      var anyPublic := AnyProbePublic(traces[i]);
      var reportedReachable := ConvergedReachable(decode, traces[i]);
      var isFp := !anyPublic && reportedReachable;
      if isFp {
        fpCount := fpCount + 1;
      }
      var detail := Detail(anyPublic, reportedReachable, isFp);
      HitsOneMore(details, detail);
      details := details + [detail];
    }
    assert details == FprReport(decode, traces).details;
    r := RateReport(|traces|, fpCount, Rate(fpCount, |traces|), details);
  }

  // ------------------------------------------------------ time to confidence

  datatype ConfidenceReport = ConfidenceReport(
    total: nat, noConvergence: nat, reachable: seq<int>, unreachable: seq<int>,
    reachableStats: Option<Summary>, unreachableStats: Option<Summary>
  )

  datatype Convergence = ReachableAt(ms: int) | UnreachableAt(ms: int) | Never

  function ConvergenceOf(decode: Decoder, t: Trace): Convergence {
    var events := SessionEvents(t, CHANGED);
    match FirstListed(decode, events, "reachable")
    case Some(ms) => ReachableAt(ms)
    case None =>
      match FirstListed(decode, events, "unreachable")
      case Some(ms) => UnreachableAt(ms)
      case None => Never
  }

  function Convergences(decode: Decoder, traces: seq<Trace>): seq<Convergence> {
    seq(|traces|, i requires 0 <= i < |traces| => ConvergenceOf(decode, traces[i]))
  }

  function ReachableTimes(cs: seq<Convergence>): seq<int> {
    if cs == [] then []
    else ReachableTimes(cs[..|cs| - 1]) + (if cs[|cs| - 1].ReachableAt? then [cs[|cs| - 1].ms] else [])
  }

  function UnreachableTimes(cs: seq<Convergence>): seq<int> {
    if cs == [] then []
    else UnreachableTimes(cs[..|cs| - 1]) + (if cs[|cs| - 1].UnreachableAt? then [cs[|cs| - 1].ms] else [])
  }

  function NeverCount(cs: seq<Convergence>): nat {
    if cs == [] then 0 else NeverCount(cs[..|cs| - 1]) + (if cs[|cs| - 1].Never? then 1 else 0)
  }

  function ConfidenceOf(decode: Decoder, traces: seq<Trace>): ConfidenceReport {
    var cs := Convergences(decode, traces);
    ConfidenceReport(|traces|, NeverCount(cs), ReachableTimes(cs), UnreachableTimes(cs),
                     Summarize(ReachableTimes(cs)), Summarize(UnreachableTimes(cs)))
  }

  /** The inner loop: both times in one pass over the events. */
  method FirstTimes(decode: Decoder, events: seq<Event>) returns (reachable: Option<int>, unreachable: Option<int>)
    ensures reachable == FirstListed(decode, events, "reachable")
    ensures unreachable == FirstListed(decode, events, "unreachable")
  {
    reachable, unreachable := None, None;
    for i := 0 to |events|
      invariant FirstListed(decode, events, "reachable")
             == if reachable.Some? then reachable else FirstListed(decode, events[i..], "reachable")
      invariant FirstListed(decode, events, "unreachable")
             == if unreachable.Some? then unreachable else FirstListed(decode, events[i..], "unreachable")
    {
      assert events[i..][0] == events[i] && events[i..][1..] == events[i + 1..];
      if reachable.None? && ListAttr(decode, events[i], "reachable") != [] {
        reachable := Elapsed(events[i]);
      }
      if unreachable.None? && ListAttr(decode, events[i], "unreachable") != [] {
        unreachable := Elapsed(events[i]);
      }
    }
  }

  method ComputeTimeToConfidence(decode: Decoder, traces: seq<Trace>) returns (r: ConfidenceReport)
    ensures r == ConfidenceOf(decode, traces)
  {
    var reachableTimes, unreachableTimes, noConvergence := [], [], 0;
    ghost var cs := Convergences(decode, traces);
    for i := 0 to |traces|
      invariant reachableTimes == ReachableTimes(cs[..i]) && unreachableTimes == UnreachableTimes(cs[..i])
      invariant noConvergence == NeverCount(cs[..i])
    {
      assert cs[..i + 1][..i] == cs[..i] && cs[..i + 1][i] == ConvergenceOf(decode, traces[i]);
      var reachable, unreachable := FirstTimes(decode, SessionEvents(traces[i], CHANGED));
      if reachable.Some? {
        reachableTimes := reachableTimes + [reachable.value];
      } else if unreachable.Some? {
        unreachableTimes := unreachableTimes + [unreachable.value];
      } else {
        noConvergence := noConvergence + 1;
      }
    }
    assert cs[..|traces|] == cs;
    r := ConfidenceReport(|traces|, noConvergence, reachableTimes, unreachableTimes,
                          Summarize(reachableTimes), Summarize(unreachableTimes));
  }

  // ----------------------------------------------------------- time to update

  datatype UpdateReport = UpdateReport(total: nat, noFlip: nat, flips: seq<Flip>)

  function FlipsOf(decode: Decoder, traces: seq<Trace>): seq<Option<Flip>> {
    seq(|traces|, i requires 0 <= i < |traces| => FlipOf(decode, traces[i]))
  }

  function Present<T>(flips: seq<Option<T>>): seq<T> {
    if flips == [] then []
    else Present(flips[..|flips| - 1]) + (if flips[|flips| - 1].Some? then [flips[|flips| - 1].value] else [])
  }

  function UpdateOf(decode: Decoder, traces: seq<Trace>): UpdateReport {
    var flips := Present(FlipsOf(decode, traces));
    PresentLength(FlipsOf(decode, traces));
    UpdateReport(|traces|, |traces| - |flips|, flips)
  }

  lemma {:induction false} PresentLength<T>(flips: seq<Option<T>>)
    ensures |Present(flips)| <= |flips|
  {
    if flips != [] {
      PresentLength(flips[..|flips| - 1]);
    }
  }

  method FindFlip(decode: Decoder, events: seq<Event>) returns (flip: Option<Flip>)
    ensures flip == FirstFlip(decode, events, None)
  {
    var prevReachable: Option<bool> := None;
    for i := 0 to |events|
      invariant FirstFlip(decode, events, None) == FirstFlip(decode, events[i..], prevReachable)
    {
      assert events[i..][0] == events[i] && events[i..][1..] == events[i + 1..];
      var isReachable := ListAttr(decode, events[i], "reachable") != [];
      if prevReachable.Some? && isReachable != prevReachable.value {
        var elapsed := Elapsed(events[i]);
        if elapsed.Some? {
          return Some(Flip(elapsed.value, prevReachable.value));
        }
      }
      prevReachable := Some(isReachable);
    }
    flip := None;
  }

  method ComputeTimeToUpdate(decode: Decoder, traces: seq<Trace>) returns (r: UpdateReport)
    ensures r == UpdateOf(decode, traces)
  {
    var flipTimes, noFlip := [], 0;
    ghost var flips := FlipsOf(decode, traces);
    for i := 0 to |traces|
      invariant flipTimes == Present(flips[..i]) && noFlip + |flipTimes| == i
    {
      assert flips[..i + 1][..i] == flips[..i] && flips[..i + 1][i] == FlipOf(decode, traces[i]);
      var flip := FindFlip(decode, SessionEvents(traces[i], CHANGED));
      if flip.Some? {
        flipTimes := flipTimes + [flip.value];
      } else {
        noFlip := noFlip + 1;
      }
    }
    assert flips[..|traces|] == flips;
    r := UpdateReport(|traces|, noFlip, flipTimes);
  }

  // -------------------------------------------------------- protocol overhead

  datatype OverheadReport = OverheadReport(
    probeCounts: seq<int>, cycleCounts: seq<int>, durations: seq<int>,
    protocolPerProbe: seq<int>, amplificationPerProbe: seq<int>, totalPerProbe: seq<int>,
    totalPerSession: seq<int>, amplified: nat, probes: nat
  )

  const NO_OVERHEAD := OverheadReport([], [], [], [], [], [], [], 0, 0)

  /** The reports of each trace in turn, one estimate after the other. */
  function AddProbe(decode: Decoder, r: OverheadReport, probe: Span): OverheadReport {
    var est := EstimateOf(decode, probe);
    r.(protocolPerProbe := r.protocolPerProbe + [est.protocolOnly],
       amplificationPerProbe := r.amplificationPerProbe + [est.amplification],
       totalPerProbe := r.totalPerProbe + [est.total],
       amplified := r.amplified + (if est.amplification > 0 then 1 else 0),
       probes := r.probes + 1)
  }

  function AddProbes(decode: Decoder, r: OverheadReport, probes: seq<Span>): OverheadReport {
    if probes == [] then r
    else AddProbe(decode, AddProbes(decode, r, probes[..|probes| - 1]), probes[|probes| - 1])
  }

  function SessionTotal(decode: Decoder, probes: seq<Span>): int {
    if probes == [] then 0
    else SessionTotal(decode, probes[..|probes| - 1]) + EstimateOf(decode, probes[|probes| - 1]).total
  }

  function DurationOf(t: Trace): Option<int> {
    var events := SessionEvents(t, "shutdown");
    if events == [] then None else Elapsed(events[|events| - 1])
  }

  function CountTrace(r: OverheadReport, t: Trace): OverheadReport {
    r.(probeCounts := r.probeCounts + [|t.probes|],
       cycleCounts := r.cycleCounts + [|t.refreshCycles|],
       durations := if DurationOf(t).Some? then r.durations + [DurationOf(t).value] else r.durations)
  }

  function AddTrace(decode: Decoder, r: OverheadReport, t: Trace): OverheadReport {
    var added := AddProbes(decode, CountTrace(r, t), t.probes);
    if t.probes == [] then added
    else added.(totalPerSession := added.totalPerSession + [SessionTotal(decode, t.probes)])
  }

  function OverheadOf(decode: Decoder, traces: seq<Trace>): OverheadReport {
    if traces == [] then NO_OVERHEAD
    else AddTrace(decode, OverheadOf(decode, traces[..|traces| - 1]), traces[|traces| - 1])
  }

  lemma ProbesOneMore(decode: Decoder, before: OverheadReport, probes: seq<Span>, p: nat)
    requires p < |probes|
    ensures AddProbes(decode, before, probes[..p + 1]) == AddProbe(decode, AddProbes(decode, before, probes[..p]), probes[p])
    ensures SessionTotal(decode, probes[..p + 1])
         == SessionTotal(decode, probes[..p]) + EstimateOf(decode, probes[p]).total
  {
    assert probes[..p + 1][..p] == probes[..p];
  }

  /** The inner loop, over the probes of one trace. */
  method EstimateProbes(decode: Decoder, before: OverheadReport, probes: seq<Span>)
    returns (r: OverheadReport, sessionTotal: int)
    ensures r == AddProbes(decode, before, probes) && sessionTotal == SessionTotal(decode, probes)
  {
    r, sessionTotal := before, 0;
    for p := 0 to |probes|
      invariant r == AddProbes(decode, before, probes[..p])
      invariant sessionTotal == SessionTotal(decode, probes[..p])
    {
      ProbesOneMore(decode, before, probes, p);
      var est := ProbeByteEstimate(decode, probes[p]);
      r := r.(protocolPerProbe := r.protocolPerProbe + [est.protocolOnly],
              amplificationPerProbe := r.amplificationPerProbe + [est.amplification],
              totalPerProbe := r.totalPerProbe + [est.total],
              probes := r.probes + 1);
      sessionTotal := sessionTotal + est.total;
      if est.amplification > 0 {
        r := r.(amplified := r.amplified + 1);
      }
    }
    assert probes[..|probes|] == probes;
  }

  lemma OverheadOneMore(decode: Decoder, traces: seq<Trace>, i: nat)
    requires i < |traces|
    ensures OverheadOf(decode, traces[..i + 1]) == AddTrace(decode, OverheadOf(decode, traces[..i]), traces[i])
  {
    assert traces[..i + 1][..i] == traces[..i];
  }

  method ComputeProtocolOverhead(decode: Decoder, traces: seq<Trace>) returns (r: OverheadReport)
    ensures r == OverheadOf(decode, traces)
  {
    r := NO_OVERHEAD;
    for i := 0 to |traces|
      invariant r == OverheadOf(decode, traces[..i])
    {
      OverheadOneMore(decode, traces, i);
      var t := traces[i];
      var counted := r.(probeCounts := r.probeCounts + [|t.probes|], cycleCounts := r.cycleCounts + [|t.refreshCycles|]);
      var shutdownEvents := SessionEvents(t, "shutdown");
      if shutdownEvents != [] {
        var duration := Elapsed(shutdownEvents[|shutdownEvents| - 1]);
        if duration.Some? {
          counted := counted.(durations := counted.durations + [duration.value]);
        }
      }
      assert counted == CountTrace(r, t);
      var added, sessionTotal := EstimateProbes(decode, counted, t.probes);
      r := if t.probes == [] then added
           else added.(totalPerSession := added.totalPerSession + [sessionTotal]);
    }
    assert traces[..|traces|] == traces;
  }

  // ------------------------------------------------------------ conservation

  function Sum(xs: seq<int>): int {
    if xs == [] then 0 else Sum(xs[..|xs| - 1]) + xs[|xs| - 1]
  }

  lemma SumOneMore(xs: seq<int>, x: int)
    ensures Sum(xs + [x]) == Sum(xs) + x
  {
    assert (xs + [x])[..|xs|] == xs;
  }

  lemma {:induction false} ProbesConserve(decode: Decoder, r: OverheadReport, probes: seq<Span>)
    ensures var s := AddProbes(decode, r, probes);
            && Sum(s.totalPerProbe) == Sum(r.totalPerProbe) + SessionTotal(decode, probes)
            && Sum(s.protocolPerProbe) + Sum(s.amplificationPerProbe)
               == Sum(r.protocolPerProbe) + Sum(r.amplificationPerProbe) + SessionTotal(decode, probes)
            && s.totalPerSession == r.totalPerSession
            && s.probes == r.probes + |probes| && |s.totalPerProbe| == |r.totalPerProbe| + |probes|
            && s.amplified - r.amplified <= |probes|
            && s.probeCounts == r.probeCounts
  {
    if probes != [] {
      var n := |probes| - 1;
      ProbesConserve(decode, r, probes[..n]);
      var s := AddProbes(decode, r, probes[..n]);
      var est := EstimateOf(decode, probes[n]);
      SumOneMore(s.totalPerProbe, est.total);
      SumOneMore(s.protocolPerProbe, est.protocolOnly);
      SumOneMore(s.amplificationPerProbe, est.amplification);
    }
  }

  predicate Balanced(r: OverheadReport) {
    && Sum(r.totalPerSession) == Sum(r.totalPerProbe)
    && Sum(r.totalPerProbe) == Sum(r.protocolPerProbe) + Sum(r.amplificationPerProbe)
    && Sum(r.probeCounts) == r.probes == |r.totalPerProbe|
    && r.amplified <= r.probes
  }

  lemma CountingKeepsSums(r: OverheadReport, t: Trace)
    ensures var c := CountTrace(r, t);
            && c.totalPerSession == r.totalPerSession && c.totalPerProbe == r.totalPerProbe
            && c.protocolPerProbe == r.protocolPerProbe && c.amplificationPerProbe == r.amplificationPerProbe
            && c.probes == r.probes && c.amplified == r.amplified
            && Sum(c.probeCounts) == Sum(r.probeCounts) + |t.probes|
  {
    SumOneMore(r.probeCounts, |t.probes|);
  }

  lemma ProbesKeepSums(decode: Decoder, r: OverheadReport, t: Trace)
    ensures var s := AddProbes(decode, CountTrace(r, t), t.probes);
            && s.totalPerSession == r.totalPerSession
            && Sum(s.totalPerProbe) == Sum(r.totalPerProbe) + SessionTotal(decode, t.probes)
            && Sum(s.protocolPerProbe) + Sum(s.amplificationPerProbe)
               == Sum(r.protocolPerProbe) + Sum(r.amplificationPerProbe) + SessionTotal(decode, t.probes)
            && s.probes == r.probes + |t.probes| && |s.totalPerProbe| == |r.totalPerProbe| + |t.probes|
            && s.amplified - r.amplified <= |t.probes|
            && Sum(s.probeCounts) == Sum(r.probeCounts) + |t.probes|
  {
    CountingKeepsSums(r, t);
    ProbesConserve(decode, CountTrace(r, t), t.probes);
  }

  lemma SessionIsAppended(decode: Decoder, r: OverheadReport, t: Trace)
    ensures var added := AddProbes(decode, CountTrace(r, t), t.probes);
            AddTrace(decode, r, t)
            == if t.probes == [] then added
               else added.(totalPerSession := r.totalPerSession + [SessionTotal(decode, t.probes)])
  {
    ProbesKeepSums(decode, r, t);
  }

  lemma TraceKeepsBalance(decode: Decoder, r: OverheadReport, t: Trace)
    requires Balanced(r)
    ensures Balanced(AddTrace(decode, r, t))
  {
    ProbesKeepSums(decode, r, t);
    SessionIsAppended(decode, r, t);
    SumOneMore(r.totalPerSession, SessionTotal(decode, t.probes));
  }

  /** Byte accounting over any traces: the sessions' totals, the probes' totals,
      and protocol bytes plus amplification are one and the same sum, and every
      probe of every trace is counted once. */
  lemma {:induction false} BytesAreConserved(decode: Decoder, traces: seq<Trace>)
    ensures Balanced(OverheadOf(decode, traces))
  {
    if traces != [] {
      var n := |traces| - 1;
      BytesAreConserved(decode, traces[..n]);
      TraceKeepsBalance(decode, OverheadOf(decode, traces[..n]), traces[n]);
    }
  }

  lemma {:induction false} HitsPartition(a: seq<Detail>, b: seq<Detail>)
    requires |a| == |b|
    requires forall i :: 0 <= i < |a| ==> !(a[i].hit && b[i].hit)
    ensures Hits(a) + Hits(b) <= |a|
    ensures Hits(a) + Hits(b) == |a| <==> forall i :: 0 <= i < |a| ==> a[i].hit || b[i].hit
  {
    if a != [] {
      var n := |a| - 1;
      HitsPartition(a[..n], b[..n]);
    }
  }

  /** No trace is both a false negative and a false positive; together they are
      all the traces exactly when every trace contradicts its own probes. */
  lemma RatesAreDisjoint(decode: Decoder, traces: seq<Trace>)
    ensures var fn, fp := FnrReport(decode, traces), FprReport(decode, traces);
            && fn.hits + fp.hits <= |traces|
            && (fn.hits + fp.hits == |traces| <==>
                  forall i :: 0 <= i < |traces| ==> AnyProbePublic(traces[i]) != ConvergedReachable(decode, traces[i]))
  {
    var a, b := FnrReport(decode, traces).details, FprReport(decode, traces).details;
    HitsPartition(a, b);
    assert forall i :: 0 <= i < |traces| ==>
      ((a[i].hit || b[i].hit) <==> AnyProbePublic(traces[i]) != ConvergedReachable(decode, traces[i]));
  }

  lemma {:induction false} ConvergencesPartition(cs: seq<Convergence>)
    ensures |ReachableTimes(cs)| + |UnreachableTimes(cs)| + NeverCount(cs) == |cs|
  {
    if cs != [] {
      ConvergencesPartition(cs[..|cs| - 1]);
    }
  }

  /** Every trace is dated once or counted as never converging. */
  lemma ConfidenceAccountsForAll(decode: Decoder, traces: seq<Trace>)
    ensures var r := ConfidenceOf(decode, traces);
            |r.reachable| + |r.unreachable| + r.noConvergence == r.total == |traces|
  {
    ConvergencesPartition(Convergences(decode, traces));
  }

  // ------------------------------------------ what the recursive searches find

  predicate Listed(decode: Decoder, e: Event, key: string) {
    ListAttr(decode, e, key) != [] && Elapsed(e).Some?
  }

  /** `found` is the time of the earliest usable event, if there is one. */
  ghost predicate IsEarliestListed(decode: Decoder, events: seq<Event>, key: string, found: Option<int>) {
    match found
    case None => forall i :: 0 <= i < |events| ==> !Listed(decode, events[i], key)
    case Some(ms) =>
      exists i :: 0 <= i < |events| && Listed(decode, events[i], key) && Elapsed(events[i]) == Some(ms)
        && forall j :: 0 <= j < i ==> !Listed(decode, events[j], key)
  }

  /** The time reported for `key` is that of the earliest usable event. */
  lemma {:induction false} FirstListedIsEarliest(decode: Decoder, events: seq<Event>, key: string)
    ensures IsEarliestListed(decode, events, key, FirstListed(decode, events, key))
  {
    if events != [] {
      var rest := events[1..];
      assert forall i :: 0 <= i < |rest| ==> rest[i] == events[i + 1];
      FirstListedIsEarliest(decode, rest, key);
      if Listed(decode, events[0], key) {
        assert Elapsed(events[0]) == FirstListed(decode, events, key);
      } else if FirstListed(decode, rest, key).Some? {
        var i :| 0 <= i < |rest| && Listed(decode, rest[i], key) && Elapsed(rest[i]) == FirstListed(decode, rest, key)
              && forall j :: 0 <= j < i ==> !Listed(decode, rest[j], key);
        assert Listed(decode, events[i + 1], key);
        forall j | 0 <= j < i + 1 ensures !Listed(decode, events[j], key) {
          if j > 0 {
            assert rest[j - 1] == events[j];
          }
        }
      } else {
        forall j | 0 <= j < |events| ensures !Listed(decode, events[j], key) {
          if j > 0 {
            assert rest[j - 1] == events[j];
          }
        }
      }
    }
  }

  predicate ShowsReachable(decode: Decoder, e: Event) { ListAttr(decode, e, "reachable") != [] }

  /** Event `i` changes the status of the event before it, at a usable time. */
  predicate Changes(decode: Decoder, events: seq<Event>, i: int) {
    0 < i < |events| && ShowsReachable(decode, events[i]) != ShowsReachable(decode, events[i - 1]) && Elapsed(events[i]).Some?
  }

  function ChangeAt(decode: Decoder, events: seq<Event>, i: int): Flip
    requires Changes(decode, events, i)
  {
    Flip(Elapsed(events[i]).value, ShowsReachable(decode, events[i - 1]))
  }

  /** `flip` is the earliest change of status from event `k` on, if there is one. */
  ghost predicate IsEarliestChange(decode: Decoder, events: seq<Event>, k: int, flip: Option<Flip>) {
    match flip
    case None => forall i :: i >= k ==> !Changes(decode, events, i)
    case Some(f) =>
      exists i :: i >= k && Changes(decode, events, i)
        && f == ChangeAt(decode, events, i)
        && forall j :: k <= j < i ==> !Changes(decode, events, j)
  }

  /** The flip that is reported is the earliest change of status, with its time and
      the status it left; none is reported when there is none. */
  lemma FlipIsEarliestChange(decode: Decoder, events: seq<Event>)
    ensures IsEarliestChange(decode, events, 1, FirstFlip(decode, events, None))
  {
    if events != [] {
      FlipFrom(decode, events, 1);
      assert FirstFlip(decode, events, None) == FlipAfter(decode, events, 1);
    }
  }

  lemma FlipUnfolds(decode: Decoder, events: seq<Event>, k: nat)
    requires 1 <= k < |events|
    ensures FlipAfter(decode, events, k)
         == if Changes(decode, events, k) then Some(ChangeAt(decode, events, k)) else FlipAfter(decode, events, k + 1)
  {
    assert events[k..][0] == events[k] && events[k..][1..] == events[k + 1..];
  }

  lemma EarliestHere(decode: Decoder, events: seq<Event>, k: nat)
    requires Changes(decode, events, k)
    ensures IsEarliestChange(decode, events, k, Some(ChangeAt(decode, events, k)))
  {
  }

  lemma EarliestLater(decode: Decoder, events: seq<Event>, k: nat, flip: Option<Flip>)
    requires !Changes(decode, events, k) && IsEarliestChange(decode, events, k + 1, flip)
    ensures IsEarliestChange(decode, events, k, flip)
  {
  }

  function FlipAfter(decode: Decoder, events: seq<Event>, k: nat): Option<Flip>
    requires 1 <= k <= |events|
  {
    FirstFlip(decode, events[k..], Some(ShowsReachable(decode, events[k - 1])))
  }

  lemma {:induction false} FlipFrom(decode: Decoder, events: seq<Event>, k: nat)
    requires 1 <= k <= |events|
    ensures IsEarliestChange(decode, events, k, FlipAfter(decode, events, k))
    decreases |events| - k
  {
    if k < |events| {
      FlipUnfolds(decode, events, k);
      if Changes(decode, events, k) {
        EarliestHere(decode, events, k);
      } else {
        FlipFrom(decode, events, k + 1);
        EarliestLater(decode, events, k, FlipAfter(decode, events, k + 1));
      }
    } else {
      assert FlipAfter(decode, events, k) == None;
    }
  }

  // ------------------------------------------------------- what the lists hold

  /** `picked` are the values present in `all`, each once and in order, found `at`. */
  predicate Picks<T(==)>(all: seq<Option<T>>, picked: seq<T>, at: seq<nat>) {
    && |at| == |picked|
    && (forall k :: 0 <= k < |at| ==> at[k] < |all| && all[at[k]] == Some(picked[k]))
    && (forall j, k :: 0 <= j < k < |at| ==> at[j] < at[k])
    && (forall i :: 0 <= i < |all| && all[i].Some? ==> i in at)
  }

  lemma {:induction false} PresentPicks<T>(all: seq<Option<T>>) returns (at: seq<nat>)
    ensures Picks(all, Present(all), at)
  {
    if all == [] {
      at := [];
    } else {
      var n := |all| - 1;
      var before := PresentPicks(all[..n]);
      assert all == all[..n] + [all[n]];
      at := before + if all[n].Some? then [n] else [];
      if all[n].Some? {
        PicksOneMore(all[..n], Present(all[..n]), before, all[n].value);
      } else {
        PicksNoMore(all[..n], Present(all[..n]), before);
        assert before + [] == before && Present(all[..n]) + [] == Present(all[..n]);
      }
    }
  }

  lemma PicksOneMore<T>(all: seq<Option<T>>, picked: seq<T>, at: seq<nat>, v: T)
    requires Picks(all, picked, at)
    ensures Picks(all + [Some(v)], picked + [v], at + [|all|])
  {
    var more := at + [|all|];
    assert more[|at|] == |all|;
    forall i | 0 <= i < |all| && all[i].Some? ensures i in more {
      assert i in at;
    }
  }

  lemma PicksNoMore<T>(all: seq<Option<T>>, picked: seq<T>, at: seq<nat>)
    requires Picks(all, picked, at)
    ensures Picks(all + [None], picked, at)
  {
  }

  /** The flips reported are those of the traces that have one, in trace order; the
      others are counted. */
  lemma UpdatesListFlips(decode: Decoder, traces: seq<Trace>) returns (at: seq<nat>)
    ensures Picks(FlipsOf(decode, traces), UpdateOf(decode, traces).flips, at)
    ensures UpdateOf(decode, traces).noFlip + |at| == |traces| == UpdateOf(decode, traces).total
  {
    at := PresentPicks(FlipsOf(decode, traces));
    PresentLength(FlipsOf(decode, traces));
  }

  function ReachableOf(decode: Decoder, t: Trace): Option<int> {
    FirstListed(decode, SessionEvents(t, CHANGED), "reachable")
  }

  /** The unreachable time, when there is no reachable one. */
  function UnreachableOf(decode: Decoder, t: Trace): Option<int> {
    if ReachableOf(decode, t).Some? then None else FirstListed(decode, SessionEvents(t, CHANGED), "unreachable")
  }

  function TimesOf(decode: Decoder, traces: seq<Trace>, reachable: bool): seq<Option<int>> {
    seq(|traces|, i requires 0 <= i < |traces| =>
      if reachable then ReachableOf(decode, traces[i]) else UnreachableOf(decode, traces[i]))
  }

  lemma {:induction false} TimesArePresent(decode: Decoder, traces: seq<Trace>)
    ensures ReachableTimes(Convergences(decode, traces)) == Present(TimesOf(decode, traces, true))
    ensures UnreachableTimes(Convergences(decode, traces)) == Present(TimesOf(decode, traces, false))
  {
    if traces != [] {
      var n := |traces| - 1;
      TimesArePresent(decode, traces[..n]);
      assert Convergences(decode, traces)[..n] == Convergences(decode, traces[..n]);
      assert TimesOf(decode, traces, true)[..n] == TimesOf(decode, traces[..n], true);
      assert TimesOf(decode, traces, false)[..n] == TimesOf(decode, traces[..n], false);
    }
  }

  /** The times summarised are the reachable times of the traces that have one, and
      the unreachable times of those of the others that have one, in trace order. */
  lemma ConfidenceListsTimes(decode: Decoder, traces: seq<Trace>) returns (up: seq<nat>, down: seq<nat>)
    ensures var r := ConfidenceOf(decode, traces);
            && Picks(TimesOf(decode, traces, true), r.reachable, up)
            && Picks(TimesOf(decode, traces, false), r.unreachable, down)
            && r.reachableStats == Summarize(r.reachable) && r.unreachableStats == Summarize(r.unreachable)
  {
    TimesArePresent(decode, traces);
    up := PresentPicks(TimesOf(decode, traces, true));
    down := PresentPicks(TimesOf(decode, traces, false));
  }
}
