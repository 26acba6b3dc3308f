/** The assertion evaluator, which reads the same trace files on its own. */
module Assertions {
  import opened Text
  import opened Otel
  import opened Analyze

  /** An event flattened into one dictionary. */
  type Flat = Attrs

  /** Spans of the libraries, which are never events themselves. */
  const LIBRARY_SPANS := {SESSION, REFRESH, PROBE, SELECTION}

  function FlatOf(e: Event, spanName: string): Flat {
    var flat := e.attrs["type" := Str(e.name)]["_span_name" := Str(spanName)]["_time" := Str(e.time)];
    match CoerceInt(Lookup(flat, "elapsed_ms"))
    case Some(n) => flat["elapsed_ms" := Int(n)]
    case None => flat
  }

  /** The events of one span: those it hosts, then itself if it is one. */
  function EventsIn(s: RawSpan): seq<Event> {
    ToEvents(s.events)
    + (if s.name !in LIBRARY_SPANS && Flatten(s.attrs) != map[] then [AsEvent(s)] else [])
  }

  function FlatsIn(s: RawSpan): seq<Flat> {
    var es := EventsIn(s);
    seq(|es|, i requires 0 <= i < |es| => FlatOf(es[i], s.name))
  }

  function LoadEvents(file: seq<RawSpan>): seq<Flat> {
    if file == [] then [] else LoadEvents(file[..|file| - 1]) + FlatsIn(file[|file| - 1])
  }

  method LoadEventsFile(file: seq<RawSpan>) returns (events: seq<Flat>)
    ensures events == LoadEvents(file)
  {
    events := [];
    for i := 0 to |file|
      invariant events == LoadEvents(file[..i])
    {
      assert file[..i + 1][..i] == file[..i];
      var s := file[i];
      ghost var before := events;
      ghost var all := FlatsIn(s);
      for e := 0 to |s.events|
        invariant events == before + all[..e]
      {
        var attrs := FlattenAttrs(s.events[e].attrs);
        assert all[e] == FlatOf(EventsIn(s)[e], s.name) && EventsIn(s)[e] == ToEvent(s.events[e]);
        assert all[..e + 1] == all[..e] + [all[e]];
        events := events + [FlatOf(Event(s.events[e].name, s.events[e].time, attrs), s.name)];
      }
      if s.name !in LIBRARY_SPANS {
        var spanAttrs := FlattenAttrs(s.attrs);
        if spanAttrs != map[] {
          assert all[|s.events|] == FlatOf(AsEvent(s), s.name);
          events := events + [FlatOf(Event(s.name, s.startTime, spanAttrs), s.name)];
        }
      }
      assert events == before + all;
    }
    assert file[..|file|] == file;
  }

  /** The text functions of the JSON and string libraries. */
  datatype Library = Library(
    decode: Decoder,
    dumpValue: Value -> string,
    dumpEvent: Flat -> string,
    show: Value -> string
  )

  datatype Condition =
    | AddressContains(text: string)
    | MessageContains(text: string)
    | Reachability(value: Value)
    | NotEmpty(field: string)
    | IsEmpty(field: string)
    | Equals(key: string, text: string)

  predicate Holds(lib: Library, event: Flat, f: Condition) {
    match f
    case AddressContains(text) => Contains(lib.dumpValue(Lookup(event, "addresses").GetOr(Str(""))), text)
    case MessageContains(text) => Contains(lib.dumpEvent(event), text)
    case Reachability(value) => Lookup(event, "reachability") == Some(value)
    case NotEmpty(field) => AsList(lib.decode, Lookup(event, field)) != []
    case IsEmpty(field) => AsList(lib.decode, Lookup(event, field)) == []
    case Equals(key, text) => lib.show(Lookup(event, key).GetOr(Str(""))) == text
  }

  predicate Matches(lib: Library, event: Flat, eventType: string, filters: seq<Condition>) {
    && Lookup(event, "type").GetOr(Str("")) == Str(eventType)
    && forall i :: 0 <= i < |filters| ==> Holds(lib, event, filters[i])
  }

  datatype Kind = NoEvent | HasEvent | Info | Other(text: string)

  datatype Assertion = Assertion(
    kind: Kind, event: string, filters: seq<Condition>, extract: string, selectFirst: bool
  )

  datatype Result =
    | Verdict(pass: bool, matched: nat)
    | Information(value: Option<Value>)
    | UnknownType

  predicate Passed(r: Result) { (r.Verdict? && r.pass) || r.Information? }

  function Matched(lib: Library, a: Assertion, events: seq<Flat>): seq<Flat> {
    if events == [] then []
    else (if Matches(lib, events[0], a.event, a.filters) then [events[0]] else []) + Matched(lib, a, events[1..])
  }

  function Evaluate(lib: Library, a: Assertion, events: seq<Flat>): Result {
    var matched := Matched(lib, a, events);
    match a.kind
    case NoEvent => Verdict(|matched| == 0, |matched|)
    case HasEvent => Verdict(|matched| > 0, |matched|)
    case Info =>
      Information(if matched == [] then None
                  else Lookup(if a.selectFirst then matched[0] else matched[|matched| - 1], a.extract))
    case Other(_) => UnknownType
  }

  lemma {:induction false} MatchedSome(lib: Library, a: Assertion, events: seq<Flat>)
    ensures |Matched(lib, a, events)| > 0
       <==> exists i :: 0 <= i < |events| && Matches(lib, events[i], a.event, a.filters)
  {
    if events != [] {
      MatchedSome(lib, a, events[1..]);
      if i :| 0 <= i < |events| && Matches(lib, events[i], a.event, a.filters) {
        if i > 0 {
          assert events[1..][i - 1] == events[i];
        }
      }
      if i :| 0 <= i < |events[1..]| && Matches(lib, events[1..][i], a.event, a.filters) {
        assert events[i + 1] == events[1..][i];
      }
    }
  }

  lemma {:induction false} MatchedAppend(lib: Library, a: Assertion, xs: seq<Flat>, ys: seq<Flat>)
    ensures Matched(lib, a, xs + ys) == Matched(lib, a, xs) + Matched(lib, a, ys)
  {
    if xs == [] {
      assert xs + ys == ys;
    } else {
      HeadOfAppend(xs, ys);
      MatchedAppend(lib, a, xs[1..], ys);
    }
  }

  /** `no_event` and `has_event` on the same filter are each other's negation. */
  lemma NoEventNegatesHasEvent(lib: Library, a: Assertion, events: seq<Flat>)
    ensures Passed(Evaluate(lib, a.(kind := NoEvent), events)) <==> !Passed(Evaluate(lib, a.(kind := HasEvent), events))
  {
    assert Matched(lib, a.(kind := NoEvent), events) == Matched(lib, a.(kind := HasEvent), events) by {
      MatchedIgnoresKind(lib, a, NoEvent, HasEvent, events);
    }
  }

  lemma {:induction false} MatchedIgnoresKind(lib: Library, a: Assertion, k: Kind, k': Kind, events: seq<Flat>)
    ensures Matched(lib, a.(kind := k), events) == Matched(lib, a.(kind := k'), events)
  {
    if events != [] {
      MatchedIgnoresKind(lib, a, k, k', events[1..]);
    }
  }
}
