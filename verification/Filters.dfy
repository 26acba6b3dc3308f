/** What the filters of an assertion see of an event as it stands in the trace file,
    and what the verdict says about the events. */
module Filters {
  import opened Text
  import opened Otel
  import opened Assertions
  import opened Rates

  /** The keys under which the evaluator stores something of its own. */
  const RESERVED := {"type", "_span_name", "_time", "elapsed_ms"}

  function FlatEvent(e: RawEvent, spanName: string): Flat { FlatOf(ToEvent(e), spanName) }

  /** An event in one dictionary: its name, span and time under keys of their own, a
      usable time since the start as a number, and every other attribute as it is. */
  lemma FlatKeeps(e: Event, spanName: string, key: string)
    ensures Lookup(FlatOf(e, spanName), "type") == Some(Str(e.name))
    ensures Lookup(FlatOf(e, spanName), "_span_name") == Some(Str(spanName))
    ensures Lookup(FlatOf(e, spanName), "_time") == Some(Str(e.time))
    ensures Lookup(FlatOf(e, spanName), "elapsed_ms")
         == if Elapsed(e).Some? then Some(Int(Elapsed(e).value)) else Lookup(e.attrs, "elapsed_ms")
    ensures key !in RESERVED ==> Lookup(FlatOf(e, spanName), key) == Lookup(e.attrs, key)
  {
  }

  predicate Missing(attrs: seq<RawAttr>, key: string) {
    forall i :: 0 <= i < |attrs| ==> attrs[i].key != key
  }

  /** The value under `key`, or the empty text when there is none. */
  predicate Reads(attrs: seq<RawAttr>, key: string, v: Value) {
    LastIs(attrs, key, v) || (Missing(attrs, key) && v == Str(""))
  }

  lemma ReadsLookup(attrs: seq<RawAttr>, key: string, v: Value)
    ensures Reads(attrs, key, v) <==> Lookup(Flatten(attrs), key).GetOr(Str("")) == v
  {
    LookupLast(attrs, key);
    FlattenKeepsLast(attrs, key);
  }

  ghost predicate Within(text: string, s: string) { exists i :: OccursAt(s, text, i) }

  lemma ContainsWithin(s: string, text: string)
    ensures Contains(s, text) <==> Within(text, s)
  {
    if i :| OccursAt(s, text, i) {
      assert Contains(s, text);
    }
  }

  /** `address_contains` and `message_contains`: the text occurs in what the JSON
      library writes for the addresses, or for the whole event. */
  lemma ContainsFilters(lib: Library, e: RawEvent, spanName: string, text: string, addresses: Value)
    requires Reads(e.attrs, "addresses", addresses)
    ensures Holds(lib, FlatEvent(e, spanName), AddressContains(text)) <==> Within(text, lib.dumpValue(addresses))
    ensures Holds(lib, FlatEvent(e, spanName), MessageContains(text))
       <==> Within(text, lib.dumpEvent(FlatEvent(e, spanName)))
  {
    FlatKeeps(ToEvent(e), spanName, "addresses");
    ReadsLookup(e.attrs, "addresses", addresses);
    ContainsWithin(lib.dumpValue(addresses), text);
    ContainsWithin(lib.dumpEvent(FlatEvent(e, spanName)), text);
  }

  /** `reachability` compares the last such attribute, which must be there. */
  lemma ReachabilityFilter(lib: Library, e: RawEvent, spanName: string, v: Value)
    ensures Holds(lib, FlatEvent(e, spanName), Reachability(v)) <==> LastIs(e.attrs, "reachability", v)
  {
    FlatKeeps(ToEvent(e), spanName, "reachability");
    LookupLast(e.attrs, "reachability");
  }

  /** `not_empty` asks for a list with an element under the field, `is_empty` for
      anything else, a missing field included. */
  lemma EmptinessFilters(lib: Library, e: RawEvent, spanName: string, field: string)
    requires field !in RESERVED
    ensures Holds(lib, FlatEvent(e, spanName), NotEmpty(field)) <==> LastListed(lib.decode, e.attrs, field)
    ensures Holds(lib, FlatEvent(e, spanName), IsEmpty(field)) <==> !LastListed(lib.decode, e.attrs, field)
  {
    FlatKeeps(ToEvent(e), spanName, field);
    LookupLast(e.attrs, field);
  }

  /** Any other filter compares texts; a missing attribute reads as the empty one. */
  lemma EqualsFilter(lib: Library, e: RawEvent, spanName: string, key: string, text: string, v: Value)
    requires key !in RESERVED && Reads(e.attrs, key, v)
    ensures Holds(lib, FlatEvent(e, spanName), Equals(key, text)) <==> lib.show(v) == text
  {
    FlatKeeps(ToEvent(e), spanName, key);
    ReadsLookup(e.attrs, key, v);
  }

  /** An event matches when it has the name asked for and every filter holds. */
  lemma MatchesByName(lib: Library, e: RawEvent, spanName: string, eventType: string, filters: seq<Condition>)
    ensures Matches(lib, FlatEvent(e, spanName), eventType, filters)
       <==> e.name == eventType && forall i :: 0 <= i < |filters| ==> Holds(lib, FlatEvent(e, spanName), filters[i])
  {
    FlatKeeps(ToEvent(e), spanName, "");
  }

  // ---------------------------------------------------------------- verdicts

  predicate Hit(lib: Library, a: Assertion, events: seq<Flat>, i: int) {
    0 <= i < |events| && Matches(lib, events[i], a.event, a.filters)
  }

  function HitsIn(lib: Library, a: Assertion, events: seq<Flat>): set<int> {
    set i | 0 <= i < |events| && Hit(lib, a, events, i)
  }

  lemma MatchedOneMore(lib: Library, a: Assertion, events: seq<Flat>)
    requires events != []
    ensures var n := |events| - 1;
            Matched(lib, a, events)
            == Matched(lib, a, events[..n]) + (if Matches(lib, events[n], a.event, a.filters) then [events[n]] else [])
  {
    var n := |events| - 1;
    assert events == events[..n] + [events[n]];
    MatchedAppend(lib, a, events[..n], [events[n]]);
    assert [events[n]][1..] == [];
  }

  lemma {:induction false} MatchedCount(lib: Library, a: Assertion, events: seq<Flat>)
    ensures |Matched(lib, a, events)| == |HitsIn(lib, a, events)|
  {
    if events == [] {
      assert HitsIn(lib, a, events) == {};
    } else {
      MatchedCount(lib, a, events[..|events| - 1]);
      MatchedOneMore(lib, a, events);
      HitsOneMore(lib, a, events);
    }
  }

  /** A hit with none before it is the first event matched. */
  lemma MatchedFirst(lib: Library, a: Assertion, events: seq<Flat>, i: int)
    requires Hit(lib, a, events, i) && forall j :: j < i ==> !Hit(lib, a, events, j)
    ensures Matched(lib, a, events) != [] && Matched(lib, a, events)[0] == events[i]
  {
    var front, back := events[..i], events[i..];
    assert events == front + back && back[0] == events[i];
    MatchedAppend(lib, a, front, back);
    forall j ensures !Hit(lib, a, front, j) {
      assert 0 <= j < i ==> front[j] == events[j] && !Hit(lib, a, events, j);
    }
    NoHits(lib, a, front);
    assert Matched(lib, a, back)[0] == back[0];
  }

  /** A hit with none after it is the last one. */
  lemma MatchedLast(lib: Library, a: Assertion, events: seq<Flat>, i: int)
    requires Hit(lib, a, events, i) && forall j :: j > i ==> !Hit(lib, a, events, j)
    ensures var m := Matched(lib, a, events); m != [] && m[|m| - 1] == events[i]
  {
    var front, back := events[..i + 1], events[i + 1..];
    assert events == front + back;
    MatchedAppend(lib, a, front, back);
    forall j ensures !Hit(lib, a, back, j) {
      assert 0 <= j < |back| ==> back[j] == events[i + 1 + j] && !Hit(lib, a, events, i + 1 + j);
    }
    NoHits(lib, a, back);
    MatchedOneMore(lib, a, front);
    assert front[i] == events[i];
  }

  lemma NoHits(lib: Library, a: Assertion, events: seq<Flat>)
    requires forall j :: !Hit(lib, a, events, j)
    ensures Matched(lib, a, events) == []
  {
    MatchedSome(lib, a, events);
    forall i | 0 <= i < |events| ensures !Matches(lib, events[i], a.event, a.filters) {
      assert !Hit(lib, a, events, i);
    }
  }

  lemma HitsOneMore(lib: Library, a: Assertion, events: seq<Flat>)
    requires events != []
    ensures var n := |events| - 1;
            |HitsIn(lib, a, events)|
            == |HitsIn(lib, a, events[..n])| + if Matches(lib, events[n], a.event, a.filters) then 1 else 0
  {
    var n := |events| - 1;
    var before := HitsIn(lib, a, events[..n]);
    assert forall i :: 0 <= i < n ==> (Hit(lib, a, events, i) <==> Hit(lib, a, events[..n], i));
    assert HitsIn(lib, a, events) == before + (if Hit(lib, a, events, n) then {n} else {});
  }

  /** `no_event` and `has_event`: the number of matching events, and whether it is
      zero or not; an unknown type never passes. */
  lemma VerdictCounts(lib: Library, a: Assertion, events: seq<Flat>)
    ensures var count := |HitsIn(lib, a, events)|;
            && (a.kind.NoEvent? ==> Evaluate(lib, a, events) == Verdict(count == 0, count))
            && (a.kind.HasEvent? ==> Evaluate(lib, a, events) == Verdict(count > 0, count))
            && (a.kind.Other? ==> !Passed(Evaluate(lib, a, events)))
  {
    MatchedCount(lib, a, events);
  }

  /** `info` reports the field of the first matching event, or of the last when that
      is asked for, passes in any case, and reports nothing when none matches. */
  lemma InfoReports(lib: Library, a: Assertion, events: seq<Flat>, i: int)
    requires a.kind.Info?
    ensures Passed(Evaluate(lib, a, events))
    ensures (forall j :: !Hit(lib, a, events, j)) ==> Evaluate(lib, a, events) == Information(None)
    ensures Hit(lib, a, events, i) && a.selectFirst && (forall j :: j < i ==> !Hit(lib, a, events, j)) ==>
              Evaluate(lib, a, events) == Information(Lookup(events[i], a.extract))
    ensures Hit(lib, a, events, i) && !a.selectFirst && (forall j :: j > i ==> !Hit(lib, a, events, j)) ==>
              Evaluate(lib, a, events) == Information(Lookup(events[i], a.extract))
  {
    if forall j :: !Hit(lib, a, events, j) {
      NoHits(lib, a, events);
    } else if Hit(lib, a, events, i) {
      if forall j :: j < i ==> !Hit(lib, a, events, j) {
        MatchedFirst(lib, a, events, i);
      }
      if forall j :: j > i ==> !Hit(lib, a, events, j) {
        MatchedLast(lib, a, events, i);
      }
    }
  }
}
