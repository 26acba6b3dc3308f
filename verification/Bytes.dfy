/** Byte estimates of a probe, by the analyzer and by the figure script. */
module Bytes {
  import opened Text
  import opened Otel

  function Utf8Length(c: char): nat {
    if c < '\U{80}' then 1 else if c < '\U{800}' then 2 else if c < '\U{10000}' then 3 else 4
  }

  function Utf8Bytes(s: string): nat {
    if s == "" then 0 else Utf8Bytes(s[..|s| - 1]) + Utf8Length(s[|s| - 1])
  }

  predicate Ascii(s: string) { forall i :: 0 <= i < |s| ==> s[i] < '\U{80}' }

  function Utf8Total(xs: seq<string>): nat {
    if xs == [] then 0 else Utf8Total(xs[..|xs| - 1]) + Utf8Bytes(xs[|xs| - 1])
  }

  function CharTotal(xs: seq<string>): nat {
    if xs == [] then 0 else CharTotal(xs[..|xs| - 1]) + |xs[|xs| - 1]|
  }

  /** The address list of a probe; a missing one reads as "[]". */
  function ProbeAddrs(decode: Decoder, attrs: Attrs): seq<string> {
    match Lookup(attrs, "autonat.addrs")
    case None => []
    case Some(Int(_)) => []
    case Some(List(xs)) => xs
    case Some(Str(s)) =>
      match decode(s)
      case None => []
      case Some(xs) => xs
  }

  predicate HasEvent(events: seq<Event>, name: string) {
    exists i :: 0 <= i < |events| && events[i].name == name
  }

  predicate IsPublic(attrs: Attrs) { Lookup(attrs, "autonat.reachability") == Some(Str("public")) }

  /** `num_bytes` of the first dial_data_requested event. */
  function RequestedBytes(events: seq<Event>): Option<int> {
    if events == [] then None
    else if events[0].name == "dial_data_requested" then CoerceInt(Lookup(events[0].attrs, "num_bytes"))
    else RequestedBytes(events[1..])
  }

  datatype Estimate = Estimate(
    dialRequest: int, dialDataRequest: int, dialDataResponse: int, dialResponse: int, dialBack: int,
    total: int, amplification: int, protocolOnly: int
  )

  /** The message sizes of one probe. */
  function EstimateOf(decode: Decoder, probe: Span): Estimate {
    var request := 12 + Utf8Total(ProbeAddrs(decode, probe.attrs));
    var dataRequest := if HasEvent(probe.events, "dial_data_requested") then 16 else 0;
    var dataResponse := RequestedBytes(probe.events).GetOr(0);
    var back := if HasEvent(probe.events, "dial_back_received") || (probe.events == [] && IsPublic(probe.attrs)) then 12 else 0;
    var total := request + dataRequest + dataResponse + 12 + back;
    Estimate(request, dataRequest, dataResponse, 12, back, total, dataResponse, total - dataResponse)
  }

  lemma {:induction false} NothingRequested(events: seq<Event>)
    requires !HasEvent(events, "dial_data_requested")
    ensures RequestedBytes(events) == None
  {
    if events != [] {
      assert events[0].name != "dial_data_requested";
      forall i | 0 <= i < |events[1..]| ensures events[1..][i].name != "dial_data_requested" {
        assert events[1..][i] == events[i + 1];
      }
      NothingRequested(events[1..]);
    }
  }

  method FirstRequestedBytes(events: seq<Event>) returns (n: Option<int>)
    ensures n == RequestedBytes(events)
  {
    for i := 0 to |events|
      invariant RequestedBytes(events) == RequestedBytes(events[i..])
    {
      assert events[i..][1..] == events[i + 1..];
      if events[i].name == "dial_data_requested" {
        return CoerceInt(Lookup(events[i].attrs, "num_bytes"));
      }
    }
    n := None;
  }

  method ProbeByteEstimate(decode: Decoder, probe: Span) returns (est: Estimate)
    ensures est == EstimateOf(decode, probe)
  {
    var dialRequest := 12 + Utf8Total(ProbeAddrs(decode, probe.attrs));
    var dialDataRequest, dialDataResponse := 0, 0;
    if HasEvent(probe.events, "dial_data_requested") {
      dialDataRequest := 16;
      var nb := FirstRequestedBytes(probe.events);
      if nb.Some? {
        dialDataResponse := nb.value;
      }
    } else {
      NothingRequested(probe.events);
    }
    var dialResponse := 12;
    var dialBack := 0;
    if HasEvent(probe.events, "dial_back_received") {
      dialBack := 12;
    } else if probe.events == [] {
      if IsPublic(probe.attrs) {
        dialBack := 12;
      }
    }
    var total := dialRequest + dialDataRequest + dialDataResponse + dialResponse + dialBack;
    var amplification := dialDataResponse;
    est := Estimate(dialRequest, dialDataRequest, dialDataResponse, dialResponse, dialBack,
                    total, amplification, total - amplification);
  }

  // ------------------------------------------------------- the figure script

  /** `num_bytes` of the first dial_data_requested raw event, 0 when unusable. */
  function FigureRequested(events: seq<RawEvent>): int {
    if events == [] then 0
    else if events[0].name == "dial_data_requested" then
      CoerceInt(Lookup(Flatten(events[0].attrs), "num_bytes")).GetOr(0)
    else FigureRequested(events[1..])
  }

  predicate HasRawEvent(events: seq<RawEvent>, name: string) {
    exists i :: 0 <= i < |events| && events[i].name == name
  }

  /** (total, amplification); `None` is the missing event list the figure passes. */
  function FigureEstimate(decode: Decoder, attrs: Attrs, given: Option<seq<RawEvent>>): (int, int) {
    var events := given.GetOr([]);
    var request := 12 + CharTotal(ProbeAddrs(decode, attrs));
    var response := FigureRequested(events);
    var back := if HasRawEvent(events, "dial_back_received") || (events == [] && IsPublic(attrs)) then 12 else 0;
    (request + (if response > 0 then 16 else 0) + response + 12 + back, response)
  }

  method FigureProbeByteEstimate(decode: Decoder, attrs: Attrs, given: Option<seq<RawEvent>>)
    returns (total: int, amplification: int)
    ensures (total, amplification) == FigureEstimate(decode, attrs, given)
  {
    var events := given.GetOr([]);
    var dialRequest := 12 + CharTotal(ProbeAddrs(decode, attrs));
    var dialDataResponse := 0;
    var i := 0;
    while i < |events| && events[i].name != "dial_data_requested"
      invariant 0 <= i <= |events|
      invariant FigureRequested(events) == FigureRequested(events[i..])
    {
      assert events[i..][1..] == events[i + 1..];
      i := i + 1;
    }
    if i < |events| {
      var ea := FlattenAttrs(events[i].attrs);
      dialDataResponse := CoerceInt(Lookup(ea, "num_bytes")).GetOr(0);
    }
    var dialBack := 0;
    if HasRawEvent(events, "dial_back_received") {
      dialBack := 12;
    } else if events == [] {
      if IsPublic(attrs) {
        dialBack := 12;
      }
    }
    total := dialRequest + (if dialDataResponse > 0 then 16 else 0) + dialDataResponse + 12 + dialBack;
    amplification := dialDataResponse;
  }

  lemma {:induction false} Utf8AtLeastChars(s: string)
    ensures Utf8Bytes(s) >= |s| && (Utf8Bytes(s) == |s| <==> Ascii(s))
  {
    if s != "" {
      var n := |s| - 1;
      Utf8AtLeastChars(s[..n]);
      assert Ascii(s) <==> Ascii(s[..n]) && s[n] < '\U{80}' by {
        assert forall i :: 0 <= i < n ==> s[..n][i] == s[i];
      }
    }
  }

  predicate AllAscii(xs: seq<string>) { forall i :: 0 <= i < |xs| ==> Ascii(xs[i]) }

  lemma {:induction false} TotalsAgree(xs: seq<string>)
    ensures Utf8Total(xs) >= CharTotal(xs) && (Utf8Total(xs) == CharTotal(xs) <==> AllAscii(xs))
  {
    if xs != [] {
      var n := |xs| - 1;
      TotalsAgree(xs[..n]);
      Utf8AtLeastChars(xs[n]);
      assert AllAscii(xs) <==> AllAscii(xs[..n]) && Ascii(xs[n]) by {
        assert forall i :: 0 <= i < n ==> xs[..n][i] == xs[i];
      }
    }
  }

  lemma {:induction false} SameRequest(events: seq<RawEvent>)
    ensures FigureRequested(events) == RequestedBytes(ToEvents(events)).GetOr(0)
  {
    if events != [] {
      assert ToEvents(events)[1..] == ToEvents(events[1..]);
      SameRequest(events[1..]);
    }
  }

  lemma SameNames(events: seq<RawEvent>, name: string)
    ensures HasRawEvent(events, name) <==> HasEvent(ToEvents(events), name)
  {
    if HasRawEvent(events, name) {
      var i :| 0 <= i < |events| && events[i].name == name;
      assert ToEvents(events)[i].name == name;
    }
    if HasEvent(ToEvents(events), name) {
      var i :| 0 <= i < |events| && ToEvents(events)[i].name == name;
      assert events[i].name == name;
    }
  }

  /** The figure script mirrors the analyzer: given the span's raw events, the
      amplification is always the same, and the total is the same exactly when the
      addresses are ASCII and a dial_data_requested event, if any, carries a
      positive byte count. */
  lemma MirrorAgrees(decode: Decoder, attrs: Attrs, events: seq<RawEvent>)
    ensures var figure := FigureEstimate(decode, attrs, Some(events));
            var analyzer := EstimateOf(decode, Span(attrs, ToEvents(events)));
            && figure.1 == analyzer.amplification
            && (figure.0 == analyzer.total <==>
                  && AllAscii(ProbeAddrs(decode, attrs))
                  && (HasRawEvent(events, "dial_data_requested") ==> FigureRequested(events) > 0))
  {
    SameRequest(events);
    SameNames(events, "dial_data_requested");
    SameNames(events, "dial_back_received");
    TotalsAgree(ProbeAddrs(decode, attrs));
    if !HasEvent(ToEvents(events), "dial_data_requested") {
      NothingRequested(ToEvents(events));
    }
  }

  /** The bytes that counting characters misses. */
  function Missed(xs: seq<string>): int { Utf8Total(xs) - CharTotal(xs) }

  /** Called without events, as the protocol-overhead figure calls it, the mirror
      sees no amplification. Its total is right, for ASCII addresses, when no
      dial_data_requested event was there to miss and it guesses the dial-back
      right from the verdict; for other addresses, only when the twelve bytes of a
      wrongly guessed dial-back happen to be the bytes it missed. Where the byte
      count is negative there is one value that makes up for the rest. */
  lemma MirrorWithoutEvents(decode: Decoder, attrs: Attrs, events: seq<RawEvent>)
    ensures var figure := FigureEstimate(decode, attrs, None);
            var analyzer := EstimateOf(decode, Span(attrs, ToEvents(events)));
            var addrs := ProbeAddrs(decode, attrs);
            var requested := HasRawEvent(events, "dial_data_requested");
            var back, pub := HasRawEvent(events, "dial_back_received"), IsPublic(attrs);
            && figure.1 == 0
            && (FigureRequested(events) >= 0 ==>
                  (figure.0 == analyzer.total <==>
                     && !requested
                     && if AllAscii(addrs) then events == [] || (back <==> pub)
                        else events != [] && pub && !back && Missed(addrs) == 12))
            && (FigureRequested(events) < 0 ==>
                  (figure.0 == analyzer.total <==>
                     FigureRequested(events)
                     == (if pub then 12 else 0) - (if back then 12 else 0) - 16 - Missed(addrs)))
  {
    SameRequest(events);
    SameNames(events, "dial_data_requested");
    SameNames(events, "dial_back_received");
    TotalsAgree(ProbeAddrs(decode, attrs));
    if !HasEvent(ToEvents(events), "dial_data_requested") {
      NothingRequested(ToEvents(events));
    }
  }

  // ------------------------------------------------------------ what is counted

  /** How many code points a UTF-8 sequence of `k` bytes can tell apart. */
  function Capacity(k: nat): int
    requires 1 <= k <= 4
  {
    if k == 1 then 0x80 else if k == 2 then 0x800 else if k == 3 then 0x1_0000 else 0x20_0000
  }

  /** The UTF-8 length is the least that has room for the character. */
  lemma Utf8LengthIsLeast(c: char)
    ensures 1 <= Utf8Length(c) <= 4 && (c as int) < Capacity(Utf8Length(c))
    ensures forall k :: 1 <= k < Utf8Length(c) ==> Capacity(k) <= c as int
  {
  }

  lemma {:induction false} Utf8Append(s: string, t: string)
    ensures Utf8Bytes(s + t) == Utf8Bytes(s) + Utf8Bytes(t)
  {
    if t == "" {
      assert s + t == s;
    } else {
      var n := |t| - 1;
      assert (s + t)[..|s| + n] == s + t[..n];
      Utf8Append(s, t[..n]);
    }
  }

  lemma {:induction false} JoinSnoc(xs: seq<string>, x: string)
    ensures Join(xs + [x], "") == Join(xs, "") + x
  {
    if xs == [] {
      assert xs + [x] == [x];
    } else {
      JoinAppend(xs, [x], "");
    }
  }

  /** The totals of a list are those of its texts written one after the other. */
  lemma {:induction false} TotalsOfJoined(xs: seq<string>)
    ensures Utf8Total(xs) == Utf8Bytes(Join(xs, "")) && CharTotal(xs) == |Join(xs, "")|
  {
    if xs != [] {
      var n := |xs| - 1;
      TotalsOfJoined(xs[..n]);
      JoinSnoc(xs[..n], xs[n]);
      assert xs == xs[..n] + [xs[n]];
      Utf8Append(Join(xs[..n], ""), xs[n]);
    }
  }

  /** The addresses of a probe, however its span stores them, by its last attribute
      of that name: a list, or the text of an array. */
  predicate StoresAddrs(decode: Decoder, attrs: seq<RawAttr>, addrs: seq<string>) {
    exists j :: 0 <= j < |attrs| && IsLastWith(attrs, "autonat.addrs", j)
             && (attrs[j].raw.value == List(addrs)
                 || (attrs[j].raw.value.Str? && decode(attrs[j].raw.value.s) == Some(addrs)))
  }

  /** A span without such an attribute, or with a number or an undecodable text. */
  predicate StoresNoAddrs(decode: Decoder, attrs: seq<RawAttr>) {
    forall j :: 0 <= j < |attrs| && IsLastWith(attrs, "autonat.addrs", j) ==>
      attrs[j].raw.value.Int? || (attrs[j].raw.value.Str? && decode(attrs[j].raw.value.s) == None)
  }

  /** Both estimators charge a request twelve bytes and its addresses, in bytes or in
      characters, and nothing but the twelve when there are none to be read. */
  lemma RequestCarriesAddrs(decode: Decoder, attrs: seq<RawAttr>, events: seq<Event>, addrs: seq<string>)
    ensures StoresAddrs(decode, attrs, addrs) ==>
              && EstimateOf(decode, Span(Flatten(attrs), events)).dialRequest == 12 + Utf8Bytes(Join(addrs, ""))
              && FigureEstimate(decode, Flatten(attrs), None).0
                 == 12 + |Join(addrs, "")| + 12 + if IsPublic(Flatten(attrs)) then 12 else 0
    ensures StoresNoAddrs(decode, attrs) ==>
              && EstimateOf(decode, Span(Flatten(attrs), events)).dialRequest == 12
              && FigureEstimate(decode, Flatten(attrs), None).0 == 24 + if IsPublic(Flatten(attrs)) then 12 else 0
  {
    FlattenKeepsLast(attrs, "autonat.addrs");
    TotalsOfJoined(addrs);
    if StoresNoAddrs(decode, attrs) && "autonat.addrs" in Flatten(attrs) {
      var j := LastWith(attrs, "autonat.addrs");
    }
  }

  /** The parts of an estimate add up. */
  lemma EstimateAddsUp(decode: Decoder, probe: Span)
    ensures var e := EstimateOf(decode, probe);
            && e.total == e.dialRequest + e.dialDataRequest + e.dialDataResponse + e.dialResponse + e.dialBack
            && e.total == e.protocolOnly + e.amplification
            && e.amplification == e.dialDataResponse && e.dialResponse == 12
            && (e.dialDataRequest == 16 <==> HasEvent(probe.events, "dial_data_requested"))
            && (e.dialDataRequest == 0 <==> !HasEvent(probe.events, "dial_data_requested"))
            && (e.dialBack == 12 <==>
                  HasEvent(probe.events, "dial_back_received") || (probe.events == [] && IsPublic(probe.attrs)))
            && (e.dialBack == 12 || e.dialBack == 0)
  {
  }
}
