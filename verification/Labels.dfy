/** Run labels: printed by the runner as result-file names and parsed back by the
    figure script. */
module Labels {
  import opened Text

  const NAT_TYPES := {"none", "full-cone", "address-restricted", "port-restricted", "symmetric"}
  const TRANSPORTS := {"tcp", "quic", "both"}
  const SERVER_COUNTS := {"3", "4", "5", "6", "7"}
  const CLIENT_IMPLS := {"go", "rust", "js"}

  /** The fields of a scenario that its label or its validation looks at. */
  datatype Scenario = Scenario(
    natType: string,
    transport: string,
    serverCount: string,
    packetLoss: int,
    latencyMs: int,
    runs: int,
    name: string,
    mockBehaviors: Option<seq<string>>,
    clientImpl: string
  )

  /** What `validate` demands of these fields (mock behaviour names aside). */
  predicate Valid(s: Scenario) {
    && s.clientImpl in CLIENT_IMPLS
    && s.natType in NAT_TYPES
    && s.transport in TRANSPORTS
    && (s.mockBehaviors.None? ==> s.serverCount in SERVER_COUNTS)
    && 0 <= s.packetLoss <= 100
    && s.runs >= 1
    && (s.mockBehaviors.Some? ==> |s.mockBehaviors.value| == 3)
  }

  function ServerField(s: Scenario): string {
    if s.mockBehaviors.Some? && s.mockBehaviors.value != [] then "mock" else s.serverCount
  }

  function ImplField(s: Scenario): seq<string> {
    if s.clientImpl != "go" then [s.clientImpl] else []
  }

  function LossField(s: Scenario): seq<string> {
    if s.packetLoss != 0 then ["loss" + DecimalInt(s.packetLoss)] else []
  }

  function LatencyField(s: Scenario): seq<string> {
    if s.latencyMs != 0 then ["lat" + DecimalInt(s.latencyMs)] else []
  }

  function RunField(s: Scenario, run: int): seq<string> {
    if s.runs > 1 then ["run" + DecimalInt(run)] else []
  }

  /** The fields a label is made of, in order. */
  function LabelFields(s: Scenario, run: int): seq<string> {
    (if s.name != "" then [s.name] else [s.natType, s.transport, ServerField(s)])
    + ImplField(s) + LossField(s) + LatencyField(s) + RunField(s, run)
  }

  /** A label is its fields, joined with dashes. */
  function RunLabel(s: Scenario, run: int): string {
    Join(LabelFields(s, run), "-")
  }

  lemma JoinOptional(fields: seq<string>, f: seq<string>)
    requires fields != [] && |f| <= 1
    ensures Join(fields + f, "-") == Join(fields, "-") + Tail(f)
  {
    if f == [] {
      assert fields + f == fields;
    } else {
      JoinAppend(fields, f, "-");
    }
  }

  lemma JoinThree(a: string, b: string, c: string)
    ensures Join([a, b, c], "-") == a + "-" + b + "-" + c
  {
    assert [a, b, c][1..] == [b, c] && [b, c][1..] == [c];
    assert Join([b, c], "-") == b + "-" + c;
    assert a + "-" + (b + "-" + c) == a + "-" + b + "-" + c;
  }

  /** Appending each optional field in turn. */
  lemma JoinOptionals(base: seq<string>, a: seq<string>, b: seq<string>, c: seq<string>, d: seq<string>)
    requires base != [] && |a| <= 1 && |b| <= 1 && |c| <= 1 && |d| <= 1
    ensures Join(base + a + b + c + d, "-")
         == Join(base, "-") + Tail(a) + Tail(b) + Tail(c) + Tail(d)
  {
    JoinOptional(base, a);
    JoinOptional(base + a, b);
    JoinOptional(base + a + b, c);
    JoinOptional(base + a + b + c, d);
  }

  function Tail(field: seq<string>): string {
    if field == [] then "" else "-" + field[0]
  }

  method BuildRunLabel(s: Scenario, run: int) returns (text: string)
    ensures text == RunLabel(s, run)
  {
    if s.name != "" {
      text := s.name;
    } else {
      var sc := if s.mockBehaviors.Some? && s.mockBehaviors.value != [] then "mock" else s.serverCount;
      text := s.natType + "-" + s.transport + "-" + sc;
      JoinThree(s.natType, s.transport, sc);
    }
    ghost var base := if s.name != "" then [s.name] else [s.natType, s.transport, ServerField(s)];
    assert text == Join(base, "-");
    JoinOptionals(base, ImplField(s), LossField(s), LatencyField(s), RunField(s, run));
    text := AppendOptionals(s, run, text);
  }

  lemma TailKeyed(key: string, value: string)
    ensures Tail([key + value]) == "-" + key + value
  {
  }

  lemma Assoc(a: string, b: string, c: string)
    ensures a + b + c == a + (b + c) && a + "" == a
  {
  }

  lemma DashKeys()
    ensures "-" + "loss" == "-loss" && "-" + "lat" == "-lat" && "-" + "run" == "-run"
  {
  }

  method AppendOptionals(s: Scenario, run: int, base: string) returns (text: string)
    ensures text == base + Tail(ImplField(s)) + Tail(LossField(s)) + Tail(LatencyField(s)) + Tail(RunField(s, run))
  {
    DashKeys();
    TailKeyed("loss", DecimalInt(s.packetLoss));
    TailKeyed("lat", DecimalInt(s.latencyMs));
    TailKeyed("run", DecimalInt(run));
    text := base;
    Assoc(text, "-", s.clientImpl);
    if s.clientImpl != "go" {
      text := text + "-" + s.clientImpl;
    }
    Assoc(text, "-loss", DecimalInt(s.packetLoss));
    if s.packetLoss != 0 {
      text := text + "-loss" + DecimalInt(s.packetLoss);
    }
    Assoc(text, "-lat", DecimalInt(s.latencyMs));
    if s.latencyMs != 0 {
      text := text + "-lat" + DecimalInt(s.latencyMs);
    }
    Assoc(text, "-run", DecimalInt(run));
    if s.runs > 1 {
      text := text + "-run" + DecimalInt(run);
    }
  }

  // ------------------------------------------------------- the figure script

  /** `Unknown` is the (None, None, {}) answer, `BadNumber` an uncaught ValueError. */
  datatype ParsedName =
    | Unknown
    | BadNumber
    | Parsed(nat: string, transport: string, extra: map<string, int>)

  /** The last number found behind `key` in a list of name parts. */
  datatype Scan = NoNumber | Number(value: int) | Broken

  function ScanFor(parts: seq<string>, key: string): Scan
    requires key != ""
  {
    if parts == [] then NoNumber
    else
      var before := ScanFor(parts[..|parts| - 1], key);
      var part := parts[|parts| - 1];
      if before.Broken? || !(key <= part) then before
      else
        match ParseInt(Delete(part, key))
        case None => Broken
        case Some(n) => Number(n)
  }

  function Extra(latency: Scan, loss: Scan): map<string, int> {
    (if latency.Number? then map["latency_ms" := latency.value] else map[])
    + (if loss.Number? then map["loss_pct" := loss.value] else map[])
  }

  /** Python's `parts[k:]`, which clamps. */
  function From(parts: seq<string>, k: nat): seq<string> {
    if k <= |parts| then parts[k..] else []
  }

  function ParseRest(nat_: string, rest: seq<string>): ParsedName {
    var transport := if rest != [] then rest[0] else "?";
    var latency := ScanFor(From(rest, 1), "lat");
    var loss := ScanFor(From(rest, 1), "loss");
    if latency.Broken? || loss.Broken? then BadNumber
    else Parsed(nat_, transport, Extra(latency, loss))
  }

  function ParseName(fname: string): ParsedName {
    var parts := SplitOn(Delete(fname, ".json"), "-");
    if parts[0] == "none" then ParseRest("none", From(parts, 1))
    else if parts[0] == "full" then ParseRest("full-cone", From(parts, 2))
    else if parts[0] == "address" then ParseRest("address-restricted", From(parts, 2))
    else if parts[0] == "port" then ParseRest("port-restricted", From(parts, 2))
    else if parts[0] == "symmetric" then ParseRest("symmetric", From(parts, 1))
    else Unknown
  }

  /** No part starts with `key`. */
  predicate Foreign(parts: seq<string>, key: string) {
    forall i :: 0 <= i < |parts| ==> !(key <= parts[i])
  }

  lemma {:induction false} ScanNothing(parts: seq<string>, key: string)
    requires key != "" && Foreign(parts, key)
    ensures ScanFor(parts, key) == NoNumber
  {
    if parts != [] {
      ScanNothing(parts[..|parts| - 1], key);
    }
  }

  /** The substring test that guards each loop never changes the outcome. */
  lemma GuardIsRedundant(parts: seq<string>, key: string)
    requires key != "" && !Contains(Join(parts, "-"), key)
    ensures ScanFor(parts, key) == NoNumber
  {
    forall i | 0 <= i < |parts| ensures !(key <= parts[i]) {
      if key <= parts[i] {
        JoinContains(parts, "-", i, key);
        assert false;
      }
    }
    ScanNothing(parts, key);
  }

  method ScanLoop(parts: seq<string>, key: string) returns (scan: Scan)
    requires key != ""
    ensures scan == if Contains(Join(parts, "-"), key) then ScanFor(parts, key) else NoNumber
    ensures scan == ScanFor(parts, key)
  {
    scan := NoNumber;
    if !Contains(Join(parts, "-"), key) {
      GuardIsRedundant(parts, key);
      return;
    }
    for i := 0 to |parts|
      invariant scan == ScanFor(parts[..i], key) && !scan.Broken?
    {
      assert parts[..i + 1][..i] == parts[..i];
      if key <= parts[i] {
        match ParseInt(Delete(parts[i], key)) {
          case Some(n) => scan := Number(n);
          case None =>
            ScanStaysBroken(parts, i + 1, key);
            return Broken;
        }
      }
    }
    assert parts[..|parts|] == parts;
  }

  lemma {:induction false} ScanStaysBroken(parts: seq<string>, k: nat, key: string)
    requires key != "" && k <= |parts| && ScanFor(parts[..k], key).Broken?
    ensures ScanFor(parts, key).Broken?
  {
    if k == |parts| {
      assert parts[..k] == parts;
    } else {
      assert parts[..|parts| - 1][..k] == parts[..k];
      ScanStaysBroken(parts[..|parts| - 1], k, key);
    }
  }

  method ParseScenarioName(fname: string) returns (r: ParsedName)
    ensures r == ParseName(fname)
  {
    var parts := SplitOn(Delete(fname, ".json"), "-");
    var natType, rest;
    if parts[0] == "none" {
      natType, rest := "none", From(parts, 1);
    } else if parts[0] == "full" {
      natType, rest := "full-cone", From(parts, 2);
    } else if parts[0] == "address" {
      natType, rest := "address-restricted", From(parts, 2);
    } else if parts[0] == "port" {
      natType, rest := "port-restricted", From(parts, 2);
    } else if parts[0] == "symmetric" {
      natType, rest := "symmetric", From(parts, 1);
    } else {
      return Unknown;
    }
    var transport := if rest != [] then rest[0] else "?";
    var latency := ScanLoop(From(rest, 1), "lat");
    if latency.Broken? { return BadNumber; }
    var loss := ScanLoop(From(rest, 1), "loss");
    if loss.Broken? { return BadNumber; }
    return Parsed(natType, transport, Extra(latency, loss));
  }

  // ------------------------------------------------------------- round trip

  function NatTokens(natType: string): seq<string>
    requires natType in NAT_TYPES
  {
    if natType == "none" then ["none"]
    else if natType == "full-cone" then ["full", "cone"]
    else if natType == "address-restricted" then ["address", "restricted"]
    else if natType == "port-restricted" then ["port", "restricted"]
    else ["symmetric"]
  }

  lemma NatTokensJoin(natType: string)
    requires natType in NAT_TYPES
    ensures Join(NatTokens(natType), "-") == natType
  {
    var t := NatTokens(natType);
    if |t| == 2 {
      assert t[1..] == [t[1]];
    }
  }

  /** A negative latency prints a second dash, so it falls into two tokens. */
  function LatencyTokens(s: Scenario): seq<string> {
    if s.latencyMs < 0 then ["lat", Decimal(-s.latencyMs)] else LatencyField(s)
  }

  /** The dash-free tokens of an unnamed scenario's label. */
  function LabelTokens(s: Scenario, run: nat): seq<string>
    requires s.natType in NAT_TYPES
  {
    NatTokens(s.natType) + TailTokens(s, run)
  }

  function TailTokens(s: Scenario, run: nat): seq<string> {
    [s.transport, ServerField(s)]
    + ImplField(s) + LossField(s) + LatencyTokens(s) + RunField(s, run)
  }

  lemma NatInside(natType: string, rest: seq<string>)
    requires natType in NAT_TYPES
    ensures Join([natType] + rest, "-") == Join(NatTokens(natType) + rest, "-")
  {
    NatTokensJoin(natType);
    JoinNested([], NatTokens(natType), rest, "-");
    assert [] + [natType] + rest == [natType] + rest;
    assert [] + NatTokens(natType) + rest == NatTokens(natType) + rest;
  }

  lemma LatencyInside(s: Scenario, front: seq<string>, back: seq<string>)
    ensures Join(front + LatencyField(s) + back, "-") == Join(front + LatencyTokens(s) + back, "-")
  {
    if s.latencyMs < 0 {
      var two := LatencyTokens(s);
      assert two[1..] == [two[1]];
      assert Join(two, "-") == "lat" + DecimalInt(s.latencyMs);
      JoinNested(front, two, back, "-");
    }
  }

  lemma LabelIsTokens(s: Scenario, run: nat)
    requires Valid(s) && s.name == ""
    ensures RunLabel(s, run) == Join(LabelTokens(s, run), "-")
  {
    var fields := FrontFields(s) + LatencyField(s) + RunField(s, run);
    FieldsSplit(s, run);
    NatInside(s.natType, fields);
    TokensSplit(NatTokens(s.natType), s, run);
    LatencyInside(s, NatTokens(s.natType) + FrontFields(s), RunField(s, run));
  }

  function FrontFields(s: Scenario): seq<string> {
    [s.transport, ServerField(s)] + ImplField(s) + LossField(s)
  }

  lemma FieldsSplit(s: Scenario, run: nat)
    requires s.name == ""
    ensures LabelFields(s, run) == [s.natType] + (FrontFields(s) + LatencyField(s) + RunField(s, run))
  {
  }

  lemma TokensSplit(nt: seq<string>, s: Scenario, run: nat)
    ensures nt + (FrontFields(s) + LatencyField(s) + RunField(s, run))
         == (nt + FrontFields(s)) + LatencyField(s) + RunField(s, run)
    ensures nt + TailTokens(s, run) == (nt + FrontFields(s)) + LatencyTokens(s) + RunField(s, run)
  {
  }

  predicate Plain(tokens: seq<string>) {
    forall i :: 0 <= i < |tokens| ==> '-' !in tokens[i] && '.' !in tokens[i]
  }

  lemma DecimalIsPlain(n: nat)
    ensures Plain([Decimal(n)]) && 'l' !in Decimal(n)
  {
    assert !IsDigit('-') && !IsDigit('.') && !IsDigit('l');
  }

  lemma NamesArePlain(s: Scenario)
    requires Valid(s)
    ensures Plain(NatTokens(s.natType)) && Plain([s.transport])
  {
    NatIsPlain(s.natType);
  }

  lemma NatIsPlain(natType: string)
    requires natType in NAT_TYPES
    ensures Plain(NatTokens(natType))
  {
  }

  lemma ChoicesArePlain(s: Scenario)
    requires Valid(s)
    ensures Plain([ServerField(s)]) && Plain(ImplField(s))
  {
    var sc := ServerField(s);
    assert sc == "mock" || sc == "3" || sc == "4" || sc == "5" || sc == "6" || sc == "7";
  }

  lemma NumbersArePlain(s: Scenario, run: nat)
    requires Valid(s)
    ensures Plain(LossField(s)) && Plain(LatencyTokens(s)) && Plain(RunField(s, run))
  {
    DecimalIsPlain(if s.latencyMs < 0 then -s.latencyMs else s.latencyMs);
    DecimalIsPlain(s.packetLoss);
    DecimalIsPlain(run);
  }

  lemma TokensArePlain(s: Scenario, run: nat)
    requires Valid(s) && s.name == ""
    ensures Plain(LabelTokens(s, run))
  {
    NamesArePlain(s);
    ChoicesArePlain(s);
    NumbersArePlain(s, run);
    assert Plain([s.transport, ServerField(s)] + ImplField(s) + LossField(s));
  }

  lemma SplitLabel(s: Scenario, run: nat)
    requires Valid(s) && s.name == ""
    ensures SplitOn(Delete(RunLabel(s, run) + ".json", ".json"), "-") == LabelTokens(s, run)
  {
    LabelIsTokens(s, run);
    TokensArePlain(s, run);
    var tokens := LabelTokens(s, run);
    JoinChars(tokens, "-", '.');
    DeleteSuffix(RunLabel(s, run), ".json");
    SplitJoin(tokens, '-');
  }

  lemma {:induction false} ScanAround(front: seq<string>, back: seq<string>, key: string)
    requires key != "" && Foreign(back, key)
    ensures ScanFor(front + back, key) == ScanFor(front, key)
  {
    if back == [] {
      assert front + back == front;
    } else {
      var n := |back| - 1;
      assert (front + back)[..|front| + n] == front + back[..n];
      ScanAround(front, back[..n], key);
    }
  }

  /** One keyed token among tokens that do not start with `key`. */
  lemma ScanOne(front: seq<string>, token: string, back: seq<string>, key: string)
    requires key != "" && key <= token
    requires Foreign(front, key) && Foreign(back, key)
    ensures ScanFor(front + [token] + back, key)
         == match ParseInt(Delete(token, key)) case None => Broken case Some(n) => Number(n)
  {
    ScanNothing(front, key);
    assert (front + [token])[..|front|] == front;
    ScanAround(front + [token], back, key);
  }

  lemma ScanNumbered(front: seq<string>, key: string, n: nat, back: seq<string>)
    requires key != "" && !IsDigit(key[0])
    requires Foreign(front, key) && Foreign(back, key)
    ensures ScanFor(front + [key + Decimal(n)] + back, key) == Number(n)
  {
    ScanOne(front, key + Decimal(n), back, key);
    DeletePrefix(key, Decimal(n));
    DecimalRoundTrip(n);
  }

  lemma ForeignInitial(t: string, key: string)
    requires t != "" && key != "" && t[0] != key[0]
    ensures Foreign([t], key)
  {
  }

  lemma ForeignFields(s: Scenario, run: nat, key: string)
    requires Valid(s) && key != "" && key[0] == 'l'
    ensures Foreign([ServerField(s)], key) && Foreign(ImplField(s), key) && Foreign(RunField(s, run), key)
  {
    var sc := ServerField(s);
    assert sc == "mock" || sc == "3" || sc == "4" || sc == "5" || sc == "6" || sc == "7";
    ForeignInitial(sc, key);
    assert s.clientImpl == "go" || s.clientImpl == "rust" || s.clientImpl == "js";
    ForeignInitial(s.clientImpl, key);
    ForeignInitial("run" + DecimalInt(run), key);
  }

  lemma ForeignNumbers(s: Scenario)
    ensures Foreign(LossField(s), "lat") && Foreign(LatencyTokens(s), "loss")
  {
    assert s.packetLoss != 0 ==> LossField(s)[0][1] == 'o';
    if s.latencyMs < 0 {
      DecimalIsPlain(-s.latencyMs);
      ForeignInitial(Decimal(-s.latencyMs), "loss");
    } else if s.latencyMs > 0 {
      assert LatencyTokens(s)[0][1] == 'a';
    }
  }

  /** The scan of a token list in which only the middle group may mention `key`. */
  function Expect(value: int): Scan {
    if value == 0 then NoNumber else if value < 0 then Broken else Number(value)
  }

  lemma ScanLatencyTokens(s: Scenario, front: seq<string>, back: seq<string>)
    requires Foreign(front, "lat") && Foreign(back, "lat")
    ensures ScanFor(front + LatencyTokens(s) + back, "lat") == Expect(s.latencyMs)
  {
    if s.latencyMs == 0 {
      assert front + LatencyTokens(s) + back == front + back;
      ScanNothing(front + back, "lat");
    } else if s.latencyMs < 0 {
      var digits := Decimal(-s.latencyMs);
      DecimalIsPlain(-s.latencyMs);
      assert digits[0] != 'l';
      assert front + LatencyTokens(s) + back == front + ["lat"] + ([digits] + back);
      ScanOne(front, "lat", [digits] + back, "lat");
      assert "lat" + "" == "lat";
      DeletePrefix("lat", "");
    } else {
      ScanNumbered(front, "lat", s.latencyMs, back);
    }
  }

  lemma ScanLossField(s: Scenario, front: seq<string>, back: seq<string>)
    requires s.packetLoss >= 0
    requires Foreign(front, "loss") && Foreign(back, "loss")
    ensures ScanFor(front + LossField(s) + back, "loss") == Expect(s.packetLoss)
  {
    if s.packetLoss == 0 {
      assert front + LossField(s) + back == front + back;
      ScanNothing(front + back, "loss");
    } else {
      ScanNumbered(front, "loss", s.packetLoss, back);
    }
  }

  lemma ScanTailLatency(s: Scenario, run: nat)
    requires Valid(s)
    ensures ScanFor(TailTokens(s, run)[1..], "lat") == Expect(s.latencyMs)
  {
    ForeignFields(s, run, "lat");
    ForeignNumbers(s);
    var front := [ServerField(s)] + ImplField(s) + LossField(s);
    assert Foreign(front, "lat");
    assert TailTokens(s, run)[1..] == front + LatencyTokens(s) + RunField(s, run);
    ScanLatencyTokens(s, front, RunField(s, run));
  }

  lemma ScanTailLoss(s: Scenario, run: nat)
    requires Valid(s)
    ensures ScanFor(TailTokens(s, run)[1..], "loss") == Expect(s.packetLoss)
  {
    ForeignFields(s, run, "loss");
    ForeignNumbers(s);
    var front := [ServerField(s)] + ImplField(s);
    var back := LatencyTokens(s) + RunField(s, run);
    assert Foreign(front, "loss") && Foreign(back, "loss");
    assert TailTokens(s, run)[1..] == front + LossField(s) + back;
    ScanLossField(s, front, back);
  }

  lemma FromTokens(natType: string, rest: seq<string>)
    requires natType in NAT_TYPES
    ensures var parts := NatTokens(natType) + rest;
            From(parts, |NatTokens(natType)|) == rest && parts[0] == NatTokens(natType)[0]
  {
  }

  lemma ParseTokens(fname: string, natType: string, rest: seq<string>)
    requires natType in NAT_TYPES
    requires SplitOn(Delete(fname, ".json"), "-") == NatTokens(natType) + rest
    ensures ParseName(fname) == ParseRest(natType, rest)
  {
    FromTokens(natType, rest);
    NatHead(natType);
  }

  /** The first token tells the NAT types apart. */
  lemma NatHead(natType: string)
    requires natType in NAT_TYPES
    ensures NatTokens(natType)[0] == "none" <==> natType == "none"
    ensures NatTokens(natType)[0] == "full" <==> natType == "full-cone"
    ensures NatTokens(natType)[0] == "address" <==> natType == "address-restricted"
    ensures NatTokens(natType)[0] == "port" <==> natType == "port-restricted"
    ensures NatTokens(natType)[0] == "symmetric" <==> natType == "symmetric"
  {
  }

  /** The settings a label carries besides the NAT type and the transport. */
  function LabelExtra(s: Scenario): map<string, int> {
    (if s.latencyMs != 0 then map["latency_ms" := s.latencyMs] else map[])
    + (if s.packetLoss != 0 then map["loss_pct" := s.packetLoss] else map[])
  }

  /** Label round trip. For every valid unnamed scenario, whatever its client,
      mocks and run number, the figure script reads back the NAT type, the
      transport, and the loss and latency when non-zero; it does so exactly when
      the latency (which validation does not check) is not negative, and raises
      otherwise. */
  lemma LabelRoundTrip(s: Scenario, run: nat)
    requires Valid(s) && s.name == ""
    ensures var parsed := ParseName(RunLabel(s, run) + ".json");
            && (parsed == Parsed(s.natType, s.transport, LabelExtra(s)) <==> s.latencyMs >= 0)
            && (parsed == BadNumber <==> s.latencyMs < 0)
  {
    SplitLabel(s, run);
    var tail := TailTokens(s, run);
    ParseTokens(RunLabel(s, run) + ".json", s.natType, tail);
    assert From(tail, 1) == tail[1..];
    ScanTailLatency(s, run);
    ScanTailLoss(s, run);
  }

  // ----------------------------------------------------------- injectivity

  lemma TailsMatch(x: seq<string>, a: seq<string>, y: seq<string>, x': seq<string>, y': seq<string>)
    requires |x| == |x'|
    requires x + a + y == x' + a + y'
    ensures x == x' && y == y'
  {
    var l, r := x + a + y, x' + a + y';
    assert l[..|x|] == x && r[..|x'|] == x';
    assert l[|x| + |a|..] == y && r[|x'| + |a|..] == y';
  }

  lemma ExtraDetermines(s: Scenario, t: Scenario)
    requires LabelExtra(s) == LabelExtra(t)
    ensures s.latencyMs == t.latencyMs && s.packetLoss == t.packetLoss
  {
    var a, b := LabelExtra(s), LabelExtra(t);
    assert ("latency_ms" in a) == (s.latencyMs != 0) && ("latency_ms" in b) == (t.latencyMs != 0);
    assert ("loss_pct" in a) == (s.packetLoss != 0) && ("loss_pct" in b) == (t.packetLoss != 0);
  }

  lemma RunFieldDetermines(s: Scenario, run: nat, t: Scenario, run': nat)
    requires s.runs > 1 && t.runs > 1 && RunField(s, run) == RunField(t, run')
    ensures run == run'
  {
    var a, b := "run" + DecimalInt(run), "run" + DecimalInt(run');
    assert a == b by {
      assert RunField(s, run)[0] == a && RunField(t, run')[0] == b;
    }
    assert a[3..] == DecimalInt(run) && b[3..] == DecimalInt(run');
    DecimalRoundTrip(run);
    DecimalRoundTrip(run');
  }

  /** The tokens before the run number, which none of them looks like. */
  function BeforeRun(s: Scenario): seq<string> {
    [s.transport, ServerField(s)] + ImplField(s) + LossField(s) + LatencyTokens(s)
  }

  lemma DecimalNoRun(n: nat)
    ensures !("run" <= Decimal(n))
  {
    assert Decimal(n) != "" && IsDigit(Decimal(n)[0]) && !IsDigit('r');
  }

  lemma ChoicesNoRun(s: Scenario)
    requires Valid(s) && s.mockBehaviors.None?
    ensures Foreign([s.transport, ServerField(s)] + ImplField(s), "run")
  {
    assert "run"[0] == 'r' && "rust"[2] == 's';
  }

  lemma NumbersNoRun(s: Scenario)
    ensures Foreign(LossField(s), "run") && Foreign(LatencyTokens(s), "run")
  {
    assert "run"[0] == 'r' && "loss"[0] == "lat"[0] == 'l';
    if s.latencyMs < 0 {
      DecimalNoRun(-s.latencyMs);
    }
  }

  lemma ForeignAppend(a: seq<string>, b: seq<string>, key: string)
    requires Foreign(a, key) && Foreign(b, key)
    ensures Foreign(a + b, key)
  {
  }

  lemma NoRunBefore(s: Scenario)
    requires Valid(s) && s.mockBehaviors.None?
    ensures Foreign(BeforeRun(s), "run")
  {
    ChoicesNoRun(s);
    NumbersNoRun(s);
    ForeignAppend([s.transport, ServerField(s)] + ImplField(s), LossField(s), "run");
    ForeignAppend([s.transport, ServerField(s)] + ImplField(s) + LossField(s), LatencyTokens(s), "run");
  }

  /** A tail that ends in a run number is no tail without one. */
  lemma RunNumbersMatch(s: Scenario, run: nat, t: Scenario, run': nat)
    requires Valid(s) && s.mockBehaviors.None?
    requires TailTokens(s, run) == TailTokens(t, run') && t.runs > 1
    ensures s.runs > 1
  {
    EndsInRun(t, run');
    if s.runs <= 1 {
      NoRunTail(s, run);
    }
  }

  lemma EndsInRun(s: Scenario, run: nat)
    requires s.runs > 1
    ensures var tokens := TailTokens(s, run); "run" <= tokens[|tokens| - 1]
  {
    var tokens := TailTokens(s, run);
    assert tokens[|tokens| - 1] == "run" + DecimalInt(run);
  }

  lemma NoRunTail(s: Scenario, run: nat)
    requires Valid(s) && s.mockBehaviors.None? && s.runs <= 1
    ensures Foreign(TailTokens(s, run), "run")
  {
    NoRunBefore(s);
    assert TailTokens(s, run) == BeforeRun(s);
  }

  lemma SameBeforeRun(s: Scenario, run: nat, t: Scenario, run': nat)
    requires TailTokens(s, run) == TailTokens(t, run') && (s.runs > 1 <==> t.runs > 1)
    ensures BeforeRun(s) == BeforeRun(t) && RunField(s, run) == RunField(t, run')
  {
    var a, b := BeforeRun(s), BeforeRun(t);
    assert TailTokens(s, run) == a + RunField(s, run) && TailTokens(t, run') == b + RunField(t, run');
    assert (a + RunField(s, run))[..|a|] == a && (b + RunField(t, run'))[..|b|] == b;
  }

  lemma ChoicesDetermine(s: Scenario, t: Scenario)
    requires s.mockBehaviors.None? && t.mockBehaviors.None?
    requires s.latencyMs == t.latencyMs && s.packetLoss == t.packetLoss
    requires BeforeRun(s) == BeforeRun(t)
    ensures s.serverCount == t.serverCount && s.clientImpl == t.clientImpl
  {
    var shared := LossField(s) + LatencyTokens(s);
    var x, x' := [s.transport, s.serverCount] + ImplField(s), [t.transport, t.serverCount] + ImplField(t);
    assert BeforeRun(s) == x + shared && BeforeRun(t) == x' + shared;
    assert x + shared + [] == x + shared && x' + shared + [] == x' + shared;
    TailsMatch(x, shared, [], x', []);
    assert x[1] == s.serverCount && x'[1] == t.serverCount;
    assert |x| == 3 ==> x[2] == s.clientImpl && x'[2] == t.clientImpl;
  }

  lemma TailDetermines(s: Scenario, run: nat, t: Scenario, run': nat)
    requires Valid(s) && Valid(t) && s.mockBehaviors.None? && t.mockBehaviors.None?
    requires s.latencyMs == t.latencyMs && s.packetLoss == t.packetLoss
    requires TailTokens(s, run) == TailTokens(t, run')
    ensures s.serverCount == t.serverCount && s.clientImpl == t.clientImpl
    ensures (s.runs > 1 <==> t.runs > 1) && (s.runs > 1 ==> run == run')
  {
    if t.runs > 1 {
      RunNumbersMatch(s, run, t, run');
    }
    if s.runs > 1 {
      RunNumbersMatch(t, run', s, run);
    }
    SameBeforeRun(s, run, t, run');
    ChoicesDetermine(s, t);
    if s.runs > 1 {
      RunFieldDetermines(s, run, t, run');
    }
  }

  function Unsigned(s: Scenario): Scenario { s.(latencyMs := -s.latencyMs) }

  function BeforeLatency(s: Scenario): seq<string>
    requires s.natType in NAT_TYPES
  {
    NatTokens(s.natType) + FrontFields(s)
  }

  /** A negative latency leaves a bare "lat" among the tokens. */
  lemma SignedTokens(s: Scenario, run: nat)
    requires Valid(s) && s.latencyMs < 0
    ensures LabelTokens(s, run) == BeforeLatency(s) + ["lat"] + ([Decimal(-s.latencyMs)] + RunField(s, run))
    ensures LabelTokens(Unsigned(s), run) == BeforeLatency(s) + (["lat" + Decimal(-s.latencyMs)] + RunField(s, run))
  {
    TokensSplit(NatTokens(s.natType), s, run);
    TokensSplit(NatTokens(s.natType), Unsigned(s), run);
    assert LatencyTokens(s) == ["lat"] + [Decimal(-s.latencyMs)];
  }

  lemma NoBareLatency(s: Scenario)
    requires Valid(s) && s.mockBehaviors.None?
    ensures "lat" !in BeforeLatency(s)
  {
    forall i | 0 <= i < |LossField(s)| ensures LossField(s)[i] != "lat" {
      assert LossField(s)[i][1] == 'o' && "lat"[1] == 'a';
    }
    assert s.serverCount[0] != 'l';
    forall i | 0 <= i < |ImplField(s)| ensures ImplField(s)[i] != "lat" {
      assert ImplField(s)[i][0] != 'l';
    }
    NoBareNat(s.natType);
  }

  lemma NoBareNat(natType: string)
    requires natType in NAT_TYPES
    ensures "lat" !in NatTokens(natType)
  {
    assert forall token :: token in NatTokens(natType) ==> token[0] != 'l';
  }

  /** Cutting at the first `x`. */
  lemma CutAt<T>(a: seq<T>, b: seq<T>, x: T, c: seq<T>, d: seq<T>)
    requires x !in a && x !in c && a + [x] + b == c + [x] + d
    ensures a == c && b == d
  {
    CutNotBefore(a, b, x, c, d);
    CutNotBefore(c, d, x, a, b);
    var s := a + [x] + b;
    assert s[..|a|] == a && s[..|c|] == c && s[|a| + 1..] == b && s[|c| + 1..] == d;
  }

  lemma CutNotBefore<T>(a: seq<T>, b: seq<T>, x: T, c: seq<T>, d: seq<T>)
    requires x !in c && a + [x] + b == c + [x] + d
    ensures |a| >= |c|
  {
    assert (a + [x] + b)[|a|] == x;
  }

  /** Scenarios with a negative latency that share a label still share it without
      the minus sign. */
  lemma SameWithoutSign(s: Scenario, run: nat, t: Scenario, run': nat)
    requires Valid(s) && Valid(t) && s.mockBehaviors.None? && t.mockBehaviors.None?
    requires s.latencyMs < 0 && t.latencyMs < 0
    requires LabelTokens(s, run) == LabelTokens(t, run')
    ensures LabelTokens(Unsigned(s), run) == LabelTokens(Unsigned(t), run')
  {
    SignedTokens(s, run);
    SignedTokens(t, run');
    NoBareLatency(s);
    NoBareLatency(t);
    var back, back' := [Decimal(-s.latencyMs)] + RunField(s, run), [Decimal(-t.latencyMs)] + RunField(t, run');
    CutAt(BeforeLatency(s), back, "lat", BeforeLatency(t), back');
    assert back[0] == back'[0] && back[1..] == RunField(s, run) && back'[1..] == RunField(t, run');
  }

  /** Scenarios that agree but for their number of runs, of which a label shows only
      whether there are several. */
  predicate SameOnLabel(s: Scenario, t: Scenario) {
    s.(runs := t.runs) == t && (s.runs > 1 <==> t.runs > 1)
  }

  lemma SameOnLabelSameLabel(s: Scenario, t: Scenario, run: nat)
    requires SameOnLabel(s, t)
    ensures RunLabel(s, run) == RunLabel(t, run)
  {
  }

  /** Two runs that write to the same file are the same run of scenarios that
      agree on everything the label mentions. */
  lemma LabelDeterminesRun(s: Scenario, run: nat, t: Scenario, run': nat)
    requires Valid(s) && Valid(t) && s.name == t.name == ""
    requires s.mockBehaviors.None? && t.mockBehaviors.None?
    requires RunLabel(s, run) == RunLabel(t, run')
    ensures SameOnLabel(s, t)
    ensures s.runs > 1 ==> run == run'
  {
    LabelRoundTrip(s, run);
    LabelRoundTrip(t, run');
    SplitLabel(s, run);
    SplitLabel(t, run');
    if s.latencyMs < 0 {
      SameWithoutSign(s, run, t, run');
      ReadableLabelDeterminesRun(Unsigned(s), run, Unsigned(t), run');
    } else {
      ReadableLabelDeterminesRun(s, run, t, run');
    }
  }

  /** The same for labels that can be read back. */
  lemma ReadableLabelDeterminesRun(s: Scenario, run: nat, t: Scenario, run': nat)
    requires Valid(s) && Valid(t) && s.name == t.name == ""
    requires s.mockBehaviors.None? && t.mockBehaviors.None?
    requires s.latencyMs >= 0 && t.latencyMs >= 0
    requires LabelTokens(s, run) == LabelTokens(t, run')
    ensures SameOnLabel(s, t)
    ensures s.runs > 1 ==> run == run'
  {
    LabelIsTokens(s, run);
    LabelIsTokens(t, run');
    LabelRoundTrip(s, run);
    LabelRoundTrip(t, run');
    ExtraDetermines(s, t);
    var k := |NatTokens(s.natType)|;
    assert LabelTokens(s, run)[k..] == TailTokens(s, run);
    assert LabelTokens(t, run')[k..] == TailTokens(t, run');
    TailDetermines(s, run, t, run');
  }
}
