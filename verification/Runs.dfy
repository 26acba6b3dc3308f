/** From a matrix to result files: every run of every scenario gets a file of its own. */
module Runs {
  import opened Text
  import opened Labels
  import opened Matrix

  /** A YAML scalar. */
  datatype Scalar = Num(n: int) | Str(s: string)

  type Raw = map<string, Scalar>

  const LABEL_KEYS := {"nat_type", "transport", "server_count", "client_impl", "packet_loss", "latency_ms", "runs"}

  function AsText(v: Scalar): string {
    match v case Num(n) => DecimalInt(n) case Str(s) => s
  }

  function AsInt(v: Scalar): Option<int> {
    match v case Num(n) => Some(n) case Str(s) => ParseInt(s)
  }

  function Get(raw: Raw, key: string, default: Scalar): Scalar {
    if key in raw then raw[key] else default
  }

  /** `dict(zip(keys, combo))`. */
  function Zip(keys: seq<string>, combo: seq<Scalar>): Raw
    requires |keys| == |combo|
  {
    if keys == [] then map[]
    else Zip(keys[..|keys| - 1], combo[..|keys| - 1])[keys[|keys| - 1] := combo[|keys| - 1]]
  }

  function ExpandMatrix(keys: seq<string>, lists: seq<seq<Scalar>>): seq<Raw>
    requires |keys| == |lists|
  {
    var combos := Product(lists);
    ProductWidth(lists);
    seq(|combos|, i requires 0 <= i < |combos| => Zip(keys, combos[i]))
  }

  lemma ProductWidth<V>(lists: seq<seq<V>>)
    ensures forall i :: 0 <= i < |Product(lists)| ==> |Product(lists)[i]| == |lists|
  {
    ProductLength(lists);
    forall i | 0 <= i < |Product(lists)| ensures |Product(lists)[i]| == |lists| {
      PyDigitsOnto(lists, i);
      ProductAt(lists, PyDigits(lists, i));
    }
  }

  /** A scenario from its raw fields laid over the defaults; `None` when `int()` raises. */
  function ParseScenario(raw: Raw, defaults: Raw): Option<Scenario> {
    var d := defaults + raw;
    var loss := AsInt(Get(d, "packet_loss", Num(0)));
    var latency := AsInt(Get(d, "latency_ms", Num(10)));
    var runs := AsInt(Get(d, "runs", Num(1)));
    if loss.None? || latency.None? || runs.None? then None
    else Some(Scenario(
      AsText(Get(d, "nat_type", Str("none"))),
      AsText(Get(d, "transport", Str("both"))),
      AsText(Get(d, "server_count", Str("7"))),
      loss.value, latency.value, runs.value,
      AsText(Get(d, "name", Str(""))), None,
      AsText(Get(d, "client_impl", Str("go")))))
  }

  /** What a matrix value comes to on the label of its scenario: a word, a number,
      whether there are several runs, or nothing at all. */
  datatype Setting = Word(s: string) | Whole(n: Option<int>) | Several(b: bool) | Unmentioned

  function OnLabel(key: string, v: Scalar): Setting {
    if key in {"packet_loss", "latency_ms"} then Whole(AsInt(v))
    else if key == "runs" then Several(AsInt(v).GetOr(1) > 1)
    else if key in LABEL_KEYS then Word(AsText(v))
    else Unmentioned
  }

  function SettingOf(s: Scenario, key: string): Setting {
    if key !in LABEL_KEYS then Unmentioned
    else if key == "runs" then Several(s.runs > 1)
    else if key == "nat_type" then Word(s.natType)
    else if key == "transport" then Word(s.transport)
    else if key == "server_count" then Word(s.serverCount)
    else if key == "client_impl" then Word(s.clientImpl)
    else if key == "packet_loss" then Whole(Some(s.packetLoss))
    else Whole(Some(s.latencyMs))
  }

  lemma {:induction false} ZipAt(keys: seq<string>, combo: seq<Scalar>, k: nat)
    requires |keys| == |combo| && Distinct(keys) && k < |keys|
    ensures keys[k] in Zip(keys, combo) && Zip(keys, combo)[keys[k]] == combo[k]
  {
    var n := |keys| - 1;
    if k < n {
      ZipAt(keys[..n], combo[..n], k);
    }
  }

  lemma {:induction false} ZipKeys(keys: seq<string>, combo: seq<Scalar>)
    requires |keys| == |combo|
    ensures forall key :: key in Zip(keys, combo) <==> key in keys
  {
    if keys != [] {
      var n := |keys| - 1;
      ZipKeys(keys[..n], combo[..n]);
      assert keys == keys[..n] + [keys[n]];
    }
  }

  /** The matrix part of an experiment file, with its defaults. */
  datatype Experiment = Experiment(keys: seq<string>, lists: seq<seq<Scalar>>, defaults: Raw)

  /** A matrix key that leaves its scenarios unnamed and without mocks. */
  predicate PlainKey(key: string) { key != "name" && key != "mock_behaviors" }

  ghost predicate WellFormed(e: Experiment) {
    && |e.keys| == |e.lists|
    && Distinct(e.keys)
    && (forall k :: 0 <= k < |e.keys| ==> PlainKey(e.keys[k]))
    && AsText(Get(e.defaults, "name", Str(""))) == ""
    && forall i :: 0 <= i < |Expand(e)| ==> Accepted(Expand(e)[i])
  }

  /** What the runner validates. */
  predicate Accepted(s: Option<Scenario>) {
    s.Some? && Valid(s.value)
  }

  function Expand(e: Experiment): seq<Option<Scenario>>
    requires |e.keys| == |e.lists|
  {
    var raws := ExpandMatrix(e.keys, e.lists);
    seq(|raws|, i requires 0 <= i < |raws| => ParseScenario(raws[i], e.defaults))
  }

  lemma ExpandAt(e: Experiment, digits: seq<nat>)
    requires |e.keys| == |e.lists| && Digits(e.lists, digits)
    ensures PyIndex(e.lists, digits) < |Expand(e)| == Total(e.lists)
    ensures Expand(e)[PyIndex(e.lists, digits)] == ParseScenario(Zip(e.keys, Select(e.lists, digits)), e.defaults)
  {
    ProductAt(e.lists, digits);
  }

  lemma ParsedSetting(raw: Raw, defaults: Raw, key: string)
    requires key in raw && ParseScenario(raw, defaults).Some?
    ensures SettingOf(ParseScenario(raw, defaults).value, key) == OnLabel(key, raw[key])
  {
    assert (defaults + raw)[key] == raw[key];
  }

  /** What a scenario gets for a key that neither the matrix nor the defaults give. */
  function Fallback(key: string): Setting
    requires key in LABEL_KEYS
  {
    if key == "nat_type" then Word("none")
    else if key == "transport" then Word("both")
    else if key == "server_count" then Word("7")
    else if key == "client_impl" then Word("go")
    else if key == "packet_loss" then Whole(Some(0))
    else if key == "latency_ms" then Whole(Some(10))
    else Several(false)
  }

  /** Where a field comes from when the matrix leaves it out: from the defaults, and
      from the fallback only when they leave it out too. */
  lemma DefaultsFillIn(raw: Raw, defaults: Raw, key: string)
    requires key in LABEL_KEYS && key !in raw && ParseScenario(raw, defaults).Some?
    ensures var setting := SettingOf(ParseScenario(raw, defaults).value, key);
            && (key in defaults ==> setting == OnLabel(key, defaults[key]))
            && (key !in defaults ==> setting == Fallback(key))
  {
    assert key in defaults ==> key in defaults + raw && (defaults + raw)[key] == defaults[key];
  }

  /** The number read from the entry that wins, whose own is what `key` falls back to. */
  predicate ReadsAs(raw: Raw, defaults: Raw, key: string, own: int, n: int) {
    if key in raw then AsInt(raw[key]) == Some(n)
    else if key in defaults then AsInt(defaults[key]) == Some(n)
    else n == own
  }

  /** The numbers themselves: loss, latency, and how often the scenario is run. */
  lemma NumbersAreRead(raw: Raw, defaults: Raw)
    requires ParseScenario(raw, defaults).Some?
    ensures var s := ParseScenario(raw, defaults).value;
            && ReadsAs(raw, defaults, "packet_loss", 0, s.packetLoss)
            && ReadsAs(raw, defaults, "latency_ms", 10, s.latencyMs)
            && ReadsAs(raw, defaults, "runs", 1, s.runs)
  {
  }

  predicate Readable(raw: Raw, defaults: Raw, key: string) {
    if key in raw then AsInt(raw[key]).Some? else key in defaults ==> AsInt(defaults[key]).Some?
  }

  /** Parsing fails exactly when the entry that wins for some number is none. */
  lemma ParsesWhenReadable(raw: Raw, defaults: Raw)
    ensures ParseScenario(raw, defaults).Some?
       <==> forall key :: key in {"packet_loss", "latency_ms", "runs"} ==> Readable(raw, defaults, key)
  {
    assert Readable(raw, defaults, "packet_loss") <==> AsInt(Get(defaults + raw, "packet_loss", Num(0))).Some?;
    assert Readable(raw, defaults, "latency_ms") <==> AsInt(Get(defaults + raw, "latency_ms", Num(10))).Some?;
    assert Readable(raw, defaults, "runs") <==> AsInt(Get(defaults + raw, "runs", Num(1))).Some?;
  }

  /** A number and its decimal text come to the same on a label. */
  lemma NumbersAsText(key: string, n: int)
    ensures OnLabel(key, Num(n)) == OnLabel(key, Str(DecimalInt(n)))
  {
    DecimalRoundTrip(n);
  }

  lemma GetSame(a: Raw, b: Raw, defaults: Raw, key: string, default: Scalar)
    requires a.Keys == b.Keys
    requires key in a ==> OnLabel(key, a[key]) == OnLabel(key, b[key])
    ensures OnLabel(key, Get(defaults + a, key, default)) == OnLabel(key, Get(defaults + b, key, default))
  {
  }

  /** Scenarios whose settings look the same have the same label, however the
      settings are written and whatever else the matrix varies. */
  lemma SettingsDetermine(a: Raw, b: Raw, defaults: Raw)
    requires a.Keys == b.Keys && "name" !in a
    requires forall key :: key in a ==> OnLabel(key, a[key]) == OnLabel(key, b[key])
    requires ParseScenario(a, defaults).Some? && ParseScenario(b, defaults).Some?
    ensures SameOnLabel(ParseScenario(a, defaults).value, ParseScenario(b, defaults).value)
  {
    GetSame(a, b, defaults, "nat_type", Str("none"));
    GetSame(a, b, defaults, "transport", Str("both"));
    GetSame(a, b, defaults, "server_count", Str("7"));
    GetSame(a, b, defaults, "client_impl", Str("go"));
    GetSame(a, b, defaults, "packet_loss", Num(0));
    GetSame(a, b, defaults, "latency_ms", Num(10));
    GetSame(a, b, defaults, "runs", Num(1));
  }

  /** Two runs of two scenarios of the list, `run` counting from 1. */
  predicate IsRun(e: Experiment, i: int, run: int)
    requires |e.keys| == |e.lists|
  {
    0 <= i < |Expand(e)| && Expand(e)[i].Some? && 1 <= run <= Expand(e)[i].value.runs
  }

  function LabelOf(e: Experiment, i: int, run: int): string
    requires |e.keys| == |e.lists| && IsRun(e, i, run)
  {
    RunLabel(Expand(e)[i].value, run)
  }

  ghost predicate AllLabelsDistinct(e: Experiment)
    requires |e.keys| == |e.lists|
  {
    forall i, run, j, run' :: IsRun(e, i, run) && IsRun(e, j, run') && LabelOf(e, i, run) == LabelOf(e, j, run')
      ==> i == j && run == run'
  }

  predicate SettingsDistinct(key: string, list: seq<Scalar>) {
    forall a, b :: 0 <= a < b < |list| ==> OnLabel(key, list[a]) != OnLabel(key, list[b])
  }

  lemma Unnamed(e: Experiment, i: nat)
    requires WellFormed(e) && i < |Expand(e)|
    ensures Expand(e)[i].value.name == ""
  {
    ProductLength(e.lists);
    ProductWidth(e.lists);
    ZipKeys(e.keys, Product(e.lists)[i]);
    assert "name" !in ExpandMatrix(e.keys, e.lists)[i] by {
      assert forall k :: 0 <= k < |e.keys| ==> PlainKey(e.keys[k]);
    }
  }

  lemma SettingAt(e: Experiment, i: nat, k: nat)
    requires WellFormed(e) && i < |Expand(e)| && k < |e.keys|
    ensures i < Total(e.lists) && Digits(e.lists, PyDigits(e.lists, i))
    ensures SettingOf(Expand(e)[i].value, e.keys[k])
         == OnLabel(e.keys[k], e.lists[k][PyDigits(e.lists, i)[k]])
  {
    ProductLength(e.lists);
    PyDigitsOnto(e.lists, i);
    var digits := PyDigits(e.lists, i);
    ExpandAt(e, digits);
    assert Accepted(Expand(e)[i]);
    ZipAt(e.keys, Select(e.lists, digits), k);
    ParsedSetting(Zip(e.keys, Select(e.lists, digits)), e.defaults, e.keys[k]);
  }

  /** Every scenario of a matrix gets what the matrix leaves out from the defaults. */
  lemma DefaultsReachAll(e: Experiment, i: nat, key: string)
    requires WellFormed(e) && i < |Expand(e)| && key in LABEL_KEYS && key !in e.keys
    ensures Expand(e)[i].Some?
    ensures var setting := SettingOf(Expand(e)[i].value, key);
            && (key in e.defaults ==> setting == OnLabel(key, e.defaults[key]))
            && (key !in e.defaults ==> setting == Fallback(key))
  {
    var raw := RawAt(e, i);
    DefaultsFillIn(raw, e.defaults, key);
  }

  /** The fields the matrix gives the `i`-th scenario. */
  lemma RawAt(e: Experiment, i: nat) returns (raw: Raw)
    requires WellFormed(e) && i < |Expand(e)|
    ensures raw == ExpandMatrix(e.keys, e.lists)[i]
    ensures Accepted(Expand(e)[i]) && Expand(e)[i] == ParseScenario(raw, e.defaults)
    ensures forall key :: key in raw <==> key in e.keys
  {
    ProductLength(e.lists);
    ProductWidth(e.lists);
    raw := ExpandMatrix(e.keys, e.lists)[i];
    ZipKeys(e.keys, Product(e.lists)[i]);
    assert Accepted(Expand(e)[i]);
  }

  /** Without a matrix key for it, the defaults say how often every scenario is run. */
  lemma DefaultRuns(e: Experiment, i: nat, n: int)
    requires WellFormed(e) && i < |Expand(e)| && "runs" !in e.keys
    ensures Expand(e)[i].Some?
    ensures Expand(e)[i].value.runs == n
       <==> if "runs" in e.defaults then AsInt(e.defaults["runs"]) == Some(n) else n == 1
  {
    var raw := RawAt(e, i);
    NumbersAreRead(raw, e.defaults);
  }

  lemma DistinctSettingsSuffice(e: Experiment)
    requires WellFormed(e)
    requires forall k :: 0 <= k < |e.keys| ==> SettingsDistinct(e.keys[k], e.lists[k])
    ensures AllLabelsDistinct(e)
  {
    forall i, run, j, run' |
      IsRun(e, i, run) && IsRun(e, j, run') && LabelOf(e, i, run) == LabelOf(e, j, run')
      ensures i == j && run == run'
    {
      Unnamed(e, i);
      Unnamed(e, j);
      assert Accepted(Expand(e)[i]) && Accepted(Expand(e)[j]);
      LabelDeterminesRun(Expand(e)[i].value, run, Expand(e)[j].value, run');
      SameOnLabelSamePosition(e, i, j);
    }
  }

  lemma SameOnLabelSamePosition(e: Experiment, i: nat, j: nat)
    requires WellFormed(e) && i < |Expand(e)| && j < |Expand(e)|
    requires forall k :: 0 <= k < |e.keys| ==> SettingsDistinct(e.keys[k], e.lists[k])
    requires Expand(e)[i].Some? && Expand(e)[j].Some? && SameOnLabel(Expand(e)[i].value, Expand(e)[j].value)
    ensures i == j
  {
    ProductLength(e.lists);
    PyDigitsOnto(e.lists, i);
    PyDigitsOnto(e.lists, j);
    forall k | 0 <= k < |e.keys| ensures PyDigits(e.lists, i)[k] == PyDigits(e.lists, j)[k] {
      SettingAt(e, i, k);
      SettingAt(e, j, k);
      SameSettingOf(Expand(e)[i].value, Expand(e)[j].value, e.keys[k]);
      assert SettingsDistinct(e.keys[k], e.lists[k]);
    }
    assert PyDigits(e.lists, i) == PyDigits(e.lists, j);
  }

  lemma SameSettingOf(s: Scenario, t: Scenario, key: string)
    requires SameOnLabel(s, t)
    ensures SettingOf(s, key) == SettingOf(t, key)
  {
  }

  lemma {:induction false} ZeroDigits<V>(lists: seq<seq<V>>)
    requires forall k :: 0 <= k < |lists| ==> lists[k] != []
    ensures Digits(lists, seq(|lists|, k => 0))
  {
  }

  lemma SameSettingsSameLabel(e: Experiment, d: seq<nat>, d': seq<nat>)
    requires WellFormed(e) && Digits(e.lists, d) && Digits(e.lists, d')
    requires forall l :: 0 <= l < |e.keys| ==>
               OnLabel(e.keys[l], e.lists[l][d[l]]) == OnLabel(e.keys[l], e.lists[l][d'[l]])
    ensures var i, j := PyIndex(e.lists, d), PyIndex(e.lists, d');
            && i < |Expand(e)| && j < |Expand(e)|
            && Accepted(Expand(e)[i]) && Accepted(Expand(e)[j])
            && SameOnLabel(Expand(e)[i].value, Expand(e)[j].value)
  {
    ExpandAt(e, d);
    ExpandAt(e, d');
    assert Accepted(Expand(e)[PyIndex(e.lists, d)]) && Accepted(Expand(e)[PyIndex(e.lists, d')]);
    SameSettingsZipped(e.keys, Select(e.lists, d), Select(e.lists, d'));
    SettingsDetermine(Zip(e.keys, Select(e.lists, d)), Zip(e.keys, Select(e.lists, d')), e.defaults);
  }

  lemma SameSettingsZipped(keys: seq<string>, a: seq<Scalar>, b: seq<Scalar>)
    requires |a| == |b| == |keys| && Distinct(keys)
    requires forall l :: 0 <= l < |keys| ==> PlainKey(keys[l]) && OnLabel(keys[l], a[l]) == OnLabel(keys[l], b[l])
    ensures Zip(keys, a).Keys == Zip(keys, b).Keys && "name" !in Zip(keys, a)
    ensures forall key :: key in Zip(keys, a) ==> OnLabel(key, Zip(keys, a)[key]) == OnLabel(key, Zip(keys, b)[key])
  {
    ZipKeys(keys, a);
    ZipKeys(keys, b);
    forall key | key in Zip(keys, a)
      ensures key != "name" && OnLabel(key, Zip(keys, a)[key]) == OnLabel(key, Zip(keys, b)[key])
    {
      var l :| 0 <= l < |keys| && keys[l] == key;
      ZipAt(keys, a, l);
      ZipAt(keys, b, l);
    }
  }

  lemma RepeatedSettingCollides(e: Experiment, k: nat, a: nat, b: nat)
    requires WellFormed(e) && k < |e.keys| && a < b < |e.lists[k]|
    requires OnLabel(e.keys[k], e.lists[k][a]) == OnLabel(e.keys[k], e.lists[k][b])
    requires forall l :: 0 <= l < |e.lists| ==> e.lists[l] != []
    ensures !AllLabelsDistinct(e)
  {
    ZeroDigits(e.lists);
    var zero := seq(|e.lists|, l => 0);
    var d, d' := zero[k := a], zero[k := b];
    SameSettingsSameLabel(e, d, d');
    var i, j := PyIndex(e.lists, d), PyIndex(e.lists, d');
    DigitsApart(e.lists, d, d', k);
    SameOnLabelSameLabel(Expand(e)[i].value, Expand(e)[j].value, 1);
    assert IsRun(e, i, 1) && IsRun(e, j, 1) && LabelOf(e, i, 1) == LabelOf(e, j, 1);
  }

  lemma DigitsApart<V>(lists: seq<seq<V>>, d: seq<nat>, d': seq<nat>, k: nat)
    requires Digits(lists, d) && Digits(lists, d') && k < |lists| && d[k] != d'[k]
    ensures PyIndex(lists, d) != PyIndex(lists, d')
  {
    ProductAt(lists, d);
    ProductAt(lists, d');
  }

  lemma EmptyListNoRuns(e: Experiment, k: nat)
    requires WellFormed(e) && k < |e.lists| && e.lists[k] == []
    ensures Expand(e) == []
  {
    if Expand(e) != [] {
      SettingAt(e, 0, k);
      assert false;
    }
  }

  ghost predicate NothingToRun(e: Experiment) {
    exists k :: 0 <= k < |e.lists| && e.lists[k] == []
  }

  ghost predicate NoSettingRepeats(e: Experiment)
    requires |e.keys| == |e.lists|
  {
    forall k :: 0 <= k < |e.keys| ==> SettingsDistinct(e.keys[k], e.lists[k])
  }

  /** No run overwrites the result file of another exactly when no list of the
      matrix repeats what its values come to on a label, or some list is empty and
      there is nothing to run: 7 and "7" are one server count, two numbers of runs
      above one look alike, and so do any two values of a key no label mentions. */
  lemma NoResultIsOverwritten(e: Experiment)
    requires WellFormed(e)
    ensures AllLabelsDistinct(e) <==> NothingToRun(e) || NoSettingRepeats(e)
  {
    if NothingToRun(e) {
      var k :| 0 <= k < |e.lists| && e.lists[k] == [];
      EmptyListNoRuns(e, k);
    } else if NoSettingRepeats(e) {
      DistinctSettingsSuffice(e);
    } else {
      var k :| 0 <= k < |e.keys| && !SettingsDistinct(e.keys[k], e.lists[k]);
      var a, b :| 0 <= a < b < |e.lists[k]| && OnLabel(e.keys[k], e.lists[k][a]) == OnLabel(e.keys[k], e.lists[k][b]);
      RepeatedSettingCollides(e, k, a, b);
    }
  }
}
