/** The checks a list of scenarios goes through before anything is run, as far as they
    concern what a label shows. */
module Validation {
  import opened Text
  import opened Labels

  const MOCK_BEHAVIORS := {
    "reject", "refuse", "force-unreachable", "internal-error", "timeout",
    "force-reachable", "wrong-nonce", "no-dialback-msg", "probabilistic", "actual"
  }

  /** What is wrong with a scenario, in the order in which it is looked for. */
  datatype Complaint = BadImpl | BadNat | BadTransport | BadServers | BadLoss | BadRuns | BadMockCount | BadMock {
    function Order(): nat {
      match this
      case BadImpl => 0
      case BadNat => 1
      case BadTransport => 2
      case BadServers => 3
      case BadLoss => 4
      case BadRuns => 5
      case BadMockCount => 6
      case BadMock => 7
    }
  }

  predicate Applies(c: Complaint, s: Scenario) {
    match c
    case BadImpl => s.clientImpl !in CLIENT_IMPLS
    case BadNat => s.natType !in NAT_TYPES
    case BadTransport => s.transport !in TRANSPORTS
    case BadServers => s.mockBehaviors.None? && s.serverCount !in SERVER_COUNTS
    case BadLoss => s.packetLoss < 0 || s.packetLoss > 100
    case BadRuns => s.runs < 1
    case BadMockCount => s.mockBehaviors.Some? && |s.mockBehaviors.value| != 3
    case BadMock =>
      s.mockBehaviors.Some? && exists i :: 0 <= i < |s.mockBehaviors.value| && s.mockBehaviors.value[i] !in MOCK_BEHAVIORS
  }

  predicate KnownMocks(s: Scenario) {
    s.mockBehaviors.Some? ==>
      forall i :: 0 <= i < |s.mockBehaviors.value| ==> s.mockBehaviors.value[i] in MOCK_BEHAVIORS
  }

  predicate Fine(s: Scenario) { Valid(s) && KnownMocks(s) }

  /** `c` is the first complaint that applies. */
  predicate IsFirst(c: Complaint, s: Scenario) {
    Applies(c, s) && forall c': Complaint :: c'.Order() < c.Order() ==> !Applies(c', s)
  }

  method Examine(s: Scenario) returns (c: Option<Complaint>)
    ensures c.None? <==> Fine(s)
    ensures c.Some? ==> IsFirst(c.value, s)
  {
    if s.clientImpl !in CLIENT_IMPLS {
      return Some(BadImpl);
    }
    if s.natType !in NAT_TYPES {
      return Some(BadNat);
    }
    if s.transport !in TRANSPORTS {
      return Some(BadTransport);
    }
    if s.mockBehaviors.None? && s.serverCount !in SERVER_COUNTS {
      return Some(BadServers);
    }
    if s.packetLoss < 0 || s.packetLoss > 100 {
      return Some(BadLoss);
    }
    if s.runs < 1 {
      return Some(BadRuns);
    }
    if s.mockBehaviors.Some? {
      if |s.mockBehaviors.value| != 3 {
        return Some(BadMockCount);
      }
      for i := 0 to |s.mockBehaviors.value|
        invariant forall j :: 0 <= j < i ==> s.mockBehaviors.value[j] in MOCK_BEHAVIORS
      {
        if s.mockBehaviors.value[i] !in MOCK_BEHAVIORS {
          return Some(BadMock);
        }
      }
    }
    c := None;
  }

  /** The runner goes on exactly when every scenario is fine, and otherwise stops at
      the first one that is not, with its first complaint. */
  method Validate(scenarios: seq<Scenario>) returns (r: Option<(nat, Complaint)>)
    ensures r.None? <==> forall i :: 0 <= i < |scenarios| ==> Fine(scenarios[i])
    ensures r.Some? ==>
              && r.value.0 < |scenarios| && IsFirst(r.value.1, scenarios[r.value.0])
              && forall i :: 0 <= i < r.value.0 ==> Fine(scenarios[i])
  {
    for i := 0 to |scenarios|
      invariant forall j :: 0 <= j < i ==> Fine(scenarios[j])
    {
      var c := Examine(scenarios[i]);
      if c.Some? {
        return Some((i, c.value));
      }
    }
    r := None;
  }

  /** A scenario is fine exactly when no complaint applies to it. */
  lemma FineMeansNoComplaint(s: Scenario)
    ensures Fine(s) <==> forall c: Complaint :: !Applies(c, s)
  {
    if forall c: Complaint :: !Applies(c, s) {
      assert !Applies(BadImpl, s) && !Applies(BadNat, s) && !Applies(BadTransport, s) && !Applies(BadServers, s);
      assert !Applies(BadLoss, s) && !Applies(BadRuns, s) && !Applies(BadMockCount, s) && !Applies(BadMock, s);
    }
  }
}
