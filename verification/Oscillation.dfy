/** The refined oscillation query: peers whose protocol set toggles, by version. */
module Oscillation {
  import opened Text

  const KAD := "/ipfs/kad/1.0.0"
  const AUTONAT_V1 := "/libp2p/autonat/1.0.0"
  const WINDOW := 7 * 24 * 3600

  datatype AgentRow = AgentRow(peer: string, agentVersion: string, updatedAt: int)

  datatype ProtocolRow = ProtocolRow(peer: string, protocols: seq<string>, updatedAt: int)

  /** The version bucket of an agent string: the first pattern that fits. */
  function Bucket(agent: string): string {
    if "kubo/0.1" <= agent then "0.1x"
    else if "kubo/0.2" <= agent then "0.2x"
    else if "kubo/0.30" <= agent then "0.30"
    else if "kubo/0.31" <= agent then "0.31"
    else if "kubo/0.32" <= agent then "0.32"
    else if "kubo/0.33" <= agent then "0.33"
    else if "kubo/0.34" <= agent then "0.34"
    else if "kubo/0.35" <= agent then "0.35"
    else if "kubo/0.36" <= agent then "0.36"
    else if "kubo/0.37" <= agent then "0.37"
    else if "kubo/0.38" <= agent then "0.38"
    else if "kubo/0.39" <= agent then "0.39"
    else "0.4x"
  }

  datatype PeerVersion = PeerVersion(peer: string, version: string)

  function PeerVersions(agents: seq<AgentRow>, now: int): seq<PeerVersion> {
    if agents == [] then []
    else
      var last := agents[|agents| - 1];
      PeerVersions(agents[..|agents| - 1], now)
      + (if last.updatedAt > now - WINDOW && "kubo/" <= last.agentVersion
         then [PeerVersion(last.peer, Bucket(last.agentVersion))] else [])
  }

  datatype State = Public | Unknown | Private | Inconsistent

  /** One joined row: an observation of a peer under one of its versions. */
  datatype Row = Row(peer: string, version: string, hasKad: bool, hasAutonat: bool) {
    function State(): State {
      if hasKad && hasAutonat then Public
      else if !hasKad && hasAutonat then Unknown
      else if !hasKad && !hasAutonat then Private
      else Inconsistent
    }
  }

  function JoinOne(p: ProtocolRow, versions: seq<PeerVersion>): seq<Row> {
    if versions == [] then []
    else
      var last := versions[|versions| - 1];
      JoinOne(p, versions[..|versions| - 1])
      + (if last.peer == p.peer then [Row(p.peer, last.version, KAD in p.protocols, AUTONAT_V1 in p.protocols)] else [])
  }

  function PeerStates(protocols: seq<ProtocolRow>, versions: seq<PeerVersion>, now: int): seq<Row> {
    if protocols == [] then []
    else
      var last := protocols[|protocols| - 1];
      PeerStates(protocols[..|protocols| - 1], versions, now)
      + (if last.updatedAt > now - WINDOW then JoinOne(last, versions) else [])
  }

  /** The rows of one (peer, version) group. */
  function Group(rows: seq<Row>, peer: string, version: string): seq<Row> {
    if rows == [] then []
    else
      var last := rows[|rows| - 1];
      Group(rows[..|rows| - 1], peer, version)
      + (if last.peer == peer && last.version == version then [last] else [])
  }

  function Bit(b: bool): nat { if b then 1 else 0 }

  function MaxKad(rows: seq<Row>): nat
    requires rows != []
  {
    var last := Bit(rows[|rows| - 1].hasKad);
    if |rows| == 1 then last
    else
      var before := MaxKad(rows[..|rows| - 1]);
      if before > last then before else last
  }

  function MinKad(rows: seq<Row>): nat
    requires rows != []
  {
    var last := Bit(rows[|rows| - 1].hasKad);
    if |rows| == 1 then last
    else
      var before := MinKad(rows[..|rows| - 1]);
      if before < last then before else last
  }

  predicate HasAny(rows: seq<Row>, states: set<State>) {
    exists i :: 0 <= i < |rows| && rows[i].State() in states
  }

  predicate KadToggles(group: seq<Row>)
    requires group != []
  {
    MaxKad(group) == 1 && MinKad(group) == 0
  }

  predicate AutonatDriven(group: seq<Row>) {
    HasAny(group, {Public}) && HasAny(group, {Unknown, Private})
  }

  datatype Summary = Summary(peer: string, version: string, kadToggles: bool, autonatDriven: bool)

  function Peers(rows: seq<Row>): set<string> { set r | r in rows :: r.peer }

  function Versions(rows: seq<Row>): set<string> { set r | r in rows :: r.version }

  /** `GROUP BY peer_id, version HAVING count(*) >= 2`: one summary per group. */
  function PeerSummary(rows: seq<Row>): set<Summary> {
    set p, v | p in Peers(rows) && v in Versions(rows) && |Group(rows, p, v)| >= 2 ::
      Summary(p, v, KadToggles(Group(rows, p, v)), AutonatDriven(Group(rows, p, v)))
  }

  function OfVersion(rows: seq<Row>, version: string): set<Summary> {
    set s | s in PeerSummary(rows) && s.version == version
  }

  function KadToggling(rows: seq<Row>, version: string): set<Summary> {
    set s | s in OfVersion(rows, version) && s.kadToggles
  }

  function Driven(rows: seq<Row>, version: string): set<Summary> {
    set s | s in OfVersion(rows, version) && s.autonatDriven
  }

  datatype Result = Result(total: nat, kadToggling: nat, autonatDriven: nat)

  /** The counts the query returns for a version. */
  function Counts(rows: seq<Row>, version: string): Result {
    Result(|OfVersion(rows, version)|, |KadToggling(rows, version)|, |Driven(rows, version)|)
  }

  function Query(agents: seq<AgentRow>, protocols: seq<ProtocolRow>, now: int, version: string): Result {
    Counts(PeerStates(protocols, PeerVersions(agents, now), now), version)
  }

  // ----------------------------------------------------- what the columns mean

  predicate SomeKad(rows: seq<Row>, on: bool) {
    exists i :: 0 <= i < |rows| && rows[i].hasKad == on
  }

  lemma {:induction false} ExtremesAreSeen(rows: seq<Row>)
    requires rows != []
    ensures MaxKad(rows) == 1 <==> SomeKad(rows, true)
    ensures MinKad(rows) == 0 <==> SomeKad(rows, false)
    ensures MaxKad(rows) <= 1 && MinKad(rows) <= 1
  {
    var n := |rows| - 1;
    if n > 0 {
      ExtremesAreSeen(rows[..n]);
      assert forall i :: 0 <= i < n ==> rows[..n][i] == rows[i];
    }
  }

  /** Every kad-on row of the group lacks AutoNAT. */
  predicate OnlyInconsistentOn(group: seq<Row>) {
    forall i :: 0 <= i < |group| && group[i].hasKad ==> group[i].State() == Inconsistent
  }

  /** A group is AutoNAT-driven exactly when its kad protocol toggles and some
      kad-on row is Public. */
  lemma DrivenMeansToggles(group: seq<Row>)
    requires group != []
    ensures AutonatDriven(group) <==> KadToggles(group) && !OnlyInconsistentOn(group)
  {
    ExtremesAreSeen(group);
    if AutonatDriven(group) {
      var i :| 0 <= i < |group| && group[i].State() in {Public};
      var j :| 0 <= j < |group| && group[j].State() in {Unknown, Private};
      assert group[i].hasKad && !group[j].hasKad;
    }
    if KadToggles(group) && !OnlyInconsistentOn(group) {
      var i :| 0 <= i < |group| && group[i].hasKad && group[i].State() != Inconsistent;
      var j :| 0 <= j < |group| && group[j].hasKad == false;
      assert group[i].State() == Public && group[j].State() in {Unknown, Private};
    }
  }

  /** The groups that toggle kad without AutoNAT ever being seen along with it. */
  function KadOnly(rows: seq<Row>, version: string): set<Summary> {
    set s | s in KadToggling(rows, version) && OnlyInconsistentOn(Group(rows, s.peer, version))
  }

  /** The counting theorem: for every table and version the driven groups are among
      the toggling ones, these among all, and the difference counts exactly the
      groups that toggle kad while every kad-on row is Inconsistent. */
  lemma CountingTheorem(rows: seq<Row>, version: string)
    ensures var r := Counts(rows, version);
            && r.autonatDriven <= r.kadToggling <= r.total
            && r.kadToggling - r.autonatDriven == |KadOnly(rows, version)|
  {
    var toggling, driven, kadOnly := KadToggling(rows, version), Driven(rows, version), KadOnly(rows, version);
    forall s | s in OfVersion(rows, version)
      ensures s in driven <==> s in toggling && s !in kadOnly
    {
      var g := Group(rows, s.peer, version);
      DrivenMeansToggles(g);
    }
    assert toggling == driven + kadOnly && driven !! kadOnly;
    SubsetSize(toggling, OfVersion(rows, version));
  }

  lemma {:induction false} SubsetSize<T>(a: set<T>, b: set<T>)
    requires a <= b
    ensures |a| <= |b|
  {
    if a != {} {
      var x :| x in a;
      SubsetSize(a - {x}, b - {x});
    }
  }

  // ------------------------------------------------ row order and duplication

  /** The same rows, however often and in whatever order. */
  predicate SameRows(a: seq<Row>, b: seq<Row>) {
    Members(a) == Members(b)
  }

  function Members(rows: seq<Row>): set<Row> { set r | r in rows }

  lemma SameRowsMembers(a: seq<Row>, b: seq<Row>)
    requires SameRows(a, b)
    ensures forall r :: r in a <==> r in b
  {
    forall r ensures r in a <==> r in b {
      assert r in a <==> r in Members(a);
      assert r in b <==> r in Members(b);
    }
  }

  lemma {:induction false} GroupMembers(rows: seq<Row>, peer: string, version: string)
    ensures forall r :: r in Group(rows, peer, version) <==> r in rows && r.peer == peer && r.version == version
  {
    if rows != [] {
      var n := |rows| - 1;
      GroupMembers(rows[..n], peer, version);
      assert rows == rows[..n] + [rows[n]];
    }
  }

  lemma SameMembersSameGroup(a: seq<Row>, b: seq<Row>)
    requires a != [] && b != [] && forall r :: r in a <==> r in b
    ensures KadToggles(a) == KadToggles(b) && AutonatDriven(a) == AutonatDriven(b)
  {
    ExtremesAreSeen(a);
    ExtremesAreSeen(b);
    SameMembersSeen(a, b);
    SameMembersSeen(b, a);
  }

  lemma SameMembersSeen(a: seq<Row>, b: seq<Row>)
    requires forall r :: r in a ==> r in b
    ensures forall on :: SomeKad(a, on) ==> SomeKad(b, on)
    ensures forall states :: HasAny(a, states) ==> HasAny(b, states)
  {
    forall on | SomeKad(a, on) ensures SomeKad(b, on) {
      var i :| 0 <= i < |a| && a[i].hasKad == on;
      assert a[i] in b;
      var j :| 0 <= j < |b| && b[j] == a[i];
      assert b[j].hasKad == on;
    }
    forall states | HasAny(a, states) ensures HasAny(b, states) {
      var i :| 0 <= i < |a| && a[i].State() in states;
      assert a[i] in b;
      var j :| 0 <= j < |b| && b[j] == a[i];
      assert b[j].State() in states;
    }
  }

  lemma SameSummary(a: seq<Row>, b: seq<Row>)
    requires SameRows(a, b)
    requires forall p, v :: |Group(a, p, v)| >= 2 <==> |Group(b, p, v)| >= 2
    ensures PeerSummary(a) <= PeerSummary(b)
  {
    SameRowsMembers(a, b);
    forall s | s in PeerSummary(a) ensures s in PeerSummary(b) {
      var g, h := Group(a, s.peer, s.version), Group(b, s.peer, s.version);
      assert |g| >= 2 && |h| >= 2;
      GroupMembers(a, s.peer, s.version);
      GroupMembers(b, s.peer, s.version);
      assert h[0] in h;
      assert s.peer in Peers(b) && s.version in Versions(b);
      SameMembersSameGroup(g, h);
    }
  }

  /** The result depends on which rows there are and on which groups have two of
      them, and on nothing else: not on their order, and not on repetition. */
  lemma OrderAndRepetitionDoNotMatter(a: seq<Row>, b: seq<Row>, version: string)
    requires SameRows(a, b)
    requires forall p, v :: |Group(a, p, v)| >= 2 <==> |Group(b, p, v)| >= 2
    ensures Counts(a, version) == Counts(b, version)
  {
    SameSummary(a, b);
    SameSummary(b, a);
    assert PeerSummary(a) == PeerSummary(b);
  }

  lemma {:induction false} GroupSize(rows: seq<Row>, peer: string, version: string, x: Row)
    ensures multiset(Group(rows, peer, version))[x] == if x.peer == peer && x.version == version then multiset(rows)[x] else 0
  {
    if rows != [] {
      var n := |rows| - 1;
      GroupSize(rows[..n], peer, version, x);
      assert rows == rows[..n] + [rows[n]];
    }
  }

  /** In particular, shuffling a table changes no count. */
  lemma ShufflingDoesNotMatter(a: seq<Row>, b: seq<Row>, version: string)
    requires multiset(a) == multiset(b)
    ensures Counts(a, version) == Counts(b, version)
  {
    forall r ensures r in a <==> r in b {
      assert r in multiset(a) <==> r in multiset(b);
    }
    forall p, v ensures |Group(a, p, v)| == |Group(b, p, v)| {
      forall x ensures multiset(Group(a, p, v))[x] == multiset(Group(b, p, v))[x] {
        GroupSize(a, p, v, x);
        GroupSize(b, p, v, x);
      }
      assert multiset(Group(a, p, v)) == multiset(Group(b, p, v));
      assert |Group(a, p, v)| == |multiset(Group(a, p, v))|;
      assert |Group(b, p, v)| == |multiset(Group(b, p, v))|;
    }
    OrderAndRepetitionDoNotMatter(a, b, version);
  }

  // ------------------------------------------------------- the join's fan-out

  function RecentRows(protocols: seq<ProtocolRow>, peer: string, now: int): nat {
    if protocols == [] then 0
    else
      var last := protocols[|protocols| - 1];
      RecentRows(protocols[..|protocols| - 1], peer, now)
      + (if last.peer == peer && last.updatedAt > now - WINDOW then 1 else 0)
  }

  function VersionRows(versions: seq<PeerVersion>, peer: string, version: string): nat {
    if versions == [] then 0
    else
      VersionRows(versions[..|versions| - 1], peer, version)
      + (if versions[|versions| - 1] == PeerVersion(peer, version) then 1 else 0)
  }

  lemma {:induction false} GroupAppend(a: seq<Row>, b: seq<Row>, peer: string, version: string)
    ensures Group(a + b, peer, version) == Group(a, peer, version) + Group(b, peer, version)
  {
    if b == [] {
      assert a + b == a;
    } else {
      var n := |b| - 1;
      assert (a + b)[..|a| + n] == a + b[..n];
      GroupAppend(a, b[..n], peer, version);
    }
  }

  lemma {:induction false} JoinOneSize(p: ProtocolRow, versions: seq<PeerVersion>, peer: string, version: string)
    ensures |Group(JoinOne(p, versions), peer, version)| == if p.peer == peer then VersionRows(versions, peer, version) else 0
  {
    if versions != [] {
      var n := |versions| - 1;
      JoinOneSize(p, versions[..n], peer, version);
      var row := Row(p.peer, versions[n].version, KAD in p.protocols, AUTONAT_V1 in p.protocols);
      var more := if versions[n].peer == p.peer then [row] else [];
      GroupAppend(JoinOne(p, versions[..n]), more, peer, version);
      assert Group([], peer, version) == [] && [row][..0] == [];
      assert Group([row], peer, version) == if row.peer == peer && row.version == version then [row] else [];
    }
  }

  lemma MulSucc(a: nat, b: nat)
    ensures (a + 1) * b == a * b + b
  {
  }

  /** The join multiplies: a group has one row per recent observation of the peer
      and per version row of that bucket. So the two-row threshold is met by a
      single observation of a peer whose version was logged twice. */
  lemma {:induction false} JoinMultiplies(protocols: seq<ProtocolRow>, versions: seq<PeerVersion>, now: int, peer: string, version: string)
    ensures |Group(PeerStates(protocols, versions, now), peer, version)|
         == RecentRows(protocols, peer, now) * VersionRows(versions, peer, version)
  {
    if protocols != [] {
      var n := |protocols| - 1;
      JoinMultiplies(protocols[..n], versions, now, peer, version);
      JoinStep(protocols, versions, now, peer, version);
      MulSucc(RecentRows(protocols[..n], peer, now), VersionRows(versions, peer, version));
    }
  }

  lemma JoinStep(protocols: seq<ProtocolRow>, versions: seq<PeerVersion>, now: int, peer: string, version: string)
    requires protocols != []
    ensures var front, p := protocols[..|protocols| - 1], protocols[|protocols| - 1];
            |Group(PeerStates(protocols, versions, now), peer, version)|
            == |Group(PeerStates(front, versions, now), peer, version)|
               + (if p.updatedAt > now - WINDOW && p.peer == peer then VersionRows(versions, peer, version) else 0)
  {
    var front, p := protocols[..|protocols| - 1], protocols[|protocols| - 1];
    var more := if p.updatedAt > now - WINDOW then JoinOne(p, versions) else [];
    GroupAppend(PeerStates(front, versions, now), more, peer, version);
    JoinOneSize(p, versions, peer, version);
  }

  // ------------------------------------------------------------ the whole query

  /** The peers with at least two joined rows in a version bucket. */
  function SeenTwice(agents: seq<AgentRow>, protocols: seq<ProtocolRow>, now: int, version: string): set<string> {
    set p | p in Observed(protocols)
         && RecentRows(protocols, p.peer, now) * VersionRows(PeerVersions(agents, now), p.peer, version) >= 2
      :: p.peer
  }

  function Observed(protocols: seq<ProtocolRow>): set<ProtocolRow> { set r | r in protocols }

  lemma {:induction false} RecentIsObserved(protocols: seq<ProtocolRow>, peer: string, now: int)
    ensures RecentRows(protocols, peer, now) > 0 ==> exists r :: r in protocols && r.peer == peer
  {
    if protocols != [] {
      var n := |protocols| - 1;
      RecentIsObserved(protocols[..n], peer, now);
      assert protocols[n] in protocols;
      assert forall r :: r in protocols[..n] ==> r in protocols;
    }
  }

  /** As many summaries as peers, when each peer has exactly one. */
  lemma {:induction false} OnePerPeer(summaries: set<Summary>, peers: set<string>)
    requires forall s :: s in summaries ==> s.peer in peers
    requires forall p :: p in peers ==> exists s :: s in summaries && s.peer == p
    requires forall s, t :: s in summaries && t in summaries && s.peer == t.peer ==> s == t
    ensures |summaries| == |peers|
  {
    if summaries == {} {
      assert peers == {};
    } else {
      var s :| s in summaries;
      forall p | p in peers - {s.peer} ensures exists t :: t in summaries - {s} && t.peer == p {
        var t :| t in summaries && t.peer == p;
        assert t in summaries - {s};
      }
      OnePerPeer(summaries - {s}, peers - {s.peer});
    }
  }

  lemma SummaryOf(rows: seq<Row>, peer: string, version: string)
    requires |Group(rows, peer, version)| >= 2
    ensures exists s :: s in OfVersion(rows, version) && s.peer == peer
  {
    var g := Group(rows, peer, version);
    GroupMembers(rows, peer, version);
    assert g[0] in g;
    assert peer in Peers(rows) && version in Versions(rows);
    assert Summary(peer, version, KadToggles(g), AutonatDriven(g)) in OfVersion(rows, version);
  }

  /** What the query counts: the total is the number of peers whose recent
      observations times logged versions in the bucket make at least two rows, and
      its other columns stay below it as the counting theorem says. */
  lemma QueryCountsPeers(agents: seq<AgentRow>, protocols: seq<ProtocolRow>, now: int, version: string)
    ensures var r := Query(agents, protocols, now, version);
            && r.total == |SeenTwice(agents, protocols, now, version)|
            && r.autonatDriven <= r.kadToggling <= r.total
  {
    var versions := PeerVersions(agents, now);
    var rows := PeerStates(protocols, versions, now);
    var peers := SeenTwice(agents, protocols, now, version);
    forall p ensures p in peers <==> |Group(rows, p, version)| >= 2 {
      SeenTwiceIs(agents, protocols, now, p, version);
    }
    forall p | p in peers ensures exists s :: s in OfVersion(rows, version) && s.peer == p {
      SummaryOf(rows, p, version);
    }
    OnePerPeer(OfVersion(rows, version), peers);
    CountingTheorem(rows, version);
  }

  lemma ProductPositive(a: nat, b: nat)
    ensures a * b > 0 ==> a > 0
  {
  }

  // ------------------------------------------- what "two observations" amounts to

  /** The peers of a version bucket that were observed at least twice. */
  function ObservedTwice(agents: seq<AgentRow>, protocols: seq<ProtocolRow>, now: int, version: string): set<string> {
    set p | p in Observed(protocols)
         && RecentRows(protocols, p.peer, now) >= 2 && VersionRows(PeerVersions(agents, now), p.peer, version) >= 1
      :: p.peer
  }

  /** Those observed once, whose version was logged several times. */
  function ObservedOnce(agents: seq<AgentRow>, protocols: seq<ProtocolRow>, now: int, version: string): set<string> {
    set p | p in Observed(protocols)
         && RecentRows(protocols, p.peer, now) == 1 && VersionRows(PeerVersions(agents, now), p.peer, version) >= 2
      :: p.peer
  }

  lemma ReachesTwo(a: nat, b: nat)
    ensures a * b >= 2 <==> (a >= 2 && b >= 1) || (a == 1 && b >= 2)
  {
    if a >= 2 && b >= 1 {
      assert a * b >= a * 1;
    }
  }

  /** The total counts the peers observed twice and, besides, those observed once
      whose version was logged twice or more. So it counts peers with at least two
      observations exactly when there are none of the latter. */
  lemma TotalCountsObservations(agents: seq<AgentRow>, protocols: seq<ProtocolRow>, now: int, version: string)
    ensures var total := Query(agents, protocols, now, version).total;
            var twice := ObservedTwice(agents, protocols, now, version);
            var once := ObservedOnce(agents, protocols, now, version);
            && twice !! once
            && total == |twice| + |once|
            && (total == |twice| <==> once == {})
  {
    QueryCountsPeers(agents, protocols, now, version);
    forall p: ProtocolRow
      ensures var a, b := RecentRows(protocols, p.peer, now), VersionRows(PeerVersions(agents, now), p.peer, version);
              a * b >= 2 <==> (a >= 2 && b >= 1) || (a == 1 && b >= 2)
    {
      ReachesTwo(RecentRows(protocols, p.peer, now), VersionRows(PeerVersions(agents, now), p.peer, version));
    }
    var twice, once := ObservedTwice(agents, protocols, now, version), ObservedOnce(agents, protocols, now, version);
    assert SeenTwice(agents, protocols, now, version) == twice + once;
  }

  /** An instance: one observation of one peer, whose version was logged twice. */
  lemma OneObservationIsCounted(peer: string, now: int)
    ensures var agent := AgentRow(peer, "kubo/0.36", now);
            var observation := ProtocolRow(peer, [KAD], now);
            && RecentRows([observation], peer, now) == 1
            && ObservedTwice([agent, agent], [observation], now, "0.36") == {}
            && Query([agent, agent], [observation], now, "0.36").total == 1
  {
    var agent, observation := AgentRow(peer, "kubo/0.36", now), ProtocolRow(peer, [KAD], now);
    var agents, protocols := [agent, agent], [observation];
    BucketOf36();
    LoggedTwice(agent, now);
    TotalCountsObservations(agents, protocols, now, "0.36");
    assert protocols[..0] == [];
    assert Observed(protocols) == {observation};
    assert RecentRows(protocols, observation.peer, now) == 1;
    assert observation.peer in ObservedOnce(agents, protocols, now, "0.36");
    assert ObservedOnce(agents, protocols, now, "0.36") == {peer};
  }

  lemma LoggedOnceMore(agents: seq<AgentRow>, agent: AgentRow, now: int)
    requires "kubo/" <= agent.agentVersion && agent.updatedAt > now - WINDOW
    ensures PeerVersions(agents + [agent], now)
         == PeerVersions(agents, now) + [PeerVersion(agent.peer, Bucket(agent.agentVersion))]
  {
    assert (agents + [agent])[..|agents|] == agents;
  }

  lemma VersionOnceMore(versions: seq<PeerVersion>, v: PeerVersion)
    ensures VersionRows(versions + [v], v.peer, v.version) == VersionRows(versions, v.peer, v.version) + 1
  {
    assert (versions + [v])[..|versions|] == versions;
  }

  lemma LoggedTwice(agent: AgentRow, now: int)
    requires "kubo/" <= agent.agentVersion && agent.updatedAt > now - WINDOW
    ensures VersionRows(PeerVersions([agent, agent], now), agent.peer, Bucket(agent.agentVersion)) == 2
  {
    var logged := PeerVersion(agent.peer, Bucket(agent.agentVersion));
    LoggedOnceMore([], agent, now);
    LoggedOnceMore([agent], agent, now);
    assert [] + [agent] == [agent] && [agent] + [agent] == [agent, agent];
    assert [] + [logged] == [logged];
    VersionOnceMore([], logged);
    VersionOnceMore([logged], logged);
  }

  lemma BucketOf36()
    ensures "kubo/" <= "kubo/0.36" && Bucket("kubo/0.36") == "0.36"
  {
    var agent := "kubo/0.36";
    assert agent[7] == '3' && agent[8] == '6';
    assert "kubo/0.1"[7] == '1' && "kubo/0.2"[7] == '2';
    assert "kubo/0.30"[8] == '0' && "kubo/0.31"[8] == '1' && "kubo/0.32"[8] == '2';
    assert "kubo/0.33"[8] == '3' && "kubo/0.34"[8] == '4' && "kubo/0.35"[8] == '5';
  }

  // -------------------------------------------------- the metrics on the tables

  predicate Recent(p: ProtocolRow, now: int) { p.updatedAt > now - WINDOW }

  /** An observation of `peer` in the window with these protocols listed or not. */
  predicate Observes(p: ProtocolRow, now: int, peer: string, kad: bool, autonat: bool) {
    && Recent(p, now) && p.peer == peer
    && ("/ipfs/kad/1.0.0" in p.protocols <==> kad)
    && ("/libp2p/autonat/1.0.0" in p.protocols <==> autonat)
  }

  predicate Seen(protocols: seq<ProtocolRow>, now: int, peer: string, kad: bool, autonat: bool) {
    exists i :: 0 <= i < |protocols| && Observes(protocols[i], now, peer, kad, autonat)
  }

  predicate InGroup(group: seq<Row>, kad: bool, autonat: bool) {
    exists i :: 0 <= i < |group| && group[i].hasKad == kad && group[i].hasAutonat == autonat
  }

  lemma InGroupAppend(a: seq<Row>, b: seq<Row>, kad: bool, autonat: bool)
    ensures InGroup(a + b, kad, autonat) <==> InGroup(a, kad, autonat) || InGroup(b, kad, autonat)
  {
    if i :| 0 <= i < |a| && a[i].hasKad == kad && a[i].hasAutonat == autonat {
      assert (a + b)[i] == a[i];
    }
    if i :| 0 <= i < |b| && b[i].hasKad == kad && b[i].hasAutonat == autonat {
      assert (a + b)[|a| + i] == b[i];
    }
  }

  lemma {:induction false} JoinedAs(p: ProtocolRow, versions: seq<PeerVersion>)
    ensures forall r :: r in JoinOne(p, versions) ==>
              && r.peer == p.peer
              && (r.hasKad <==> "/ipfs/kad/1.0.0" in p.protocols)
              && (r.hasAutonat <==> "/libp2p/autonat/1.0.0" in p.protocols)
  {
    if versions != [] {
      JoinedAs(p, versions[..|versions| - 1]);
    }
  }

  /** What joining one observation adds to a group. */
  lemma JoinedInGroup(p: ProtocolRow, versions: seq<PeerVersion>, peer: string, version: string, kad: bool, autonat: bool)
    ensures InGroup(Group(JoinOne(p, versions), peer, version), kad, autonat)
       <==> && p.peer == peer && VersionRows(versions, peer, version) > 0
            && ("/ipfs/kad/1.0.0" in p.protocols <==> kad)
            && ("/libp2p/autonat/1.0.0" in p.protocols <==> autonat)
  {
    var g := Group(JoinOne(p, versions), peer, version);
    JoinedAs(p, versions);
    JoinOneSize(p, versions, peer, version);
    GroupMembers(JoinOne(p, versions), peer, version);
    forall i | 0 <= i < |g|
      ensures g[i].hasKad <==> "/ipfs/kad/1.0.0" in p.protocols
      ensures g[i].hasAutonat <==> "/libp2p/autonat/1.0.0" in p.protocols
    {
      assert g[i] in g;
    }
    if |g| > 0 {
      assert g[0].hasKad == g[0].hasKad;
    }
  }

  lemma SeenOneMore(protocols: seq<ProtocolRow>, now: int, peer: string, kad: bool, autonat: bool)
    requires protocols != []
    ensures var n := |protocols| - 1;
            Seen(protocols, now, peer, kad, autonat)
            <==> Seen(protocols[..n], now, peer, kad, autonat) || Observes(protocols[n], now, peer, kad, autonat)
  {
    var front := protocols[..|protocols| - 1];
    if i :| 0 <= i < |front| && Observes(front[i], now, peer, kad, autonat) {
      assert Observes(protocols[i], now, peer, kad, autonat);
    }
    if i :| 0 <= i < |protocols| && Observes(protocols[i], now, peer, kad, autonat) {
      assert i < |front| ==> Observes(front[i], now, peer, kad, autonat);
    }
  }

  /** A group holds exactly the combinations of protocols observed of its peer. */
  lemma {:induction false} GroupHolds(
    protocols: seq<ProtocolRow>, versions: seq<PeerVersion>, now: int, peer: string, version: string, kad: bool, autonat: bool)
    ensures InGroup(Group(PeerStates(protocols, versions, now), peer, version), kad, autonat)
       <==> VersionRows(versions, peer, version) > 0 && Seen(protocols, now, peer, kad, autonat)
  {
    if protocols != [] {
      var front, p := protocols[..|protocols| - 1], protocols[|protocols| - 1];
      var more := if Recent(p, now) then JoinOne(p, versions) else [];
      GroupHolds(front, versions, now, peer, version, kad, autonat);
      GroupAppend(PeerStates(front, versions, now), more, peer, version);
      InGroupAppend(Group(PeerStates(front, versions, now), peer, version), Group(more, peer, version), kad, autonat);
      JoinedInGroup(p, versions, peer, version, kad, autonat);
      SeenOneMore(protocols, now, peer, kad, autonat);
    }
  }

  /** Kad toggles: some row has it and some has not. */
  lemma TogglesByRows(group: seq<Row>)
    requires group != []
    ensures KadToggles(group)
       <==> && (InGroup(group, true, true) || InGroup(group, true, false))
            && (InGroup(group, false, true) || InGroup(group, false, false))
  {
    ExtremesAreSeen(group);
    if i :| 0 <= i < |group| && group[i].hasKad == true {
      assert InGroup(group, true, group[i].hasAutonat);
    }
    if i :| 0 <= i < |group| && group[i].hasKad == false {
      assert InGroup(group, false, group[i].hasAutonat);
    }
  }

  /** AutoNAT-driven: some row has both protocols and some has no kad. */
  lemma DrivenByRows(group: seq<Row>)
    ensures AutonatDriven(group)
       <==> InGroup(group, true, true) && (InGroup(group, false, true) || InGroup(group, false, false))
  {
    if i :| 0 <= i < |group| && group[i].State() in {Public} {
      assert group[i].hasKad && group[i].hasAutonat;
    }
    if i :| 0 <= i < |group| && group[i].hasKad && group[i].hasAutonat {
      assert group[i].State() in {Public};
    }
    if i :| 0 <= i < |group| && group[i].State() in {Unknown, Private} {
      assert !group[i].hasKad && InGroup(group, false, group[i].hasAutonat);
    }
    if i :| 0 <= i < |group| && !group[i].hasKad {
      assert group[i].State() in {Unknown, Private};
    }
  }

  /** A recent observation of the peer that lists the kad protocol, or does not. */
  predicate KadObserved(protocols: seq<ProtocolRow>, now: int, peer: string, on: bool) {
    exists i :: 0 <= i < |protocols| && Recent(protocols[i], now) && protocols[i].peer == peer
             && ("/ipfs/kad/1.0.0" in protocols[i].protocols <==> on)
  }

  /** One that lists both protocols. */
  predicate BothObserved(protocols: seq<ProtocolRow>, now: int, peer: string) {
    exists i :: 0 <= i < |protocols| && Recent(protocols[i], now) && protocols[i].peer == peer
             && "/ipfs/kad/1.0.0" in protocols[i].protocols && "/libp2p/autonat/1.0.0" in protocols[i].protocols
  }

  lemma ObservedAs(protocols: seq<ProtocolRow>, now: int, peer: string)
    ensures forall on :: KadObserved(protocols, now, peer, on)
                    <==> Seen(protocols, now, peer, on, true) || Seen(protocols, now, peer, on, false)
    ensures BothObserved(protocols, now, peer) <==> Seen(protocols, now, peer, true, true)
  {
    forall on
      ensures KadObserved(protocols, now, peer, on)
         <==> Seen(protocols, now, peer, on, true) || Seen(protocols, now, peer, on, false)
    {
      if i :| 0 <= i < |protocols| && Recent(protocols[i], now) && protocols[i].peer == peer
              && ("/ipfs/kad/1.0.0" in protocols[i].protocols <==> on) {
        assert Observes(protocols[i], now, peer, on, "/libp2p/autonat/1.0.0" in protocols[i].protocols);
      }
    }
    if i :| 0 <= i < |protocols| && Recent(protocols[i], now) && protocols[i].peer == peer
            && "/ipfs/kad/1.0.0" in protocols[i].protocols && "/libp2p/autonat/1.0.0" in protocols[i].protocols {
      assert Observes(protocols[i], now, peer, true, true);
    }
  }

  /** The peers of a bucket with two joined rows that were seen with and without kad. */
  function Toggling(agents: seq<AgentRow>, protocols: seq<ProtocolRow>, now: int, version: string): set<string> {
    set p | p in SeenTwice(agents, protocols, now, version)
         && KadObserved(protocols, now, p, true) && KadObserved(protocols, now, p, false)
  }

  /** Those seen with both protocols at once, and without kad. */
  function Switching(agents: seq<AgentRow>, protocols: seq<ProtocolRow>, now: int, version: string): set<string> {
    set p | p in SeenTwice(agents, protocols, now, version)
         && BothObserved(protocols, now, p) && KadObserved(protocols, now, p, false)
  }

  /** What the group of a peer with two joined rows amounts to on the tables. */
  lemma GroupOnTables(agents: seq<AgentRow>, protocols: seq<ProtocolRow>, now: int, peer: string, version: string)
    requires |Group(PeerStates(protocols, PeerVersions(agents, now), now), peer, version)| >= 2
    ensures peer in SeenTwice(agents, protocols, now, version)
    ensures var g := Group(PeerStates(protocols, PeerVersions(agents, now), now), peer, version);
            && (KadToggles(g) <==> peer in Toggling(agents, protocols, now, version))
            && (AutonatDriven(g) <==> peer in Switching(agents, protocols, now, version))
  {
    var versions := PeerVersions(agents, now);
    var g := Group(PeerStates(protocols, versions, now), peer, version);
    SeenTwiceIs(agents, protocols, now, peer, version);
    VersionsLogged(protocols, versions, now, peer, version);
    GroupHolds(protocols, versions, now, peer, version, true, true);
    GroupHolds(protocols, versions, now, peer, version, true, false);
    GroupHolds(protocols, versions, now, peer, version, false, true);
    GroupHolds(protocols, versions, now, peer, version, false, false);
    TogglesByRows(g);
    DrivenByRows(g);
    ObservedAs(protocols, now, peer);
  }

  lemma VersionsLogged(protocols: seq<ProtocolRow>, versions: seq<PeerVersion>, now: int, peer: string, version: string)
    requires |Group(PeerStates(protocols, versions, now), peer, version)| > 0
    ensures VersionRows(versions, peer, version) > 0
  {
    JoinMultiplies(protocols, versions, now, peer, version);
  }

  lemma SeenTwiceIs(agents: seq<AgentRow>, protocols: seq<ProtocolRow>, now: int, peer: string, version: string)
    ensures peer in SeenTwice(agents, protocols, now, version)
       <==> |Group(PeerStates(protocols, PeerVersions(agents, now), now), peer, version)| >= 2
  {
    var versions := PeerVersions(agents, now);
    JoinMultiplies(protocols, versions, now, peer, version);
    RecentIsObserved(protocols, peer, now);
    ProductPositive(RecentRows(protocols, peer, now), VersionRows(versions, peer, version));
    if |Group(PeerStates(protocols, versions, now), peer, version)| >= 2 {
      var r :| r in protocols && r.peer == peer;
      assert r in Observed(protocols);
    }
  }

  lemma OneSummaryPerPeer(rows: seq<Row>, version: string)
    ensures forall s, t :: s in OfVersion(rows, version) && t in OfVersion(rows, version) && s.peer == t.peer ==> s == t
  {
  }

  /** The query on its two tables. Of the peers of a bucket with two joined rows,
      `kadToggling` counts those observed in the window both with and without the
      kad protocol, and `autonatDriven` those observed with both protocols at once
      and without kad. */
  lemma MetricsOnTables(agents: seq<AgentRow>, protocols: seq<ProtocolRow>, now: int, version: string)
    ensures var r := Query(agents, protocols, now, version);
            && r.kadToggling == |Toggling(agents, protocols, now, version)|
            && r.autonatDriven == |Switching(agents, protocols, now, version)|
  {
    var rows := PeerStates(protocols, PeerVersions(agents, now), now);
    OneSummaryPerPeer(rows, version);
    forall s | s in OfVersion(rows, version)
      ensures s.kadToggles <==> s.peer in Toggling(agents, protocols, now, version)
      ensures s.autonatDriven <==> s.peer in Switching(agents, protocols, now, version)
    {
      GroupOnTables(agents, protocols, now, s.peer, version);
    }
    forall p | p in SeenTwice(agents, protocols, now, version) ensures exists s :: s in OfVersion(rows, version) && s.peer == p {
      SeenTwiceIs(agents, protocols, now, p, version);
      SummaryOf(rows, p, version);
    }
    OnePerPeer(KadToggling(rows, version), Toggling(agents, protocols, now, version));
    OnePerPeer(Driven(rows, version), Switching(agents, protocols, now, version));
  }

  // --------------------------------------------------------- rows and versions

  /** An agent row in the window that puts its peer into this bucket. */
  predicate Logs(a: AgentRow, now: int, peer: string, version: string) {
    a.updatedAt > now - WINDOW && a.peer == peer && "kubo/" <= a.agentVersion && Bucket(a.agentVersion) == version
  }

  function LogRows(agents: seq<AgentRow>, now: int, peer: string, version: string): set<int> {
    set i | 0 <= i < |agents| && Logs(agents[i], now, peer, version)
  }

  function ObservationRows(protocols: seq<ProtocolRow>, now: int, peer: string): set<int> {
    set i | 0 <= i < |protocols| && Recent(protocols[i], now) && protocols[i].peer == peer
  }

  lemma VersionSnoc(versions: seq<PeerVersion>, v: PeerVersion, peer: string, version: string)
    ensures VersionRows(versions + [v], peer, version)
         == VersionRows(versions, peer, version) + if v == PeerVersion(peer, version) then 1 else 0
  {
    assert (versions + [v])[..|versions|] == versions;
  }

  lemma PeerVersionsLast(agents: seq<AgentRow>, now: int, peer: string, version: string)
    requires agents != []
    ensures var n := |agents| - 1;
            VersionRows(PeerVersions(agents, now), peer, version)
            == VersionRows(PeerVersions(agents[..n], now), peer, version)
               + if Logs(agents[n], now, peer, version) then 1 else 0
  {
    var n := |agents| - 1;
    var before, a := PeerVersions(agents[..n], now), agents[n];
    VersionSnoc(before, PeerVersion(a.peer, Bucket(a.agentVersion)), peer, version);
    assert before + [] == before;
  }

  /** The version rows the join multiplies by are the agent rows of the bucket. */
  lemma {:induction false} VersionRowsCounted(agents: seq<AgentRow>, now: int, peer: string, version: string)
    ensures VersionRows(PeerVersions(agents, now), peer, version) == |LogRows(agents, now, peer, version)|
  {
    if agents == [] {
      assert LogRows(agents, now, peer, version) == {};
    } else {
      var n := |agents| - 1;
      VersionRowsCounted(agents[..n], now, peer, version);
      PeerVersionsLast(agents, now, peer, version);
      LogRowsLast(agents, now, peer, version);
    }
  }

  lemma LogRowsLast(agents: seq<AgentRow>, now: int, peer: string, version: string)
    requires agents != []
    ensures var n := |agents| - 1;
            |LogRows(agents, now, peer, version)|
            == |LogRows(agents[..n], now, peer, version)| + if Logs(agents[n], now, peer, version) then 1 else 0
  {
    var n := |agents| - 1;
    var before := LogRows(agents[..n], now, peer, version);
    assert forall i :: 0 <= i < n ==> agents[..n][i] == agents[i];
    assert LogRows(agents, now, peer, version) == before + (if Logs(agents[n], now, peer, version) then {n} else {});
  }

  /** And the observations are the recent protocol rows of the peer. */
  lemma {:induction false} RecentRowsCounted(protocols: seq<ProtocolRow>, now: int, peer: string)
    ensures RecentRows(protocols, peer, now) == |ObservationRows(protocols, now, peer)|
  {
    if protocols == [] {
      assert ObservationRows(protocols, now, peer) == {};
    } else {
      var n := |protocols| - 1;
      RecentRowsCounted(protocols[..n], now, peer);
      ObservationRowsLast(protocols, now, peer);
    }
  }

  lemma ObservationRowsLast(protocols: seq<ProtocolRow>, now: int, peer: string)
    requires protocols != []
    ensures var n := |protocols| - 1;
            |ObservationRows(protocols, now, peer)|
            == |ObservationRows(protocols[..n], now, peer)|
               + if Recent(protocols[n], now) && protocols[n].peer == peer then 1 else 0
  {
    var n := |protocols| - 1;
    var before := ObservationRows(protocols[..n], now, peer);
    assert forall i :: 0 <= i < n ==> protocols[..n][i] == protocols[i];
    assert ObservationRows(protocols, now, peer)
        == before + (if Recent(protocols[n], now) && protocols[n].peer == peer then {n} else {});
  }

  /** The join on its tables: a group has one row per recent protocol row of the peer
      and recent agent row that puts the peer into the bucket. */
  lemma GroupSizeOnTables(agents: seq<AgentRow>, protocols: seq<ProtocolRow>, now: int, peer: string, version: string)
    ensures |Group(PeerStates(protocols, PeerVersions(agents, now), now), peer, version)|
         == |ObservationRows(protocols, now, peer)| * |LogRows(agents, now, peer, version)|
  {
    JoinMultiplies(protocols, PeerVersions(agents, now), now, peer, version);
    VersionRowsCounted(agents, now, peer, version);
    RecentRowsCounted(protocols, now, peer);
  }

  /** A prefix with one more character. */
  lemma OneMoreChar(prefix: string, c: char, agent: string)
    ensures prefix + [c] <= agent <==> prefix <= agent && |agent| > |prefix| && agent[|prefix|] == c
  {
  }

  lemma BucketPrefixes(agent: string)
    ensures var third := "kubo/0.3" <= agent && |agent| > 8;
            && ("kubo/0.30" <= agent <==> third && agent[8] == '0') && ("kubo/0.31" <= agent <==> third && agent[8] == '1')
            && ("kubo/0.32" <= agent <==> third && agent[8] == '2') && ("kubo/0.33" <= agent <==> third && agent[8] == '3')
            && ("kubo/0.34" <= agent <==> third && agent[8] == '4') && ("kubo/0.35" <= agent <==> third && agent[8] == '5')
            && ("kubo/0.36" <= agent <==> third && agent[8] == '6') && ("kubo/0.37" <= agent <==> third && agent[8] == '7')
            && ("kubo/0.38" <= agent <==> third && agent[8] == '8') && ("kubo/0.39" <= agent <==> third && agent[8] == '9')
  {
    var p := "kubo/0.3";
    assert p + ['0'] == "kubo/0.30" && p + ['1'] == "kubo/0.31" && p + ['2'] == "kubo/0.32" && p + ['3'] == "kubo/0.33";
    assert p + ['4'] == "kubo/0.34" && p + ['5'] == "kubo/0.35" && p + ['6'] == "kubo/0.36" && p + ['7'] == "kubo/0.37";
    assert p + ['8'] == "kubo/0.38" && p + ['9'] == "kubo/0.39";
    OneMoreChar(p, '0', agent);
    OneMoreChar(p, '1', agent);
    OneMoreChar(p, '2', agent);
    OneMoreChar(p, '3', agent);
    OneMoreChar(p, '4', agent);
    OneMoreChar(p, '5', agent);
    OneMoreChar(p, '6', agent);
    OneMoreChar(p, '7', agent);
    OneMoreChar(p, '8', agent);
    OneMoreChar(p, '9', agent);
  }

  lemma MinorDigit(agent: string)
    ensures "kubo/0.1" <= agent <==> "kubo/0." <= agent && |agent| > 7 && agent[7] == '1'
    ensures "kubo/0.2" <= agent <==> "kubo/0." <= agent && |agent| > 7 && agent[7] == '2'
    ensures "kubo/0.3" <= agent <==> "kubo/0." <= agent && |agent| > 7 && agent[7] == '3'
  {
    var p := "kubo/0.";
    assert p + ['1'] == "kubo/0.1" && p + ['2'] == "kubo/0.2" && p + ['3'] == "kubo/0.3";
    OneMoreChar(p, '1', agent);
    OneMoreChar(p, '2', agent);
    OneMoreChar(p, '3', agent);
  }

  /** The bucket of a Kubo agent by the digits of its minor version: one bucket for
      those that start with 1, one for those that start with 2, one each for 30 to
      39, and one for everything else, a minor version of 3 and 4 included. */
  lemma BucketByMinor(agent: string)
    ensures var minor := "kubo/0." <= agent && |agent| > 7;
            && (minor && agent[7] == '1' ==> Bucket(agent) == "0.1x")
            && (minor && agent[7] == '2' ==> Bucket(agent) == "0.2x")
            && (minor && agent[7] == '3' && |agent| > 8 && IsDigit(agent[8]) ==> Bucket(agent) == "0.3" + [agent[8]])
            && (!minor || agent[7] !in "123" || (agent[7] == '3' && (|agent| == 8 || !IsDigit(agent[8]))) ==>
                  Bucket(agent) == "0.4x")
  {
    MinorDigit(agent);
    BucketPrefixes(agent);
  }
}
