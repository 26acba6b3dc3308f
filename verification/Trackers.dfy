/** The reachability trackers of the JS and Rust clients. */
module Trackers {
  import opened Text

  /** The payload of a reachable_addrs_changed span. */
  datatype Emission = Emission(elapsedMs: int, reachable: seq<string>, unreachable: seq<string>)

  function Elements(xs: seq<string>): set<string> { set x | x in xs }

  // ------------------------------------------------------ external addresses

  function SkipDigits(s: string, i: nat): (j: nat)
    requires i <= |s|
    ensures i <= j <= |s|
    decreases |s| - i
  {
    if i < |s| && IsDigit(s[i]) then SkipDigits(s, i + 1) else i
  }

  /** The end of `parts` runs of digits, separated by dots and closed by a slash. */
  function QuadEnd(s: string, i: nat, parts: nat): (end: Option<nat>)
    requires i <= |s|
    ensures end.Some? ==> i <= end.value < |s|
    decreases parts
  {
    var j := SkipDigits(s, i);
    if parts == 0 || j == i || j == |s| then None
    else if parts == 1 then if s[j] == '/' then Some(j) else None
    else if s[j] == '.' then QuadEnd(s, j + 1, parts - 1)
    else None
  }

  /** The first dotted quad that follows an /ip4/ and is closed by a slash. */
  function Ip4Of(addr: string, i: nat): Option<string>
    decreases |addr| - i
  {
    if |addr| < i + 5 then None
    else if OccursAt(addr, "/ip4/", i) && QuadEnd(addr, i + 5, 4).Some? then
      Some(addr[i + 5..QuadEnd(addr, i + 5, 4).value])
    else Ip4Of(addr, i + 1)
  }

  predicate IsExternalAddr(addr: string) {
    match Ip4Of(addr, 0)
    case None => false
    case Some(ip) =>
      !("127." <= ip) && !("10." <= ip) && !("192.168." <= ip) && !("169.254." <= ip) && !("0." <= ip)
  }

  function External(addrs: seq<string>): set<string> {
    set a | a in addrs && IsExternalAddr(a)
  }

  predicate OnlyExternal(addrs: set<string>) { forall a :: a in addrs ==> IsExternalAddr(a) }

  // ---------------------------------------------------- the simple view of JS

  /** One peer update: the external addresses at that moment. */
  datatype Update = Update(external: set<string>, elapsedMs: int)

  function Current(updates: seq<Update>): set<string> {
    if updates == [] then {} else updates[|updates| - 1].external
  }

  function Ever(updates: seq<Update>): set<string> {
    set i, a | 0 <= i < |updates| && a in updates[i].external :: a
  }

  /** What is reported at a moment when the external set changes. */
  datatype Report = Report(elapsedMs: int, reachable: set<string>, unreachable: set<string>)

  function Reports(updates: seq<Update>): seq<Report> {
    if updates == [] then []
    else
      var before, last := updates[..|updates| - 1], updates[|updates| - 1];
      Reports(before)
      + (if last.external == Current(before) then []
         else [Report(last.elapsedMs, last.external, Ever(updates) - last.external)])
  }

  predicate Represents(emitted: seq<Emission>, reports: seq<Report>) {
    && |emitted| == |reports|
    && forall i :: 0 <= i < |emitted| ==>
         && emitted[i].elapsedMs == reports[i].elapsedMs
         && Elements(emitted[i].reachable) == reports[i].reachable
         && Elements(emitted[i].unreachable) == reports[i].unreachable
  }

  // --------------------------------------------------------------- JS tracker

  /** A JavaScript Set keeps its members in insertion order. */
  predicate IsSet(xs: seq<string>) {
    forall i, j :: 0 <= i < j < |xs| ==> xs[i] != xs[j]
  }

  function Add(xs: seq<string>, x: string): seq<string> {
    if x in xs then xs else xs + [x]
  }

  function Remove(xs: seq<string>, x: string): seq<string> {
    if xs == [] then [] else (if xs[0] == x then [] else [xs[0]]) + Remove(xs[1..], x)
  }

  lemma AddElements(xs: seq<string>, x: string)
    ensures Elements(Add(xs, x)) == Elements(xs) + {x} && (IsSet(xs) ==> IsSet(Add(xs, x)))
  {
  }

  lemma {:induction false} RemoveElements(xs: seq<string>, x: string)
    ensures Elements(Remove(xs, x)) == Elements(xs) - {x} && (IsSet(xs) ==> IsSet(Remove(xs, x)))
    ensures |Remove(xs, x)| <= |xs|
  {
    if xs != [] {
      RemoveElements(xs[1..], x);
      var rest := Remove(xs[1..], x);
      assert xs == [xs[0]] + xs[1..];
      assert Elements(xs) == {xs[0]} + Elements(xs[1..]);
      var head := if xs[0] == x then [] else [xs[0]];
      assert Elements(head + rest) == Elements(head) + Elements(rest);
      if IsSet(xs) {
        assert xs[0] !in Elements(xs[1..]);
        forall k | 0 <= k < |rest| ensures rest[k] != xs[0] {
          assert rest[k] in Elements(rest);
        }
      }
    }
  }

  /** `new Set(xs.filter(p))` on a sequence. */
  function ExternalSet(addrs: seq<string>): seq<string> {
    if addrs == [] then []
    else
      var before := ExternalSet(addrs[..|addrs| - 1]);
      var last := addrs[|addrs| - 1];
      if IsExternalAddr(last) then Add(before, last) else before
  }

  lemma {:induction false} ExternalSetIs(addrs: seq<string>)
    ensures Elements(ExternalSet(addrs)) == External(addrs) && IsSet(ExternalSet(addrs))
  {
    if addrs != [] {
      var n := |addrs| - 1;
      ExternalSetIs(addrs[..n]);
      AddElements(ExternalSet(addrs[..n]), addrs[n]);
      assert addrs == addrs[..n] + [addrs[n]];
    }
  }

  /** The members of `xs` that are not in `ys`, in order. */
  function Without(xs: seq<string>, ys: seq<string>): seq<string> {
    if xs == [] then [] else Without(xs[..|xs| - 1], ys) + (if xs[|xs| - 1] in ys then [] else [xs[|xs| - 1]])
  }

  lemma {:induction false} WithoutElements(xs: seq<string>, ys: seq<string>)
    ensures Elements(Without(xs, ys)) == Elements(xs) - Elements(ys)
  {
    if xs != [] {
      var n := |xs| - 1;
      WithoutElements(xs[..n], ys);
      assert xs == xs[..n] + [xs[n]];
      var last := if xs[n] in ys then [] else [xs[n]];
      assert Elements(Without(xs[..n], ys) + last) == Elements(Without(xs[..n], ys)) + Elements(last);
    }
  }

  lemma EverOneMore(updates: seq<Update>, u: Update)
    ensures Ever(updates + [u]) == Ever(updates) + u.external
  {
    var more := updates + [u];
    assert more[|updates|] == u;
    assert forall i :: 0 <= i < |updates| ==> more[i] == updates[i];
  }

  lemma ReportsOneMore(updates: seq<Update>, u: Update)
    ensures Reports(updates + [u])
         == Reports(updates) + (if u.external == Current(updates) then []
                                else [Report(u.elapsedMs, u.external, Ever(updates) + u.external - u.external)])
  {
    assert (updates + [u])[..|updates|] == updates;
    EverOneMore(updates, u);
  }

  lemma {:induction false} CurrentIsEver(updates: seq<Update>)
    ensures Current(updates) <= Ever(updates)
  {
  }

  /** Reachable are the current external addresses, unreachable all others ever external. */
  predicate Tracks(reachable: seq<string>, unreachable: seq<string>, previous: seq<string>, updates: seq<Update>) {
    && Elements(reachable) == Elements(previous) == Current(updates)
    && Elements(unreachable) == Ever(updates) - Current(updates)
  }

  /** Nothing is added and nothing removed exactly when the set is the same. */
  lemma Unchanged(now: seq<string>, previous: seq<string>)
    ensures Without(now, previous) == [] && Without(previous, now) == [] <==> Elements(now) == Elements(previous)
  {
    WithoutElements(now, previous);
    WithoutElements(previous, now);
    EmptyElements(Without(now, previous));
    EmptyElements(Without(previous, now));
  }

  lemma EmptyElements(xs: seq<string>)
    ensures Elements(xs) == {} <==> xs == []
  {
    if xs != [] {
      assert xs[0] in Elements(xs);
    }
  }

  lemma StillTracks(
    reachable: seq<string>, unreachable: seq<string>, previous: seq<string>,
    emitted: seq<Emission>, updates: seq<Update>, u: Update)
    requires Tracks(reachable, unreachable, previous, updates) && Represents(emitted, Reports(updates))
    requires u.external == Current(updates)
    ensures Tracks(reachable, unreachable, previous, updates + [u])
    ensures Represents(emitted, Reports(updates + [u]))
  {
    EverOneMore(updates, u);
    CurrentIsEver(updates);
    ReportsOneMore(updates, u);
  }

  /** The two loops together move the tracker to the new external set. */
  lemma MovesTrack(
    reachable: seq<string>, unreachable: seq<string>, previous: seq<string>,
    reachable': seq<string>, unreachable': seq<string>, external: seq<string>, updates: seq<Update>, u: Update)
    requires Tracks(reachable, unreachable, previous, updates) && u.external == Elements(external)
    requires var added, removed := Elements(Without(external, previous)), Elements(Without(previous, external));
             && Elements(reachable') == Elements(reachable) + added - removed
             && Elements(unreachable') == Elements(unreachable) - added + removed
    ensures Tracks(reachable', unreachable', external, updates + [u])
  {
    WithoutElements(external, previous);
    WithoutElements(previous, external);
    EverOneMore(updates, u);
    CurrentIsEver(updates);
  }

  lemma ReportMore(
    emitted: seq<Emission>, updates: seq<Update>, u: Update, reachable: seq<string>, unreachable: seq<string>)
    requires Represents(emitted, Reports(updates)) && u.external != Current(updates)
    requires Elements(reachable) == u.external && Elements(unreachable) == Ever(updates + [u]) - u.external
    ensures Represents(emitted + [Emission(u.elapsedMs, reachable, unreachable)], Reports(updates + [u]))
  {
    ReportsOneMore(updates, u);
    EverOneMore(updates, u);
  }

  class PeerTracker {
    var reachableAddrs: seq<string>
    var unreachableAddrs: seq<string>
    var previousExternalAddrs: seq<string>
    var emitted: seq<Emission>
    ghost var updates: seq<Update>

    /** After any updates: the reachable addresses are the current external ones,
        the unreachable ones all others ever external, and one span was emitted
        per change of the external set. */
    ghost predicate Valid()
      reads this
    {
      && IsSet(reachableAddrs) && IsSet(unreachableAddrs) && IsSet(previousExternalAddrs)
      && Tracks(reachableAddrs, unreachableAddrs, previousExternalAddrs, updates)
      && (forall i :: 0 <= i < |updates| ==> OnlyExternal(updates[i].external))
      && Represents(emitted, Reports(updates))
    }

    constructor ()
      ensures Valid() && updates == [] && emitted == []
    {
      reachableAddrs, unreachableAddrs, previousExternalAddrs, emitted := [], [], [], [];
      updates := [];
    }

    method OnPeerUpdate(allAddrs: seq<string>, elapsedMs: int)
      requires Valid()
      modifies this
      ensures Valid()
      ensures updates == old(updates) + [Update(External(allAddrs), elapsedMs)]
      ensures emitted == old(emitted) <==> External(allAddrs) == Current(old(updates))
      ensures emitted != old(emitted) ==>
                emitted == old(emitted) + [Emission(elapsedMs, reachableAddrs, unreachableAddrs)]
    {
      var externalAddrs := ExternalSet(allAddrs);
      var added := Without(externalAddrs, previousExternalAddrs);
      var removed := Without(previousExternalAddrs, externalAddrs);
      ExternalSetIs(allAddrs);
      Unchanged(externalAddrs, previousExternalAddrs);
      ghost var was, u := updates, Update(External(allAddrs), elapsedMs);
      updates := updates + [u];
      if |added| == 0 && |removed| == 0 {
        StillTracks(reachableAddrs, unreachableAddrs, previousExternalAddrs, emitted, was, u);
        return;
      }
      ghost var r0, d0 := reachableAddrs, unreachableAddrs;
      var r, d := Moved(reachableAddrs, unreachableAddrs, added);
      unreachableAddrs, reachableAddrs := Moved(d, r, removed);
      MovesTrack(r0, d0, previousExternalAddrs, reachableAddrs, unreachableAddrs, externalAddrs, was, u);
      ReportMore(emitted, was, u, reachableAddrs, unreachableAddrs);
      previousExternalAddrs := externalAddrs;
      emitted := emitted + [Emission(elapsedMs, reachableAddrs, unreachableAddrs)];
    }

    /** One of the two loops: each address is added to one set and deleted from the other. */
    static method Moved(into: seq<string>, from: seq<string>, addrs: seq<string>)
      returns (into': seq<string>, from': seq<string>)
      requires IsSet(into) && IsSet(from)
      ensures IsSet(into') && IsSet(from')
      ensures Elements(into') == Elements(into) + Elements(addrs)
      ensures Elements(from') == Elements(from) - Elements(addrs)
    {
      into', from' := into, from;
      for i := 0 to |addrs|
        invariant IsSet(into') && IsSet(from')
        invariant Elements(into') == Elements(into) + Elements(addrs[..i])
        invariant Elements(from') == Elements(from) - Elements(addrs[..i])
      {
        AddElements(into', addrs[i]);
        RemoveElements(from', addrs[i]);
        into' := Add(into', addrs[i]);
        from' := Remove(from', addrs[i]);
        assert addrs[..i + 1] == addrs[..i] + [addrs[i]];
        assert Elements(addrs[..i + 1]) == Elements(addrs[..i]) + {addrs[i]};
      }
      assert addrs[..|addrs|] == addrs;
    }
  }

  // ----------------------------------------------------- whole runs of the view

  lemma {:induction false} LastReportIsCurrent(updates: seq<Update>)
    ensures Reports(updates) != [] ==> Reports(updates)[|Reports(updates)| - 1].reachable == Current(updates)
    ensures Reports(updates) == [] ==> Current(updates) == {}
    ensures Reports(updates) != [] ==> Reports(updates)[0].reachable != {}
  {
    if updates != [] {
      LastReportIsCurrent(updates[..|updates| - 1]);
    }
  }

  /** Over every run: each report splits the addresses ever external in two, the
      first one is not empty, and consecutive ones always differ. */
  lemma {:induction false} ReportsAlternate(updates: seq<Update>)
    ensures forall i :: 0 <= i < |Reports(updates)| ==>
              && Reports(updates)[i].reachable !! Reports(updates)[i].unreachable
              && Reports(updates)[i].reachable + Reports(updates)[i].unreachable <= Ever(updates)
    ensures forall i :: 0 <= i < |Reports(updates)| - 1 ==>
              Reports(updates)[i].reachable != Reports(updates)[i + 1].reachable
    ensures Reports(updates) != [] ==> Reports(updates)[0].reachable != {}
  {
    LastReportIsCurrent(updates);
    if updates != [] {
      var n := |updates| - 1;
      ReportsAlternate(updates[..n]);
      LastReportIsCurrent(updates[..n]);
      assert updates == updates[..n] + [updates[n]];
      EverOneMore(updates[..n], updates[n]);
    }
  }

  /** The external set becomes empty after being non-empty. */
  predicate Loss(updates: seq<Update>, i: int) {
    0 < i < |updates| && updates[i].external == {} && updates[i - 1].external != {}
  }

  lemma {:induction false} EmptyAgainIsLoss(updates: seq<Update>)
    requires Reports(updates) != [] && Current(updates) == {}
    ensures exists i :: Loss(updates, i)
  {
    var n := |updates| - 1;
    var before := updates[..n];
    if Current(before) == {} {
      EmptyAgainIsLoss(before);
      var i :| Loss(before, i);
      assert Loss(updates, i);
    } else {
      assert Loss(updates, n);
    }
  }

  // ------------------------------------------------------------- Rust tracker

  /** The outcome of one probe of one address. */
  datatype ProbeResult = ProbeResult(addr: string, ok: bool)

  function LastResult(results: seq<ProbeResult>, addr: string): Option<bool> {
    if results == [] then None
    else if results[|results| - 1].addr == addr then Some(results[|results| - 1].ok)
    else LastResult(results[..|results| - 1], addr)
  }

  function Tested(results: seq<ProbeResult>): set<string> {
    set r | r in results :: r.addr
  }

  /** The addresses whose most recent probe ended with `ok`. */
  function Latest(results: seq<ProbeResult>, ok: bool): set<string> {
    set a | a in Tested(results) && LastResult(results, a) == Some(ok)
  }

  lemma {:induction false} TestedHasResult(results: seq<ProbeResult>, addr: string)
    ensures addr in Tested(results) <==> LastResult(results, addr).Some?
  {
    if results != [] {
      var n := |results| - 1;
      TestedHasResult(results[..n], addr);
      assert results == results[..n] + [results[n]];
      assert results[n] in results;
      if addr in Tested(results[..n]) {
        var r :| r in results[..n] && r.addr == addr;
        assert r in results;
      }
    }
  }

  lemma LatestIs(results: seq<ProbeResult>, ok: bool, addr: string)
    ensures addr in Latest(results, ok) <==> LastResult(results, addr) == Some(ok)
  {
    TestedHasResult(results, addr);
  }

  lemma LatestOneMore(results: seq<ProbeResult>, r: ProbeResult)
    ensures Latest(results + [r], r.ok) == Latest(results, r.ok) + {r.addr}
    ensures Latest(results + [r], !r.ok) == Latest(results, !r.ok) - {r.addr}
  {
    var more := results + [r];
    assert more[..|results|] == results;
    forall a
      ensures a in Latest(more, r.ok) <==> a in Latest(results, r.ok) || a == r.addr
      ensures a in Latest(more, !r.ok) <==> a in Latest(results, !r.ok) && a != r.addr
    {
      LatestIs(more, r.ok, a);
      LatestIs(more, !r.ok, a);
      LatestIs(results, r.ok, a);
      LatestIs(results, !r.ok, a);
    }
  }

  /** The last result of each address decides, so the two sets partition the
      addresses ever tested. */
  lemma LatestPartition(results: seq<ProbeResult>)
    ensures Latest(results, true) + Latest(results, false) == Tested(results)
    ensures Latest(results, true) !! Latest(results, false)
  {
    forall a | a in Tested(results) ensures a in Latest(results, true) || a in Latest(results, false) {
      TestedHasResult(results, a);
      LatestIs(results, LastResult(results, a).value, a);
    }
  }

  /** `iter().cloned().collect()`: the members of a HashSet in some order. */
  method Collect(s: set<string>) returns (xs: seq<string>)
    ensures Elements(xs) == s && |xs| == |s|
  {
    xs := [];
    var rest := s;
    while rest != {}
      invariant rest <= s && Elements(xs) == s - rest && |xs| + |rest| == |s|
      decreases rest
    {
      var x :| x in rest;
      assert Elements(xs + [x]) == Elements(xs) + {x};
      xs := xs + [x];
      rest := rest - {x};
    }
  }

  predicate Announces(e: Emission, results: seq<ProbeResult>) {
    Elements(e.reachable) == Latest(results, true) && Elements(e.unreachable) == Latest(results, false)
  }

  /** One emission per result, each saying where things stand after it. */
  predicate AnnouncedAll(emitted: seq<Emission>, results: seq<ProbeResult>) {
    |emitted| == |results| && forall i :: 0 <= i < |emitted| ==> Announces(emitted[i], results[..i + 1])
  }

  lemma AnnounceOneMore(emitted: seq<Emission>, results: seq<ProbeResult>, e: Emission, r: ProbeResult)
    requires AnnouncedAll(emitted, results) && Announces(e, results + [r])
    ensures AnnouncedAll(emitted + [e], results + [r])
  {
    var n := |results|;
    forall i | 0 <= i <= n ensures Announces((emitted + [e])[i], (results + [r])[..i + 1]) {
      if i < n {
        assert (results + [r])[..i + 1] == results[..i + 1];
      } else {
        assert (results + [r])[..i + 1] == results + [r];
      }
    }
  }

  class ProbeTracker {
    var reachableAddrs: set<string>
    var unreachableAddrs: set<string>
    var emitted: seq<Emission>
    ghost var results: seq<ProbeResult>

    /** Last result wins, and every probe emitted one span saying so. */
    ghost predicate Valid()
      reads this
    {
      && reachableAddrs == Latest(results, true)
      && unreachableAddrs == Latest(results, false)
      && AnnouncedAll(emitted, results)
    }

    constructor ()
      ensures Valid() && results == []
    {
      reachableAddrs, unreachableAddrs, emitted := {}, {}, [];
      results := [];
    }

    method HandleAutonatEvent(addr: string, ok: bool, elapsedMs: int)
      requires Valid()
      modifies this
      ensures Valid()
      ensures results == old(results) + [ProbeResult(addr, ok)]
      ensures |emitted| == |old(emitted)| + 1 && emitted[..|old(emitted)|] == old(emitted)
      ensures emitted[|old(emitted)|].elapsedMs == elapsedMs
    {
      ghost var was := results;
      LatestOneMore(was, ProbeResult(addr, ok));
      if ok {
        reachableAddrs := reachableAddrs + {addr};
        unreachableAddrs := unreachableAddrs - {addr};
      } else {
        unreachableAddrs := unreachableAddrs + {addr};
        reachableAddrs := reachableAddrs - {addr};
      }
      var reachableVec := Collect(reachableAddrs);
      var unreachableVec := Collect(unreachableAddrs);
      AnnounceOneMore(emitted, was, Emission(elapsedMs, reachableVec, unreachableVec), ProbeResult(addr, ok));
      emitted := emitted + [Emission(elapsedMs, reachableVec, unreachableVec)];
      results := results + [ProbeResult(addr, ok)];
    }
  }
}
