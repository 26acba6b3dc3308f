/** Mid-test toggles: poll the span store for a reachability change, with a timeout. */
module Toggles {
  import opened Text

  const V1 := "reachability_changed"
  const V2 := "reachable_addrs_changed"

  /** How many spans of a store are called `name`. */
  function Count(store: seq<string>, name: string): nat {
    if store == [] then 0
    else Count(store[..|store| - 1], name) + (if store[|store| - 1] == name then 1 else 0)
  }

  method CountLoop(store: seq<string>, name: string) returns (count: nat)
    ensures count == Count(store, name)
  {
    count := 0;
    for i := 0 to |store|
      invariant count == Count(store[..i], name)
    {
      assert store[..i + 1][..i] == store[..i];
      if store[i] == name {
        count := count + 1;
      }
    }
    assert store[..|store|] == store;
  }

  /** A span called `name` entered the store between two moments. */
  ghost predicate Fresh(before: seq<string>, after: seq<string>, name: string) {
    exists j :: |before| <= j < |after| && after[j] == name
  }

  lemma {:induction false} MoreMeansFresh(before: seq<string>, after: seq<string>, name: string)
    requires before <= after
    ensures Count(after, name) >= Count(before, name)
    ensures Count(after, name) > Count(before, name) <==> Fresh(before, after, name)
    decreases |after|
  {
    if |after| == |before| {
      assert after == before;
    } else {
      var n := |after| - 1;
      MoreMeansFresh(before, after[..n], name);
      if after[n] == name {
        assert Fresh(before, after, name);
      }
      if Fresh(before, after[..n], name) {
        var j :| |before| <= j < n && after[..n][j] == name;
        assert after[j] == name;
      }
    }
  }

  lemma {:induction false} CountedIsThere(store: seq<string>, name: string)
    ensures Count(store, name) > 0 <==> name in store
  {
    if store != [] {
      var n := |store| - 1;
      CountedIsThere(store[..n], name);
      assert store == store[..n] + [store[n]];
    }
  }

  lemma PresentOrFresh(before: seq<string>, after: seq<string>, name: string)
    requires before <= after
    ensures name in after ==> name in before || Fresh(before, after, name)
  {
    if j :| 0 <= j < |after| && after[j] == name {
      if j < |before| {
        assert before[j] == name;
      }
    }
  }

  datatype Toggle = Toggle(action: string, waitFor: string, sleepS: nat, timeoutS: int)

  datatype ToggleResult = ToggleResult(phase: nat, action: string, detected: bool, timeToDetectS: int)

  // ------------------------------------------------------------- what happened

  /** One count query: the store and the clock when it was answered, or failed. */
  datatype Query = Query(store: seq<string>, answered: bool, at: nat)

  /** The count a query returns: a failed one counts 0. */
  function Seen(q: Query, name: string): nat { if q.answered then Count(q.store, name) else 0 }

  /** The two queries of one poll after a toggle. */
  datatype Poll = Poll(v1: Query, v2: Query)

  datatype Step = Queried(name: string, query: Query) | Slept(seconds: nat) | Toggled(action: string, at: nat)

  function SingleSteps(polls: seq<Query>, name: string): seq<Step> {
    seq(|polls|, i requires 0 <= i < |polls| => Queried(name, polls[i]))
  }

  function PairSteps(polls: seq<Poll>): seq<Step> {
    if polls == [] then []
    else
      var last := polls[|polls| - 1];
      PairSteps(polls[..|polls| - 1]) + [Queried(V1, last.v1), Queried(V2, last.v2)]
  }

  /** Around one toggle: the query and the polls of the wait for convergence, if it
      waited for that, the counts taken before acting, the polls after it, and the
      store when they ended. The clock when it was this toggle's turn, when it acted
      and began to poll, when it last looked at the time, and when it was done. */
  datatype Evidence = Evidence(
    first: Option<Query>, waiting: seq<Query>, v1: Query, v2: Query, polls: seq<Poll>, after: seq<string>,
    arrived: nat, began: nat, looked: nat, ended: nat
  )

  /** The most count polls a wait of `timeoutS` seconds can make. */
  function MaxPolls(timeoutS: int): nat {
    if timeoutS <= 0 then 0 else (timeoutS + 2) / 3
  }

  predicate Rises(prevV1: nat, prevV2: nat, poll: Poll) {
    Seen(poll.v1, V1) > prevV1 || Seen(poll.v2, V2) > prevV2
  }

  /** A wait for one span name: it ends with the first poll that sees more than
      before, which is what detection means, or with the timeout. */
  predicate Watched(polls: seq<Query>, name: string, prevCount: nat, timeoutS: int, detected: bool) {
    && (forall k :: 0 <= k < |polls| - 1 ==> Seen(polls[k], name) <= prevCount)
    && (detected <==> polls != [] && Seen(polls[|polls| - 1], name) > prevCount)
    && (timeoutS > 0 ==> polls != [])
    && |polls| <= MaxPolls(timeoutS)
  }

  /** The same for either kind of change. */
  predicate WatchedBoth(polls: seq<Poll>, prevV1: nat, prevV2: nat, timeoutS: int, detected: bool) {
    && (polls != [] ==> NoneRises(prevV1, prevV2, polls[..|polls| - 1]))
    && (detected <==> polls != [] && Rises(prevV1, prevV2, polls[|polls| - 1]))
    && (timeoutS > 0 ==> polls != [])
    && |polls| <= MaxPolls(timeoutS)
  }

  predicate NoneRises(prevV1: nat, prevV2: nat, polls: seq<Poll>) {
    forall k :: 0 <= k < |polls| ==> !Rises(prevV1, prevV2, polls[k])
  }

  lemma OnePollMore(polls: seq<Poll>, p: Poll)
    ensures (polls + [p])[..|polls|] == polls && (polls + [p])[|polls|] == p
    ensures PairSteps(polls + [p]) == PairSteps(polls) + [Queried(V1, p.v1), Queried(V2, p.v2)]
  {
    assert (polls + [p])[..|polls|] == polls;
  }

  lemma NoneRisesYet(prevV1: nat, prevV2: nat, polls: seq<Poll>, p: Poll)
    requires NoneRises(prevV1, prevV2, polls) && !Rises(prevV1, prevV2, p)
    ensures NoneRises(prevV1, prevV2, polls + [p])
  {
  }

  /** The clock in a wait for one name: polls are three seconds apart, and it gives
      up three seconds after the last one. */
  predicate Paced(began: nat, polls: seq<Query>, looked: nat, detected: bool) {
    && began <= looked
    && (polls != [] ==> began <= polls[0].at)
    && (forall k :: 0 <= k < |polls| - 1 ==> polls[k].at + 3000 <= polls[k + 1].at)
    && (polls != [] ==> polls[|polls| - 1].at + (if detected then 0 else 3000) <= looked)
  }

  /** The same for a wait that looks at the time before it polls. */
  predicate PairsPaced(began: nat, polls: seq<Poll>) {
    && (polls != [] ==> began <= polls[0].v1.at)
    && (forall k :: 0 <= k < |polls| ==> polls[k].v1.at <= polls[k].v2.at)
    && (forall k :: 0 <= k < |polls| - 1 ==> polls[k].v2.at + 3000 <= polls[k + 1].v1.at)
  }

  /** `looked` comes before the poll that detects, and after every other one. */
  predicate LookedAt(began: nat, polls: seq<Poll>, looked: nat, detected: bool) {
    && began <= looked
    && (detected && polls != [] ==> looked <= polls[|polls| - 1].v1.at)
    && (detected && |polls| > 1 ==> polls[|polls| - 2].v2.at + 3000 <= looked)
    && (!detected && polls != [] ==> polls[|polls| - 1].v2.at + 3000 <= looked)
  }

  predicate PolledBetween(from: seq<string>, polls: seq<Query>, to: seq<string>) {
    forall k :: 0 <= k < |polls| ==> from <= polls[k].store <= to
  }

  predicate PairsBetween(from: seq<string>, polls: seq<Poll>, to: seq<string>) {
    forall k :: 0 <= k < |polls| ==> from <= polls[k].v1.store <= polls[k].v2.store <= to
  }

  lemma StillBetween(from: seq<string>, polls: seq<Poll>, to: seq<string>, later: seq<string>)
    requires PairsBetween(from, polls, to) && to <= later
    ensures PairsBetween(from, polls, later)
  {
  }

  /** A wait in progress: no poll has seen more than before. */
  predicate Polling(
    from: seq<string>, began: nat, prevV1: nat, prevV2: nat, polls: seq<Poll>, store: seq<string>, now: nat)
  {
    && from <= store
    && NoneRises(prevV1, prevV2, polls)
    && PairsBetween(from, polls, store)
    && PairsPaced(began, polls) && LookedAt(began, polls, now, false)
  }

  /** One more poll, in order after those made. */
  predicate Follows(p: Poll, store: seq<string>, now: nat) {
    store <= p.v1.store <= p.v2.store && now <= p.v1.at <= p.v2.at
  }

  lemma PollFollows(
    from: seq<string>, began: nat, prevV1: nat, prevV2: nat, polls: seq<Poll>, store: seq<string>, now: nat, p: Poll)
    requires Polling(from, began, prevV1, prevV2, polls, store, now) && Follows(p, store, now)
    ensures PairsBetween(from, polls + [p], p.v2.store)
    ensures PairsPaced(began, polls + [p]) && LookedAt(began, polls + [p], now, true)
  {
    StillBetween(from, polls, store, p.v2.store);
    var more := polls + [p];
    assert forall k :: 0 <= k < |polls| ==> more[k] == polls[k];
    assert more[|polls|] == p;
  }

  lemma GivesUp(
    from: seq<string>, began: nat, prevV1: nat, prevV2: nat, polls: seq<Poll>, store: seq<string>, now: nat, timeoutS: int)
    requires Polling(from, began, prevV1, prevV2, polls, store, now)
    requires |polls| <= MaxPolls(timeoutS) && (timeoutS > 0 ==> polls != [])
    ensures WatchedBoth(polls, prevV1, prevV2, timeoutS, false)
  {
    if polls != [] {
      assert !Rises(prevV1, prevV2, polls[|polls| - 1]);
    }
  }

  lemma Finds(prevV1: nat, prevV2: nat, polls: seq<Poll>, p: Poll, timeoutS: int)
    requires NoneRises(prevV1, prevV2, polls) && Rises(prevV1, prevV2, p) && |polls| < MaxPolls(timeoutS)
    ensures WatchedBoth(polls + [p], prevV1, prevV2, timeoutS, true)
  {
    assert (polls + [p])[..|polls|] == polls;
  }

  lemma StillPolling(
    from: seq<string>, began: nat, prevV1: nat, prevV2: nat, polls: seq<Poll>, store: seq<string>, now: nat,
    p: Poll, store': seq<string>, now': nat)
    requires Polling(from, began, prevV1, prevV2, polls, store, now) && Follows(p, store, now)
    requires !Rises(prevV1, prevV2, p) && p.v2.store <= store' && p.v2.at + 3000 <= now'
    ensures Polling(from, began, prevV1, prevV2, polls + [p], store', now')
  {
    PollFollows(from, began, prevV1, prevV2, polls, store, now, p);
    StillBetween(from, polls + [p], p.v2.store, store');
    NoneRisesYet(prevV1, prevV2, polls, p);
  }

  /** A wait for one name in progress. */
  predicate Waiting(
    from: seq<string>, began: nat, name: string, prevCount: nat, polls: seq<Query>, store: seq<string>, now: nat)
  {
    && from <= store
    && (forall k :: 0 <= k < |polls| ==> Seen(polls[k], name) <= prevCount)
    && PolledBetween(from, polls, store)
    && Paced(began, polls, now, false)
  }

  lemma QueryFollows(
    from: seq<string>, began: nat, name: string, prevCount: nat, polls: seq<Query>, store: seq<string>, now: nat, q: Query)
    requires Waiting(from, began, name, prevCount, polls, store, now) && store <= q.store && now <= q.at
    ensures from <= q.store && PolledBetween(from, polls + [q], q.store)
    ensures Paced(began, polls + [q], q.at, true)
    ensures SingleSteps(polls + [q], name) == SingleSteps(polls, name) + [Queried(name, q)]
  {
    StillPolled(from, polls, store, q.store);
    var more := polls + [q];
    assert forall k :: 0 <= k < |polls| ==> more[k] == polls[k];
    assert more[|polls|] == q;
  }

  lemma StillWaiting(
    from: seq<string>, began: nat, name: string, prevCount: nat, polls: seq<Query>, store: seq<string>, now: nat,
    q: Query, store': seq<string>, now': nat)
    requires Waiting(from, began, name, prevCount, polls, store, now) && store <= q.store <= store'
    requires now <= q.at && q.at + 3000 <= now' && Seen(q, name) <= prevCount
    ensures Waiting(from, began, name, prevCount, polls + [q], store', now')
  {
    QueryFollows(from, began, name, prevCount, polls, store, now, q);
    StillPolled(from, polls + [q], q.store, store');
  }

  lemma StillPolled(from: seq<string>, polls: seq<Query>, to: seq<string>, later: seq<string>)
    requires PolledBetween(from, polls, to) && to <= later
    ensures PolledBetween(from, polls, later)
  {
  }

  /** The store of spans, to which the traced nodes append, and the clock. */
  class Testbed {
    var clockMs: nat
    var store: seq<string>
    ghost var log: seq<Step>

    constructor ()
      ensures clockMs == 0 && store == [] && log == []
    {
      clockMs, store, log := 0, [], [];
    }

    /** At least `ms` milliseconds go by, and spans may arrive. */
    method Pass(ms: nat)
      modifies this
      ensures clockMs >= old(clockMs) + ms && old(store) <= store && log == old(log)
    {
      var late :| 0 <= late;
      var arrived: seq<string> := *;
      clockMs := clockMs + ms + late;
      store := store + arrived;
    }

    method Sleep(seconds: nat)
      modifies this
      ensures clockMs >= old(clockMs) + 1000 * seconds && old(store) <= store
      ensures log == old(log) + [Slept(seconds)]
    {
      Pass(1000 * seconds);
      log := log + [Slept(seconds)];
    }

    method ExecToggle(action: string)
      modifies this
      ensures clockMs >= old(clockMs) && old(store) <= store
      ensures log == old(log) + [Toggled(action, clockMs)]
    {
      Pass(0);
      log := log + [Toggled(action, clockMs)];
    }

    /** A count query: the current count, or 0 when the query fails. */
    method CountSpans(name: string) returns (count: nat, ghost query: Query)
      modifies this
      ensures clockMs >= old(clockMs) && old(store) <= store
      ensures query.store == store && query.at == clockMs && count == Seen(query, name)
      ensures log == old(log) + [Queried(name, query)]
    {
      Pass(0);
      var failed: bool := *;
      query := Query(store, !failed, clockMs);
      log := log + [Queried(name, query)];
      if failed {
        count := 0;
      } else {
        count := CountLoop(store, name);
      }
    }

    method WaitForNewSpan(name: string, prevCount: nat, timeoutS: int)
      returns (detected: bool, elapsed: int, ghost polls: seq<Query>, ghost looked: nat)
      modifies this
      ensures old(clockMs) <= looked <= clockMs && old(store) <= store
      ensures log == old(log) + SingleSteps(polls, name)
      ensures PolledBetween(old(store), polls, store)
      ensures Watched(polls, name, prevCount, timeoutS, detected)
      ensures Paced(old(clockMs), polls, looked, detected)
      ensures elapsed == (looked - old(clockMs)) / 1000
      ensures !detected ==> elapsed >= timeoutS
    {
      var start := clockMs;
      polls := [];
      while true
        invariant clockMs >= start + 3000 * |polls|
        invariant polls == [] ==> clockMs == start
        invariant log == old(log) + SingleSteps(polls, name)
        invariant Waiting(old(store), start, name, prevCount, polls, store, clockMs)
        invariant |polls| <= MaxPolls(timeoutS)
        decreases if clockMs - start < timeoutS * 1000 then timeoutS * 1000 - (clockMs - start) else 0
      {
        elapsed := (clockMs - start) / 1000;
        if elapsed >= timeoutS {
          return false, elapsed, polls, clockMs;
        }
        ghost var before, now, quiet := store, clockMs, polls;
        var current, query := CountSpans(name);
        QueryFollows(old(store), start, name, prevCount, quiet, before, now, query);
        polls := polls + [query];
        if current > prevCount {
          elapsed := (clockMs - start) / 1000;
          return true, elapsed, polls, clockMs;
        }
        Pass(3000);
        StillWaiting(old(store), start, name, prevCount, quiet, before, now, query, store, clockMs);
      }
    }

    /** One poll for either kind of change. */
    method PollBoth(prevV1: nat, prevV2: nat) returns (risen: bool, ghost poll: Poll)
      modifies this
      ensures Follows(poll, old(store), old(clockMs))
      ensures poll.v2.store == store && poll.v2.at == clockMs
      ensures risen <==> Rises(prevV1, prevV2, poll)
      ensures log == old(log) + [Queried(V1, poll.v1), Queried(V2, poll.v2)]
    {
      var curV1, queryV1 := CountSpans(V1);
      var curV2, queryV2 := CountSpans(V2);
      poll := Poll(queryV1, queryV2);
      risen := curV1 > prevV1 || curV2 > prevV2;
    }

    /** The wait after a toggle, for either kind of change. */
    method WaitForEither(prevV1: nat, prevV2: nat, timeoutS: int)
      returns (detected: bool, elapsed: int, ghost polls: seq<Poll>, ghost looked: nat)
      modifies this
      ensures looked <= clockMs && old(store) <= store
      ensures log == old(log) + PairSteps(polls)
      ensures PairsBetween(old(store), polls, store)
      ensures WatchedBoth(polls, prevV1, prevV2, timeoutS, detected)
      ensures PairsPaced(old(clockMs), polls) && LookedAt(old(clockMs), polls, looked, detected)
      ensures elapsed == (looked - old(clockMs)) / 1000
      ensures detected <==> elapsed < timeoutS
    {
      var start := clockMs;
      detected := false;
      polls, looked := [], clockMs;
      while true
        invariant clockMs >= start + 3000 * |polls|
        invariant polls == [] ==> clockMs == start
        invariant log == old(log) + PairSteps(polls)
        invariant Polling(old(store), start, prevV1, prevV2, polls, store, clockMs)
        invariant |polls| <= MaxPolls(timeoutS) && !detected
        decreases if clockMs - start < timeoutS * 1000 then timeoutS * 1000 - (clockMs - start) else 0
      {
        looked := clockMs;
        elapsed := (clockMs - start) / 1000;
        if elapsed >= timeoutS {
          GivesUp(old(store), start, prevV1, prevV2, polls, store, clockMs, timeoutS);
          break;
        }
        ghost var before, quiet := store, polls;
        var risen, poll := PollBoth(prevV1, prevV2);
        PollFollows(old(store), start, prevV1, prevV2, quiet, before, looked, poll);
        OnePollMore(quiet, poll);
        polls := polls + [poll];
        if risen {
          Finds(prevV1, prevV2, quiet, poll, timeoutS);
          detected := true;
          break;
        }
        Pass(3000);
        StillPolling(old(store), start, prevV1, prevV2, quiet, before, looked, poll, store, clockMs);
      }
    }

    method RunToggles(toggles: seq<Toggle>) returns (results: seq<ToggleResult>, ghost evidence: seq<Evidence>)
      modifies this
      ensures AllReported(toggles, results, evidence)
      ensures log == old(log) + RunSteps(toggles, evidence)
      ensures Chained(old(store), evidence, store) && InTime(old(clockMs), evidence, clockMs)
    {
      results, evidence := [], [];
      ghost var initial, start := store, clockMs;
      for i := 0 to |toggles|
        invariant |results| == |evidence| == i
        invariant AllReported(toggles[..i], results, evidence)
        invariant log == old(log) + RunSteps(toggles[..i], evidence)
        invariant Chained(initial, evidence, store) && InTime(start, evidence, clockMs)
      {
        ghost var before := store;
        var result, seen := RunToggle(toggles[i], i + 1);
        ChainOneMore(initial, evidence, before, seen, store);
        TimeOneMore(start, evidence, seen, clockMs);
        RunStepsOneMore(toggles, evidence, seen);
        AppendAssociates(old(log), RunSteps(toggles[..i], evidence), ToggleSteps(toggles[i], seen));
        ReportOneMore(toggles, results, evidence, result, seen);
        results := results + [result];
        evidence := evidence + [seen];
      }
      assert toggles[..|toggles|] == toggles;
    }

    /** What happens before the counts are taken. */
    method Settle(t: Toggle) returns (ghost first: Option<Query>, ghost waiting: seq<Query>)
      modifies this
      ensures clockMs >= old(clockMs) + 1000 * SettlingTime(t, waiting) && old(store) <= store
      ensures Settled(t, first, waiting)
      ensures log == old(log) + SettlingSteps(t, first, waiting)
    {
      first, waiting := None, [];
      if t.waitFor == "converged" {
        var prevCount, query := CountSpans(V2);
        first := Some(query);
        var ok, waitElapsed;
        ghost var looked;
        ok, waitElapsed, waiting, looked := WaitForNewSpan(V2, 0, t.timeoutS);
        if ok {
          Sleep(t.sleepS);
        }
      } else if t.waitFor == "sleep" {
        Sleep(t.sleepS);
      }
    }

    /** One turn of the loop. */
    method RunToggle(t: Toggle, phase: nat) returns (result: ToggleResult, ghost seen: Evidence)
      modifies this
      ensures Reported(t, phase, result, seen)
      ensures log == old(log) + ToggleSteps(t, seen)
      ensures old(store) <= seen.v1.store && seen.after <= store
      ensures seen.arrived == old(clockMs) && seen.ended == clockMs
    {
      ghost var arrived := clockMs;
      ghost var first, waiting := Settle(t);
      var prevV1, queryV1 := CountSpans(V1);
      var prevV2, queryV2 := CountSpans(V2);
      ExecToggle(t.action);
      ghost var toggled, began := store, clockMs;
      StepsOfToggle(old(log), SettlingSteps(t, first, waiting), queryV1, queryV2, Toggled(t.action, began));
      var detected, elapsed, polls, looked := WaitForEither(prevV1, prevV2, t.timeoutS);
      result := ToggleResult(phase, t.action, detected, elapsed);
      seen := Evidence(first, waiting, queryV1, queryV2, polls, store, arrived, began, looked, clockMs);
      EarlierBetween(queryV2.store, toggled, polls, store);
      AppendAssociates(old(log), SettlingSteps(t, first, waiting) + [Queried(V1, queryV1), Queried(V2, queryV2)]
                                 + [Toggled(t.action, began)], PairSteps(polls));
    }
  }

  lemma StepsOfToggle(before: seq<Step>, settling: seq<Step>, q1: Query, q2: Query, act: Step)
    ensures before + settling + [Queried(V1, q1)] + [Queried(V2, q2)] + [act]
         == before + (settling + [Queried(V1, q1), Queried(V2, q2)] + [act])
  {
  }

  lemma EarlierBetween(earlier: seq<string>, from: seq<string>, polls: seq<Poll>, to: seq<string>)
    requires PairsBetween(from, polls, to) && earlier <= from
    ensures PairsBetween(earlier, polls, to)
  {
  }

  /** Waiting for convergence counts once and then waits for any such span. */
  predicate Settled(t: Toggle, first: Option<Query>, waiting: seq<Query>) {
    if t.waitFor == "converged" then
      first.Some? && Watched(waiting, V2, 0, t.timeoutS, Converged(waiting))
    else
      first.None? && waiting == []
  }

  predicate Converged(waiting: seq<Query>) {
    waiting != [] && Seen(waiting[|waiting| - 1], V2) > 0
  }

  /** How long it sleeps before it counts. */
  function SettlingTime(t: Toggle, waiting: seq<Query>): nat {
    if t.waitFor == "converged" then (if Converged(waiting) then t.sleepS else 0)
    else if t.waitFor == "sleep" then t.sleepS
    else 0
  }

  function SettlingSteps(t: Toggle, first: Option<Query>, waiting: seq<Query>): seq<Step> {
    if t.waitFor == "converged" && first.Some? then
      [Queried(V2, first.value)] + SingleSteps(waiting, V2) + (if Converged(waiting) then [Slept(t.sleepS)] else [])
    else if t.waitFor == "sleep" then [Slept(t.sleepS)]
    else []
  }

  /** Everything a toggle does, in order: settle, count, act, poll. */
  function ToggleSteps(t: Toggle, e: Evidence): seq<Step> {
    SettlingSteps(t, e.first, e.waiting) + [Queried(V1, e.v1), Queried(V2, e.v2)] 
    + [Toggled(t.action, e.began)] + PairSteps(e.polls)
  }

  function StepBlocks(toggles: seq<Toggle>, evidence: seq<Evidence>): seq<seq<Step>>
    requires |toggles| == |evidence|
  {
    seq(|toggles|, k requires 0 <= k < |toggles| => ToggleSteps(toggles[k], evidence[k]))
  }

  function Concat(blocks: seq<seq<Step>>): seq<Step> {
    if blocks == [] then [] else Concat(blocks[..|blocks| - 1]) + blocks[|blocks| - 1]
  }

  function RunSteps(toggles: seq<Toggle>, evidence: seq<Evidence>): seq<Step>
    requires |toggles| == |evidence|
  {
    Concat(StepBlocks(toggles, evidence))
  }

  lemma ConcatOneMore(blocks: seq<seq<Step>>, block: seq<Step>)
    ensures Concat(blocks + [block]) == Concat(blocks) + block
  {
    assert (blocks + [block])[..|blocks|] == blocks;
  }

  lemma RunStepsOneMore(toggles: seq<Toggle>, evidence: seq<Evidence>, e: Evidence)
    requires |evidence| < |toggles|
    ensures var i := |evidence|;
            RunSteps(toggles[..i + 1], evidence + [e]) == RunSteps(toggles[..i], evidence) + ToggleSteps(toggles[i], e)
  {
    var i := |evidence|;
    BlocksOneMore(toggles, evidence, e);
    ConcatOneMore(StepBlocks(toggles[..i], evidence), ToggleSteps(toggles[i], e));
  }

  lemma BlocksOneMore(toggles: seq<Toggle>, evidence: seq<Evidence>, e: Evidence)
    requires |evidence| < |toggles|
    ensures var i := |evidence|;
            StepBlocks(toggles[..i + 1], evidence + [e]) == StepBlocks(toggles[..i], evidence) + [ToggleSteps(toggles[i], e)]
  {
    var i := |evidence|;
    var more, blocks := StepBlocks(toggles[..i + 1], evidence + [e]), StepBlocks(toggles[..i], evidence);
    assert forall k :: 0 <= k < i ==> toggles[..i + 1][k] == toggles[..i][k] && (evidence + [e])[k] == evidence[k];
    assert forall k :: 0 <= k < i ==> more[k] == blocks[k];
    assert more[i] == ToggleSteps(toggles[i], e);
  }

  function Actions(steps: seq<Step>): seq<string> {
    if steps == [] then []
    else
      Actions(steps[..|steps| - 1])
      + (if steps[|steps| - 1].Toggled? then [steps[|steps| - 1].action] else [])
  }

  lemma {:induction false} ActionsAppend(a: seq<Step>, b: seq<Step>)
    ensures Actions(a + b) == Actions(a) + Actions(b)
  {
    if b == [] {
      assert a + b == a;
    } else {
      var n := |b| - 1;
      assert (a + b)[..|a| + n] == a + b[..n];
      ActionsAppend(a, b[..n]);
    }
  }

  lemma {:induction false} NoActions(steps: seq<Step>)
    requires forall i :: 0 <= i < |steps| ==> !steps[i].Toggled?
    ensures Actions(steps) == []
  {
    if steps != [] {
      NoActions(steps[..|steps| - 1]);
    }
  }

  lemma {:induction false} PollsAct(polls: seq<Poll>)
    ensures forall i :: 0 <= i < |PairSteps(polls)| ==> !PairSteps(polls)[i].Toggled?
  {
    if polls != [] {
      PollsAct(polls[..|polls| - 1]);
    }
  }

  lemma ToggleActs(t: Toggle, e: Evidence)
    ensures Actions(ToggleSteps(t, e)) == [t.action]
  {
    var before := SettlingSteps(t, e.first, e.waiting) + [Queried(V1, e.v1), Queried(V2, e.v2)];
    NoActions(before);
    PollsAct(e.polls);
    NoActions(PairSteps(e.polls));
    var act := [Toggled(t.action, e.began)];
    ActionsAppend(before + act, PairSteps(e.polls));
    ActionsAppend(before, act);
    assert act[..0] == [];
    assert [] + [t.action] == [t.action] == [t.action] + [];
  }

  function ActionsOf(toggles: seq<Toggle>): seq<string> {
    seq(|toggles|, k requires 0 <= k < |toggles| => toggles[k].action)
  }

  lemma {:induction false} ConcatActs(blocks: seq<seq<Step>>, actions: seq<string>)
    requires |blocks| == |actions|
    requires forall k :: 0 <= k < |blocks| ==> Actions(blocks[k]) == [actions[k]]
    ensures Actions(Concat(blocks)) == actions
  {
    if blocks != [] {
      var n := |blocks| - 1;
      ConcatActs(blocks[..n], actions[..n]);
      ActionsAppend(Concat(blocks[..n]), blocks[n]);
      assert actions == actions[..n] + [actions[n]];
    }
  }

  /** A run acts on the router once per toggle, in order, and never otherwise. */
  lemma RunActsInOrder(toggles: seq<Toggle>, evidence: seq<Evidence>)
    requires |toggles| == |evidence|
    ensures Actions(RunSteps(toggles, evidence)) == ActionsOf(toggles)
  {
    var blocks := StepBlocks(toggles, evidence);
    forall k | 0 <= k < |toggles| ensures Actions(blocks[k]) == [ActionsOf(toggles)[k]] {
      ToggleActs(toggles[k], evidence[k]);
    }
    ConcatActs(blocks, ActionsOf(toggles));
  }

  /** One result: its phase and action are the toggle's, detection is what the last
      poll saw, and the time is below the timeout exactly when detected. */
  predicate Reported(t: Toggle, phase: nat, r: ToggleResult, e: Evidence) {
    && r.phase == phase && r.action == t.action
    && (r.detected <==> r.timeToDetectS < t.timeoutS)
    && Settled(t, e.first, e.waiting)
    && e.v1.store <= e.v2.store <= e.after
    && PairsBetween(e.v2.store, e.polls, e.after)
    && WatchedBoth(e.polls, Seen(e.v1, V1), Seen(e.v2, V2), t.timeoutS, r.detected)
    && Clocked(t, r, e)
  }

  /** The time reported is the time on the clock from acting to the last look, in
      whole seconds, with the settling before it and every poll in its place. */
  predicate Clocked(t: Toggle, r: ToggleResult, e: Evidence) {
    && r.timeToDetectS == (e.looked - e.began) / 1000
    && e.arrived + 1000 * SettlingTime(t, e.waiting) <= e.v1.at <= e.v2.at <= e.began <= e.looked <= e.ended
    && PairsPaced(e.began, e.polls)
    && LookedAt(e.began, e.polls, e.looked, r.detected)
  }

  /** One result per toggle, the phases counting from 1. */
  predicate AllReported(toggles: seq<Toggle>, results: seq<ToggleResult>, evidence: seq<Evidence>) {
    && |results| == |evidence| == |toggles|
    && forall k :: 0 <= k < |toggles| ==> Reported(toggles[k], k + 1, results[k], evidence[k])
  }

  lemma ReportOneMore(
    toggles: seq<Toggle>, results: seq<ToggleResult>, evidence: seq<Evidence>, r: ToggleResult, e: Evidence)
    requires |results| < |toggles| && AllReported(toggles[..|results|], results, evidence)
    requires Reported(toggles[|results|], |results| + 1, r, e)
    ensures AllReported(toggles[..|results| + 1], results + [r], evidence + [e])
  {
    var i, so := |results|, toggles[..|results| + 1];
    forall k | 0 <= k <= i ensures Reported(so[k], k + 1, (results + [r])[k], (evidence + [e])[k]) {
      if k < i {
        assert Reported(toggles[..i][k], k + 1, results[k], evidence[k]);
      }
    }
  }

  // ------------------------------------------------------ what detection means

  /** A later query sees more than an earlier one: a span of that name entered the
      store in between, or the earlier query failed to see one that was there. */
  ghost predicate Explained(before: Query, now: Query, name: string) {
    now.answered && (Fresh(before.store, now.store, name) || (!before.answered && name in before.store))
  }

  lemma MoreIsExplained(before: Query, now: Query, name: string)
    requires before.store <= now.store
    ensures Seen(now, name) > Seen(before, name) <==> Explained(before, now, name)
  {
    MoreMeansFresh(before.store, now.store, name);
    CountedIsThere(before.store, name);
    CountedIsThere(now.store, name);
    PresentOrFresh(before.store, now.store, name);
  }

  predicate AllAnswered(polls: seq<Query>) {
    forall k :: 0 <= k < |polls| ==> polls[k].answered
  }

  /** Exactly when a wait for one name detects: an answered poll sees more than
      before. So it cannot miss what was there when it began. */
  lemma WaitExactly(
    from: seq<string>, polls: seq<Query>, to: seq<string>, name: string, prevCount: nat, timeoutS: int, detected: bool)
    requires PolledBetween(from, polls, to) && Watched(polls, name, prevCount, timeoutS, detected)
    ensures detected <==> exists k :: 0 <= k < |polls| && polls[k].answered && Count(polls[k].store, name) > prevCount
    ensures timeoutS > 0 && Count(from, name) > prevCount && AllAnswered(polls) ==> detected
  {
    forall k | 0 <= k < |polls| && Seen(polls[k], name) > prevCount ensures detected {
      assert k == |polls| - 1;
    }
    if timeoutS > 0 && Count(from, name) > prevCount {
      MoreMeansFresh(from, polls[0].store, name);
    }
  }

  ghost predicate PollExplained(e: Evidence, p: Poll) {
    Explained(e.v1, p.v1, V1) || Explained(e.v2, p.v2, V2)
  }

  lemma PollRises(e: Evidence, p: Poll)
    requires e.v1.store <= p.v1.store && e.v2.store <= p.v2.store
    ensures Rises(Seen(e.v1, V1), Seen(e.v2, V2), p) <==> PollExplained(e, p)
  {
    MoreIsExplained(e.v1, p.v1, V1);
    MoreIsExplained(e.v2, p.v2, V2);
  }

  /** Exactly when a toggle is detected, whatever queries fail: some poll that was
      answered comes after a fresh change span, or after one that a failed count
      had missed. */
  lemma DetectedExactly(t: Toggle, phase: nat, r: ToggleResult, e: Evidence)
    requires Reported(t, phase, r, e)
    ensures r.detected <==> exists k :: 0 <= k < |e.polls| && PollExplained(e, e.polls[k])
  {
    forall k | 0 <= k < |e.polls|
      ensures Rises(Seen(e.v1, V1), Seen(e.v2, V2), e.polls[k]) <==> PollExplained(e, e.polls[k])
    {
      assert e.v2.store <= e.polls[k].v1.store;
      PollRises(e, e.polls[k]);
    }
  }

  /** A change span entered the store after the toggle's own count of such spans. */
  ghost predicate Backed(e: Evidence) {
    Fresh(e.v1.store, e.after, V1) || Fresh(e.v2.store, e.after, V2)
  }

  /** A count before the toggle failed although such spans were already there. */
  predicate Misled(e: Evidence) {
    (!e.v1.answered && V1 in e.v1.store) || (!e.v2.answered && V2 in e.v2.store)
  }

  predicate PollsAnswered(e: Evidence) {
    forall k :: 0 <= k < |e.polls| ==> e.polls[k].v1.answered && e.polls[k].v2.answered
  }

  lemma FreshLater(before: seq<string>, now: seq<string>, later: seq<string>, name: string)
    requires Fresh(before, now, name) && now <= later
    ensures Fresh(before, later, name)
  {
    var j :| |before| <= j < |now| && now[j] == name;
    assert later[j] == name;
  }

  lemma PollIsBackedOrMisled(e: Evidence, p: Poll)
    requires p.v1.store <= p.v2.store <= e.after
    ensures PollExplained(e, p) ==> Backed(e) || Misled(e)
    ensures p.v1.answered && p.v2.answered && Misled(e) ==> PollExplained(e, p)
  {
    if Fresh(e.v1.store, p.v1.store, V1) {
      FreshLater(e.v1.store, p.v1.store, e.after, V1);
    }
    if Fresh(e.v2.store, p.v2.store, V2) {
      FreshLater(e.v2.store, p.v2.store, e.after, V2);
    }
  }

  /** No detection without a fresh change span or a failed count; and once the polls
      are answered and the timeout is positive, the detections that no fresh span
      backs are exactly those that a failed count brought about. */
  lemma FalseDetectionExactly(t: Toggle, phase: nat, r: ToggleResult, e: Evidence)
    requires Reported(t, phase, r, e)
    ensures r.detected ==> Backed(e) || Misled(e)
    ensures PollsAnswered(e) && t.timeoutS > 0 && Misled(e) ==> r.detected
    ensures PollsAnswered(e) && t.timeoutS > 0 ==> (r.detected && !Backed(e) <==> Misled(e) && !Backed(e))
  {
    DetectedExactly(t, phase, r, e);
    forall k | 0 <= k < |e.polls|
      ensures PollExplained(e, e.polls[k]) ==> Backed(e) || Misled(e)
      ensures PollsAnswered(e) && Misled(e) ==> PollExplained(e, e.polls[k])
    {
      PollIsBackedOrMisled(e, e.polls[k]);
    }
    if PollsAnswered(e) && t.timeoutS > 0 && Misled(e) {
      assert PollExplained(e, e.polls[0]);
    }
  }

  /** Such a false detection does happen: the count before the toggle fails, no span
      ever arrives, and the span that was there all along is reported. */
  lemma FalseDetectionHappens() returns (t: Toggle, r: ToggleResult, e: Evidence)
    ensures Reported(t, 1, r, e) && PollsAnswered(e)
    ensures r.detected && !Backed(e) && Misled(e) && e.after == e.v1.store
  {
    var store := [V2];
    var ok := Query(store, true, 0);
    t := Toggle("add_port_forward", "none", 0, 180);
    r := ToggleResult(1, "add_port_forward", true, 0);
    e := Evidence(None, [], ok, Query(store, false, 0), [Poll(ok, ok)], store, 0, 0, 0, 0);
    assert V1[7] == 'i' && V2[7] == 'l';
    CountedIsThere(store, V1);
    CountedIsThere(store, V2);
    assert V2 in store;
  }

  // --------------------------------------------------------------- whole runs

  /** The phases follow each other on one growing store. */
  ghost predicate Chained(initial: seq<string>, evidence: seq<Evidence>, final: seq<string>) {
    if evidence == [] then initial <= final
    else
      var last := evidence[|evidence| - 1];
      && Chained(initial, evidence[..|evidence| - 1], last.v1.store)
      && last.v1.store <= last.v2.store <= last.after <= final
  }

  lemma {:induction false} ChainGrows(initial: seq<string>, evidence: seq<Evidence>, final: seq<string>, later: seq<string>)
    requires Chained(initial, evidence, final) && final <= later
    ensures Chained(initial, evidence, later)
  {
  }

  lemma ChainOneMore(initial: seq<string>, evidence: seq<Evidence>, before: seq<string>, e: Evidence, final: seq<string>)
    requires Chained(initial, evidence, before)
    requires before <= e.v1.store <= e.v2.store <= e.after <= final
    ensures Chained(initial, evidence + [e], final)
  {
    ChainGrows(initial, evidence, before, e.v1.store);
    assert (evidence + [e])[..|evidence|] == evidence;
  }

  function Changes(store: seq<string>): nat {
    Count(store, V1) + Count(store, V2)
  }

  /** The turns of a run, one after the other on the clock. */
  predicate InTime(start: nat, evidence: seq<Evidence>, end: nat) {
    if evidence == [] then start <= end
    else
      var last := evidence[|evidence| - 1];
      InTime(start, evidence[..|evidence| - 1], last.arrived) && last.arrived <= last.ended <= end
  }

  lemma TimeOneMore(start: nat, evidence: seq<Evidence>, e: Evidence, end: nat)
    requires InTime(start, evidence, e.arrived) && e.arrived <= e.ended <= end
    ensures InTime(start, evidence + [e], end)
  {
    assert (evidence + [e])[..|evidence|] == evidence;
  }

  function Seconds(toggles: seq<Toggle>, results: seq<ToggleResult>, evidence: seq<Evidence>): int
    requires |toggles| == |results| == |evidence|
  {
    if toggles == [] then 0
    else
      var n := |toggles| - 1;
      Seconds(toggles[..n], results[..n], evidence[..n])
      + SettlingTime(toggles[n], evidence[n].waiting) + results[n].timeToDetectS
  }

  /** A run takes at least as long as it says: all the times to detect and all the
      settling before them, on one clock. */
  lemma {:induction false} RunTakesItsTime(
    toggles: seq<Toggle>, results: seq<ToggleResult>, evidence: seq<Evidence>, start: nat, end: nat)
    requires AllReported(toggles, results, evidence) && InTime(start, evidence, end)
    ensures start + 1000 * Seconds(toggles, results, evidence) <= end
  {
    if toggles != [] {
      var n := |toggles| - 1;
      RunTakesItsTime(toggles[..n], results[..n], evidence[..n], start, evidence[n].arrived);
      assert Reported(toggles[n], n + 1, results[n], evidence[n]);
    }
  }

  lemma {:induction false} PollAt(began: nat, polls: seq<Poll>, k: nat)
    requires PairsPaced(began, polls) && k < |polls|
    ensures began + 3000 * k <= polls[k].v1.at <= polls[k].v2.at
  {
    if k > 0 {
      PollAt(began, polls, k - 1);
    }
  }

  /** Polls cost three seconds each, but for the one that detects; a toggle that is
      not detected has waited for its whole timeout. */
  lemma PollsTakeTime(t: Toggle, phase: nat, r: ToggleResult, e: Evidence)
    requires Reported(t, phase, r, e)
    ensures 3 * (|e.polls| - if r.detected then 1 else 0) <= r.timeToDetectS
    ensures 1000 * r.timeToDetectS <= e.ended - e.began
    ensures !r.detected ==> e.ended - e.began >= 1000 * t.timeoutS
  {
    var n := |e.polls|;
    if r.detected && n > 1 {
      PollAt(e.began, e.polls, n - 2);
    } else if !r.detected && n > 0 {
      PollAt(e.began, e.polls, n - 1);
    }
  }

  ghost function BackedPhases(evidence: seq<Evidence>): nat {
    if evidence == [] then 0
    else BackedPhases(evidence[..|evidence| - 1]) + (if Backed(evidence[|evidence| - 1]) then 1 else 0)
  }

  lemma ChangesGrow(before: seq<string>, after: seq<string>)
    requires before <= after
    ensures Changes(before) <= Changes(after)
  {
    MoreMeansFresh(before, after, V1);
    MoreMeansFresh(before, after, V2);
  }

  /** No span is counted for two toggles: over a whole run the store gained at
      least one change span per backed detection. */
  lemma {:induction false} DetectionsAreDistinct(initial: seq<string>, evidence: seq<Evidence>, final: seq<string>)
    requires Chained(initial, evidence, final)
    ensures Changes(initial) + BackedPhases(evidence) <= Changes(final)
  {
    if evidence == [] {
      ChangesGrow(initial, final);
    } else {
      var last := evidence[|evidence| - 1];
      DetectionsAreDistinct(initial, evidence[..|evidence| - 1], last.v1.store);
      MoreMeansFresh(last.v1.store, last.after, V1);
      MoreMeansFresh(last.v1.store, last.v2.store, V2);
      MoreMeansFresh(last.v2.store, last.after, V2);
      ChangesGrow(last.after, final);
    }
  }

  /** The poll bound is the ceiling of a third of the timeout. */
  lemma MaxPollsIsCeiling(timeoutS: int)
    requires timeoutS > 0
    ensures 3 * (MaxPolls(timeoutS) - 1) < timeoutS <= 3 * MaxPolls(timeoutS)
  {
  }

  function DetectedPhases(results: seq<ToggleResult>): nat {
    if results == [] then 0
    else DetectedPhases(results[..|results| - 1]) + (if results[|results| - 1].detected then 1 else 0)
  }

  function MisledPhases(evidence: seq<Evidence>): nat {
    if evidence == [] then 0
    else MisledPhases(evidence[..|evidence| - 1]) + (if Misled(evidence[|evidence| - 1]) then 1 else 0)
  }

  /** Over a whole run every detection is backed by a change span of its own, but
      for the toggles whose earlier counts failed to see a span. */
  lemma DetectionsNeedSpans(
    toggles: seq<Toggle>, results: seq<ToggleResult>,
    initial: seq<string>, evidence: seq<Evidence>, final: seq<string>)
    requires AllReported(toggles, results, evidence)
    requires Chained(initial, evidence, final)
    ensures DetectedPhases(results) <= Changes(final) - Changes(initial) + MisledPhases(evidence)
  {
    DetectionsAreDistinct(initial, evidence, final);
    DetectedAreBacked(toggles, results, evidence);
  }

  lemma {:induction false} DetectedAreBacked(toggles: seq<Toggle>, results: seq<ToggleResult>, evidence: seq<Evidence>)
    requires AllReported(toggles, results, evidence)
    ensures DetectedPhases(results) <= BackedPhases(evidence) + MisledPhases(evidence)
  {
    if results != [] {
      var n := |results| - 1;
      DetectedAreBacked(toggles[..n], results[..n], evidence[..n]);
      FalseDetectionExactly(toggles[n], n + 1, results[n], evidence[n]);
    }
  }
}
