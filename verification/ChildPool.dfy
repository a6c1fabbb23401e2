/**
processNfeEmailDispatchSalesWorkflow: the bounded pool of child workflows, one per eligible sale, and the
summary of what they returned. Children settle in any order; each is an oracle for the outcome of its sale.
*/
module ChildPool {
  import opened Prelude

  datatype ChildStatus = Skipped | Sent | FailedTransient | FailedFinal | DeliveryUnknown

  datatype ChildResult = ChildResult(saleId: int, status: ChildStatus)

  /** How a child settles: Broken if it could not be started or did not finish. */
  datatype Outcome = Completed(result: ChildResult) | Broken

  /** Each child's result carries the id of the sale it was started for. */
  ghost predicate Echoes(child: int -> Outcome) {
    forall id :: child(id).Completed? ==> child(id).result.saleId == id
  }

  predicate Distinct(ids: seq<int>) {
    forall i, j :: 0 <= i < j < |ids| ==> ids[i] != ids[j]
  }

  // ----- the history of a pool -----

  datatype Event = Started(id: int) | Settled(id: int)

  datatype History = Idle | Then(before: History, event: Event)

  function Starts(h: History): seq<int> {
    match h
    case Idle => []
    case Then(before, Started(id)) => Starts(before) + [id]
    case Then(before, Settled(_)) => Starts(before)
  }

  function Settles(h: History): seq<int> {
    match h
    case Idle => []
    case Then(before, Started(_)) => Settles(before)
    case Then(before, Settled(id)) => Settles(before) + [id]
  }

  function Active(h: History): set<int> {
    match h
    case Idle => {}
    case Then(before, Started(id)) => Active(before) + {id}
    case Then(before, Settled(id)) => Active(before) - {id}
  }

  /**
  The pool's discipline: sales start in order and only below the limit; only an active child settles, and
  the pool waits for one only while it is full or every sale has been started.
  */
  predicate Disciplined(h: History, ids: seq<int>, limit: nat) {
    h.Then? ==> Disciplined(h.before, ids, limit) && Allowed(h.before, h.event, ids, limit)
  }

  predicate Allowed(before: History, event: Event, ids: seq<int>, limit: nat) {
    match event
    case Started(id) => |Starts(before)| < |ids| && id == ids[|Starts(before)|] && |Active(before)| < limit
    case Settled(id) => id in Active(before) && (|Active(before)| == limit || Starts(before) == ids)
  }

  predicate AlwaysWithin(h: History, limit: nat) {
    |Active(h)| <= limit && (h.Then? ==> AlwaysWithin(h.before, limit))
  }

  lemma {:induction false} LimitHolds(h: History, ids: seq<int>, limit: nat)
    requires Disciplined(h, ids, limit)
    ensures AlwaysWithin(h, limit)
  {
    if h.Then? {
      LimitHolds(h.before, ids, limit);
    }
  }

  lemma {:induction false} StartsInOrder(h: History, ids: seq<int>, limit: nat)
    requires Disciplined(h, ids, limit)
    ensures |Starts(h)| <= |ids| && Starts(h) == ids[..|Starts(h)|]
  {
    if h.Then? {
      StartsInOrder(h.before, ids, limit);
    }
  }

  /** A sale is still waiting, active or settled, and never twice. */
  lemma {:induction false} EachIsSomewhere(h: History, ids: seq<int>, limit: nat)
    requires Disciplined(h, ids, limit) && Distinct(ids)
    ensures multiset(Settles(h)) + multiset(Active(h)) == multiset(Starts(h))
  {
    if h.Then? {
      EachIsSomewhere(h.before, ids, limit);
      if h.event.Started? {
        NextIsNew(h.before, ids, limit);
      }
    }
  }

  lemma NextIsNew(h: History, ids: seq<int>, limit: nat)
    requires Disciplined(h, ids, limit) && Distinct(ids) && |Starts(h)| < |ids|
    requires multiset(Settles(h)) + multiset(Active(h)) == multiset(Starts(h))
    ensures ids[|Starts(h)|] !in Active(h)
  {
    var next := ids[|Starts(h)|];
    StartsInOrder(h, ids, limit);
    assert next !in multiset(Starts(h));
    assert next !in multiset(Active(h));
  }

  /**
  Any disciplined history that has started everything and left nothing running: the limit held at every
  moment and every sale settled exactly once.
  */
  lemma PoolIsComplete(h: History, ids: seq<int>, limit: nat)
    requires Disciplined(h, ids, limit) && Distinct(ids)
    requires Starts(h) == ids && Active(h) == {}
    ensures AlwaysWithin(h, limit)
    ensures multiset(Settles(h)) == multiset(ids)
  {
    LimitHolds(h, ids, limit);
    EachIsSomewhere(h, ids, limit);
  }

  // ----- what the pool returns -----

  function Results(child: int -> Outcome, h: History): seq<ChildResult> {
    match h
    case Idle => []
    case Then(before, Started(_)) => Results(child, before)
    case Then(before, Settled(id)) =>
      if child(id).Completed? then Results(child, before) + [child(id).result] else Results(child, before)
  }

  function Failures(child: int -> Outcome, h: History): seq<int> {
    match h
    case Idle => []
    case Then(before, Started(_)) => Failures(child, before)
    case Then(before, Settled(id)) =>
      if child(id).Completed? then Failures(child, before) else Failures(child, before) + [id]
  }

  /**
  The loop's variables against the history: pending sales are those not yet started, and the map of active
  children holds exactly the active sales, each with its own child.
  */
  ghost predicate InStep(pending: seq<int>, active: map<int, Outcome>, h: History,
                         ids: seq<int>, limit: nat, child: int -> Outcome) {
    Disciplined(h, ids, limit) && Starts(h) + pending == ids &&
    active.Keys == Active(h) && |active.Keys| <= limit && forall id :: id in active ==> active[id] == child(id)
  }

  lemma SomeMember(s: set<int>)
    requires |s| > 0
    ensures exists x :: x in s
  {
    assert (forall x :: x !in s) ==> s == {};
  }

  lemma LastStep(pending: seq<int>, active: map<int, Outcome>, h: History, ids: seq<int>, limit: nat,
                 child: int -> Outcome)
    requires InStep(pending, active, h, ids, limit, child) && |pending| == 0 && |active.Keys| == 0
    ensures Disciplined(h, ids, limit) && Starts(h) == ids && Active(h) == {}
  {
    assert Starts(h) + pending == Starts(h);
  }

  lemma NextToStart(pending: seq<int>, h: History, ids: seq<int>, limit: nat)
    requires Disciplined(h, ids, limit) && Distinct(ids) && Starts(h) + pending == ids && |pending| > 0
    ensures |Starts(h)| < |ids| && pending[0] == ids[|Starts(h)|] && pending[0] !in Active(h)
    ensures Starts(h) + [pending[0]] + pending[1..] == ids
  {
    EachIsSomewhere(h, ids, limit);
    NextIsNew(h, ids, limit);
  }

  lemma StartKeepsStep(pending: seq<int>, active: map<int, Outcome>, h: History,
                       ids: seq<int>, limit: nat, child: int -> Outcome)
    requires InStep(pending, active, h, ids, limit, child) && Distinct(ids) && |pending| > 0 && |active.Keys| < limit
    ensures var next := pending[0];
            var active' := active[next := child(next)];
            InStep(pending[1..], active', Then(h, Started(next)), ids, limit, child) &&
            |active'.Keys| == |active.Keys| + 1
  {
    NextToStart(pending, h, ids, limit);
    assert active[pending[0] := child(pending[0])].Keys == active.Keys + {pending[0]};
  }

  lemma SettleKeepsStep(pending: seq<int>, active: map<int, Outcome>, h: History,
                        ids: seq<int>, limit: nat, child: int -> Outcome, id: int)
    requires InStep(pending, active, h, ids, limit, child) && id in active.Keys &&
             (pending == [] || |active.Keys| == limit)
    requires Echoes(child)
    ensures active[id] == child(id) && (active[id].Completed? ==> active[id].result.saleId == id)
    ensures InStep(pending, active - {id}, Then(h, Settled(id)), ids, limit, child) &&
            |(active - {id}).Keys| == |active.Keys| - 1
  {
    assert (active - {id}).Keys == active.Keys - {id};
    assert pending == [] ==> Starts(h) == ids;
  }

  /** What has been returned so far is what the settled children left. */
  ghost predicate Gathered(results: seq<ChildResult>, failedIds: seq<int>, h: History, child: int -> Outcome) {
    results == Results(child, h) && failedIds == Failures(child, h)
  }

  /**
  runProcessChildrenWithConcurrency. The race picks any active child. The history records the starts and
  settlements; everything returned is determined by the order of settlement.
  */
  method RunChildren(ids: seq<int>, limit: nat, child: int -> Outcome)
    returns (results: seq<ChildResult>, failures: nat, failedIds: seq<int>, ghost h: History)
    requires limit > 0 && Distinct(ids) && Echoes(child)
    ensures Disciplined(h, ids, limit) && Starts(h) == ids && Active(h) == {}
    ensures results == Results(child, h) && failedIds == Failures(child, h)
    ensures failures == |failedIds|
  {
    var pending := ids;
    var active: map<int, Outcome> := map[];
    results, failures, failedIds, h := [], 0, [], Idle;
    while |pending| > 0 || |active.Keys| > 0
      invariant InStep(pending, active, h, ids, limit, child)
      invariant Gathered(results, failedIds, h, child)
      invariant failures == |failedIds|
      decreases 2 * |pending| + |active.Keys|
    {
      ghost var budget := 2 * |pending| + |active.Keys|;
      while |pending| > 0 && |active.Keys| < limit
        invariant InStep(pending, active, h, ids, limit, child)
        invariant Gathered(results, failedIds, h, child)
        invariant 2 * |pending| + |active.Keys| <= budget
        invariant |pending| > 0 || |active.Keys| > 0
        decreases |pending|
      {
        StartKeepsStep(pending, active, h, ids, limit, child);
        var next := pending[0];
        pending := pending[1..];
        active := active[next := child(next)];
        h := Then(h, Started(next));
      }
      SomeMember(active.Keys);
      var id :| id in active.Keys;
      SettleKeepsStep(pending, active, h, ids, limit, child, id);
      h := Then(h, Settled(id));
      match active[id] {
        case Completed(result) =>
          active := active - {result.saleId};
          results := results + [result];
        case Broken =>
          active := active - {id};
          failures := failures + 1;
          failedIds := failedIds + [id];
      }
    }
    LastStep(pending, active, h, ids, limit, child);
  }

  // ----- the summary -----

  /** How a child ended: None for one that broke. */
  function Ending(outcome: Outcome): Option<ChildStatus> {
    if outcome.Completed? then Some(outcome.result.status) else None
  }

  /** How many of the sales ended in a given way. */
  function Count(child: int -> Outcome, ids: seq<int>, ending: Option<ChildStatus>): nat {
    if ids == [] then 0
    else Count(child, ids[1..], ending) + if Ending(child(ids[0])) == ending then 1 else 0
  }

  function CountResults(results: seq<ChildResult>, status: ChildStatus): nat {
    if results == [] then 0
    else CountResults(results[1..], status) + if results[0].status == status then 1 else 0
  }

  lemma {:induction false} CountAppends(child: int -> Outcome, a: seq<int>, b: seq<int>, ending: Option<ChildStatus>)
    ensures Count(child, a + b, ending) == Count(child, a, ending) + Count(child, b, ending)
  {
    if a == [] {
      assert a + b == b;
    } else {
      assert (a + b)[1..] == a[1..] + b;
      CountAppends(child, a[1..], b, ending);
    }
  }

  lemma {:induction false} CountResultsAppends(results: seq<ChildResult>, last: ChildResult, status: ChildStatus)
    ensures CountResults(results + [last], status) ==
            CountResults(results, status) + if last.status == status then 1 else 0
  {
    if results == [] {
      assert results + [last] == [last];
    } else {
      assert (results + [last])[1..] == results[1..] + [last];
      CountResultsAppends(results[1..], last, status);
    }
  }

  lemma Position(a: seq<int>, b: seq<int>, x: int) returns (i: nat)
    requires multiset(a) == multiset(b) && x in a
    ensures i < |b| && b[i] == x
  {
    assert x in multiset(a);
    i :| i < |b| && b[i] == x;
  }

  lemma SameElements(a: seq<int>, b: seq<int>)
    requires multiset(a) == multiset(b)
    ensures |a| == |b| && forall x :: x in a <==> x in b
  {
    assert |multiset(a)| == |multiset(b)|;
    forall x ensures x in a <==> x in b {
      if x in a { var _ := Position(a, b, x); }
      if x in b { var _ := Position(b, a, x); }
    }
  }

  lemma CountWithout(child: int -> Outcome, ids: seq<int>, i: nat, ending: Option<ChildStatus>)
    requires i < |ids|
    ensures Count(child, ids, ending) ==
            Count(child, ids[..i] + ids[i + 1..], ending) + if Ending(child(ids[i])) == ending then 1 else 0
  {
    assert ids == ids[..i] + ids[i..];
    CountAppends(child, ids[..i], ids[i..], ending);
    CountAppends(child, ids[..i], ids[i + 1..], ending);
    assert ids[i..][1..] == ids[i + 1..];
  }

  lemma ElementsWithout(ids: seq<int>, i: nat)
    requires i < |ids|
    ensures multiset(ids[..i] + ids[i + 1..]) == multiset(ids) - multiset{ids[i]}
  {
    assert ids == ids[..i] + ([ids[i]] + ids[i + 1..]);
  }

  /** The order in which children settle changes no count. */
  lemma {:induction false} CountIgnoresOrder(child: int -> Outcome, a: seq<int>, b: seq<int>,
                                             ending: Option<ChildStatus>)
    requires multiset(a) == multiset(b)
    ensures Count(child, a, ending) == Count(child, b, ending)
    decreases |a|
  {
    SameElements(a, b);
    if a != [] {
      var i := Position(a, b, a[0]);
      ElementsWithout(a, 0);
      ElementsWithout(b, i);
      CountWithout(child, a, 0, ending);
      CountWithout(child, b, i, ending);
      CountIgnoresOrder(child, a[..0] + a[1..], b[..i] + b[i + 1..], ending);
    }
  }

  lemma {:induction false} ResultsAreCounted(child: int -> Outcome, h: History)
    ensures forall s :: CountResults(Results(child, h), s) == Count(child, Settles(h), Some(s))
    ensures |Failures(child, h)| == Count(child, Settles(h), None)
    ensures |Results(child, h)| + |Failures(child, h)| == |Settles(h)|
    ensures forall id :: id in Failures(child, h) <==> id in Settles(h) && child(id).Broken?
  {
    if h.Then? {
      ResultsAreCounted(child, h.before);
      if h.event.Settled? {
        var id := h.event.id;
        forall e ensures Count(child, Settles(h), e) ==
                         Count(child, Settles(h.before), e) + if Ending(child(id)) == e then 1 else 0
        {
          CountAppends(child, Settles(h.before), [id], e);
          assert [id][1..] == [];
        }
        if child(id).Completed? {
          forall s { CountResultsAppends(Results(child, h.before), child(id).result, s); }
        }
      }
    }
  }

  /** Every sale ends in exactly one of the six ways. */
  lemma {:induction false} CountsAddUp(child: int -> Outcome, ids: seq<int>)
    ensures Count(child, ids, Some(Skipped)) + Count(child, ids, Some(Sent)) +
            Count(child, ids, Some(FailedTransient)) + Count(child, ids, Some(FailedFinal)) +
            Count(child, ids, Some(DeliveryUnknown)) + Count(child, ids, None) == |ids|
  {
    if ids != [] {
      CountsAddUp(child, ids[1..]);
      match Ending(child(ids[0])) {
        case None =>
        case Some(Skipped) =>
        case Some(Sent) =>
        case Some(FailedTransient) =>
        case Some(FailedFinal) =>
        case Some(DeliveryUnknown) =>
      }
    }
  }

  datatype Summary = Summary(
    totalEligibleSales: nat,
    completedChildren: nat,
    skippedSales: nat,
    sentSales: nat,
    failedTransientSales: nat,
    failedFinalSales: nat,
    deliveryUnknownSales: nat,
    childWorkflowFailures: nat,
    failedSaleIds: seq<int>)

  /** buildProcessNfeEmailDispatchSalesSummary */
  method BuildSummary(results: seq<ChildResult>, failures: nat, failedIds: seq<int>) returns (summary: Summary)
    ensures summary.totalEligibleSales == |results| + failures && summary.completedChildren == |results|
    ensures summary.skippedSales == CountResults(results, Skipped)
    ensures summary.sentSales == CountResults(results, Sent)
    ensures summary.failedTransientSales == CountResults(results, FailedTransient)
    ensures summary.failedFinalSales == CountResults(results, FailedFinal)
    ensures summary.deliveryUnknownSales == CountResults(results, DeliveryUnknown)
    ensures summary.childWorkflowFailures == failures && summary.failedSaleIds == failedIds
  {
    var completed, skipped, sent, failedTransient, failedFinal, deliveryUnknown := 0, 0, 0, 0, 0, 0;
    for i := 0 to |results|
      invariant completed == i
      invariant skipped == CountResults(results[..i], Skipped)
      invariant sent == CountResults(results[..i], Sent)
      invariant failedTransient == CountResults(results[..i], FailedTransient)
      invariant failedFinal == CountResults(results[..i], FailedFinal)
      invariant deliveryUnknown == CountResults(results[..i], DeliveryUnknown)
    {
      assert results[..i + 1] == results[..i] + [results[i]];
      forall s { CountResultsAppends(results[..i], results[i], s); }
      completed := completed + 1;
      match results[i].status {
        case Skipped => skipped := skipped + 1;
        case Sent => sent := sent + 1;
        case FailedTransient => failedTransient := failedTransient + 1;
        case FailedFinal => failedFinal := failedFinal + 1;
        case DeliveryUnknown => deliveryUnknown := deliveryUnknown + 1;
      }
    }
    assert results[..|results|] == results;
    return Summary(|results| + failures, completed, skipped, sent, failedTransient, failedFinal, deliveryUnknown,
                   failures, failedIds);
  }

  datatype Report = DiscoveryRunning | Finished(success: bool, summary: Summary)

  /**
  The parent workflow: whatever order the children settle in, every eligible sale is counted exactly once
  under the way its own child ended, the failed ids are the broken children's, and the run succeeds
  exactly when no child broke.
  */
  method ProcessSales(discoveryRunning: bool, ids: seq<int>, limit: nat, child: int -> Outcome) returns (report: Report)
    requires limit > 0 && Distinct(ids) && Echoes(child)
    ensures report.DiscoveryRunning? <==> discoveryRunning
    ensures report.Finished? ==>
              && report.summary.totalEligibleSales == |ids|
              && report.summary.skippedSales == Count(child, ids, Some(Skipped))
              && report.summary.sentSales == Count(child, ids, Some(Sent))
              && report.summary.failedTransientSales == Count(child, ids, Some(FailedTransient))
              && report.summary.failedFinalSales == Count(child, ids, Some(FailedFinal))
              && report.summary.deliveryUnknownSales == Count(child, ids, Some(DeliveryUnknown))
              && report.summary.childWorkflowFailures == Count(child, ids, None) == |report.summary.failedSaleIds|
              && report.summary.completedChildren + report.summary.childWorkflowFailures == |ids|
    ensures report.Finished? ==> forall id :: id in report.summary.failedSaleIds <==> id in ids && child(id).Broken?
    ensures report.Finished? ==> (report.success <==> forall id :: id in ids ==> child(id).Completed?)
  {
    if discoveryRunning {
      return DiscoveryRunning;
    }
    if |ids| == 0 {
      return Finished(true, Summary(0, 0, 0, 0, 0, 0, 0, 0, []));
    }
    var results, failures, failedIds, h := RunChildren(ids, limit, child);
    var summary := BuildSummary(results, failures, failedIds);
    PoolIsComplete(h, ids, limit);
    ResultsAreCounted(child, h);
    forall e { CountIgnoresOrder(child, Settles(h), ids, e); }
    SameElements(Settles(h), ids);
    assert failures > 0 ==> failedIds[0] in failedIds;
    return Finished(failures == 0, summary);
  }
}
