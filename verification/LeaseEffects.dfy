/**
External effects under a lease: the reserve / send / finalize pattern of the SMTP activity,
which sends once for each grant it receives and never cancels.
*/
module LeaseEffects {
  import opened Prelude
  import opened LeaseTable
  import opened LeaseProtocol
  import opened LeaseInvariants

  function SendCount(log: seq<Event>, k: Key): nat {
    if log == [] then 0
    else SendCount(log[..|log| - 1], k) + if log[|log| - 1].Sent? && log[|log| - 1].key == k then 1 else 0
  }

  function GrantCount(log: seq<Event>, k: Key): nat {
    if log == [] then 0
    else GrantCount(log[..|log| - 1], k) + if log[|log| - 1].Granted? && log[|log| - 1].key == k then 1 else 0
  }

  ghost predicate NeverCancelled(log: seq<Event>, k: Key) {
    forall i :: 0 <= i < |log| && log[i].key == k ==> !log[i].Cancelled?
  }

  ghost function SentTokens(log: seq<Event>, k: Key): set<nat> {
    set i | 0 <= i < |log| && log[i].Sent? && log[i].key == k :: log[i].token
  }

  ghost function GrantedTokens(log: seq<Event>, k: Key): set<nat> {
    set i | 0 <= i < |log| && log[i].Granted? && log[i].key == k :: log[i].token
  }

  lemma TokensGrow(log: seq<Event>, e: Event, k: Key)
    ensures SentTokens(log + [e], k) == SentTokens(log, k) + if e.Sent? && e.key == k then {e.token} else {}
    ensures GrantedTokens(log + [e], k) == GrantedTokens(log, k) + if e.Granted? && e.key == k then {e.token} else {}
  {
    var longer, n := log + [e], |log|;
    assert longer[n] == e && forall i :: 0 <= i < n ==> longer[i] == log[i];
    forall t ensures t in SentTokens(log, k) ==> t in SentTokens(longer, k) {
      if t in SentTokens(log, k) {
        var i :| 0 <= i < n && log[i].Sent? && log[i].key == k && log[i].token == t;
        assert longer[i] == log[i];
      }
    }
    forall t ensures t in GrantedTokens(log, k) ==> t in GrantedTokens(longer, k) {
      if t in GrantedTokens(log, k) {
        var i :| 0 <= i < n && log[i].Granted? && log[i].key == k && log[i].token == t;
        assert longer[i] == log[i];
      }
    }
  }

  lemma {:induction false} SendsAreTokens(log: seq<Event>, k: Key)
    requires TokensOnce(log)
    ensures SendCount(log, k) == |SentTokens(log, k)|
  {
    if log != [] {
      var front, e := log[..|log| - 1], log[|log| - 1];
      assert log == front + [e];
      assert forall i :: 0 <= i < |front| ==> front[i] == log[i];
      SendsAreTokens(front, k);
      TokensGrow(front, e, k);
      assert e.Sent? ==> e.token !in SentTokens(front, k);
    }
  }

  lemma {:induction false} GrantsAreTokens(log: seq<Event>, k: Key)
    requires TokensOnce(log)
    ensures GrantCount(log, k) == |GrantedTokens(log, k)|
  {
    if log != [] {
      var front, e := log[..|log| - 1], log[|log| - 1];
      assert log == front + [e];
      assert forall i :: 0 <= i < |front| ==> front[i] == log[i];
      GrantsAreTokens(front, k);
      TokensGrow(front, e, k);
      assert e.Granted? ==> e.token !in GrantedTokens(front, k);
    }
  }

  lemma SubsetIsSmaller(a: set<nat>, b: set<nat>)
    requires a <= b
    ensures |a| <= |b|
  {
    assert b == a + (b - a);
  }

  lemma {:induction false} UncancelledGrants(log: seq<Event>, k: Key)
    requires NeverCancelled(log, k)
    ensures GrantsSince(log, k) == GrantCount(log, k)
  {
    if log != [] {
      assert log[|log| - 1].key == k ==> !log[|log| - 1].Cancelled?;
      UncancelledGrants(log[..|log| - 1], k);
    }
  }

  /**
  In every run the effects sent under a key never outnumber its grants; where nobody cancels, the
  grants are the row's attempt_count, and reaching attempt n took at least 90 (n - 1) seconds.
  */
  lemma EffectsAreBounded(actions: seq<Action>, k: Key)
    ensures var w := Run(START, actions);
            && SendCount(w.log, k) <= GrantCount(w.log, k)
            && (NeverCancelled(w.log, k) ==> GrantCount(w.log, k) == Attempts(w.table, k))
            && (k in w.table.rows ==>
                w.table.rows[k].createdAt + 90 * (w.table.rows[k].attemptCount - 1) <= w.table.now)
  {
    var w := Run(START, actions);
    Reachable(actions);
    SendsAreTokens(w.log, k);
    GrantsAreTokens(w.log, k);
    forall t | t in SentTokens(w.log, k) ensures t in GrantedTokens(w.log, k) {
      var i :| 0 <= i < |w.log| && w.log[i].Sent? && w.log[i].key == k && w.log[i].token == t;
      assert EventOk(w, i);
      assert LoggedGrant(w.log, k, t);
    }
    SubsetIsSmaller(SentTokens(w.log, k), GrantedTokens(w.log, k));
    if NeverCancelled(w.log, k) {
      UncancelledGrants(w.log, k);
      assert Attempts(w.table, k) == GrantsSince(w.log, k);
    }
    if k in w.table.rows {
      assert RowOk(w.table.rows[k], w.table.now);
    }
  }

  ghost predicate Accepted(log: seq<Event>, i: int, k: Key) {
    0 <= i < |log| && log[i].Sent? && log[i].accepted && log[i].key == k
  }

  ghost predicate FinalizedBy(log: seq<Event>, k: Key, token: nat) {
    exists i :: 0 <= i < |log| && log[i].Finalized? && log[i].key == k && log[i].token == token
  }

  /** The holder s was granted k before t, lost its lease by expiry or by its own cancel, and never finalized. */
  ghost predicate LostTo(log: seq<Event>, k: Key, s: nat, t: nat) {
    && !FinalizedBy(log, k, s)
    && exists g, h :: 0 <= g < h < |log| && GrantAt(log, g, k, s) && GrantAt(log, h, k, t) &&
                      (log[g].at + 90 <= log[h].at || CancelledBetween(log, g, h, k, s))
  }

  ghost predicate GrantAt(log: seq<Event>, g: int, k: Key, token: nat) {
    0 <= g < |log| && log[g].Granted? && log[g].key == k && log[g].token == token
  }

  lemma EarlierHolderLost(w: World, k: Key, g: int, h: int, s: nat, t: nat)
    requires Inv(w) && GrantAt(w.log, g, k, s) && GrantAt(w.log, h, k, t) && g < h
    ensures LostTo(w.log, k, s, t)
  {
    if FinalizedBy(w.log, k, s) {
      var m :| 0 <= m < |w.log| && w.log[m].Finalized? && w.log[m].key == k && w.log[m].token == s;
      assert Releases(w.log[m], k, s);
    }
  }

  /**
  Two holders both had an effect accepted under one key only if the earlier of them lost its lease,
  by letting it run out or by cancelling it, and never finalized.
  */
  lemma DoubleEffectNeedsLostLease(actions: seq<Action>, k: Key, i: int, j: int)
    requires var log := Run(START, actions).log;
             Accepted(log, i, k) && Accepted(log, j, k) && i != j
    ensures var log := Run(START, actions).log;
            LostTo(log, k, log[i].token, log[j].token) || LostTo(log, k, log[j].token, log[i].token)
  {
    var w := Run(START, actions);
    Reachable(actions);
    assert EventOk(w, i) && EventOk(w, j);
    var s, t := w.log[i].token, w.log[j].token;
    assert s != t by {
      if i < j { assert w.log[i].Sent? && w.log[j].Sent?; } else { assert w.log[j].Sent? && w.log[i].Sent?; }
    }
    assert LoggedGrant(w.log, k, s) && LoggedGrant(w.log, k, t);
    var g :| 0 <= g < |w.log| && w.log[g].Granted? && w.log[g].key == k && w.log[g].token == s;
    var h :| 0 <= h < |w.log| && w.log[h].Granted? && w.log[h].key == k && w.log[h].token == t;
    if g < h {
      EarlierHolderLost(w, k, g, h, s, t);
    } else {
      EarlierHolderLost(w, k, h, g, t, s);
    }
  }

  /** If every holder whose effect was accepted got to finalize, at most one effect was ever accepted. */
  lemma FinalizedSendersSendOnce(actions: seq<Action>, k: Key, i: int, j: int)
    requires var w := Run(START, actions);
             && Accepted(w.log, i, k) && Accepted(w.log, j, k)
             && forall m :: Accepted(w.log, m, k) ==> FinalizedBy(w.log, k, w.log[m].token)
    ensures i == j
  {
    if i != j {
      DoubleEffectNeedsLostLease(actions, k, i, j);
    }
  }

  /** A run in which one key has two accepted effects: the first holder outlives its lease before finalizing. */
  function SlowSender(req: Request): seq<Action> {
    [Begin(ReserveCall(req, Inserting(0))), Advance(0, 0), Send(0, true), Tick(90),
     Begin(ReserveCall(req, Inserting(0))), Advance(1, 0), Advance(1, 0), Advance(1, 0), Send(1, true)]
  }

  lemma EffectsMayRepeat(req: Request)
    ensures var log := Run(START, SlowSender(req)).log;
            exists i, j :: i != j && Accepted(log, i, req.key) && Accepted(log, j, req.key)
  {
    var a := SlowSender(req);
    var w1 := Step(Step(Step(Step(START, a[0]), a[1]), a[2]), a[3]);
    assert w1.log == [Granted(req.key, 0, 1, 0), Sent(req.key, 0, true, 0)];
    assert w1.table.now == 90 && w1.table.rows[req.key].pendingExpiresAt == Some(90);
    var w2 := Step(Step(Step(w1, a[4]), a[5]), a[6]);
    assert w2.calls[1] == ReserveCall(req, Reclaiming(0, w2.table.rows[req.key]));
    assert Reclaimable(w2.table.rows[req.key], 1, w2.table.now);
    assert ReclaimMatches(w2.table, 1);
    var w3 := Step(Step(w2, a[7]), a[8]);
    assert w3.log == w1.log + [Granted(req.key, 1, 1, 90), Sent(req.key, 1, true, 90)];
    RunThree(START, a[0], a[1], a[2]);
    RunThree(Run(START, [a[0], a[1], a[2]]), a[3], a[4], a[5]);
    RunThree(Run(Run(START, [a[0], a[1], a[2]]), [a[3], a[4], a[5]]), a[6], a[7], a[8]);
    assert a == [a[0], a[1], a[2]] + ([a[3], a[4], a[5]] + [a[6], a[7], a[8]]);
    RunAppend(START, [a[0], a[1], a[2]], [a[3], a[4], a[5]] + [a[6], a[7], a[8]]);
    RunAppend(Run(START, [a[0], a[1], a[2]]), [a[3], a[4], a[5]], [a[6], a[7], a[8]]);
    assert Accepted(w3.log, 1, req.key) && Accepted(w3.log, 3, req.key);
  }
}
