/**
Exactly when an effect under a lease can happen again: what a client can still bring about from any
state, and how finalizing in time rules it out.
*/
module LeaseOnce {
  import opened LeaseTable
  import opened LeaseProtocol
  import opened LeaseInvariants
  import opened LeaseTheorems
  import opened LeaseEffects

  predicate Unused(w: World, k: Key, c: nat) {
    MaySend(w, c) && w.calls[c].req.key == k
  }

  /** The row of the key is not final, or some token granted for it has not sent yet. */
  ghost predicate Open(w: World, k: Key) {
    !IsFinal(w.table, k) || exists c: nat :: Unused(w, k, c)
  }

  /** The run brings about a new accepted effect under the key. */
  ghost predicate Sends(w: World, actions: seq<Action>, k: Key) {
    exists j :: |w.log| <= j && Accepted(Run(w, actions).log, j, k)
  }

  // ----- a closed key stays silent -----

  lemma FinalStep(w: World, a: Action, k: Key)
    requires Inv(w) && IsFinal(w.table, k)
    ensures IsFinal(Step(w, a).table, k)
    ensures forall i :: |w.log| <= i < |Step(w, a).log| && Step(w, a).log[i].key == k ==> !Step(w, a).log[i].Granted?
  {
    FinalRowStepKeeps(w, a, k);
    if a.Advance? && a.c < |w.calls| && w.calls[a.c].ReserveCall? && w.calls[a.c].pc.Reclaiming? {
      if ReclaimMatches(w.table, w.calls[a.c].pc.seen.id) {
        ReclaimHitsOwnKey(w, a.c);
      }
    }
  }

  /** A call that holds a reservation of a final row's key held it before, and a used token stays used. */
  lemma UnusedBefore(w: World, a: Action, k: Key, c: nat)
    requires Inv(w) && IsFinal(w.table, k)
    ensures Unused(Step(w, a), k, c) ==> Unused(w, k, c)
  {
    var w' := Step(w, a);
    assert w.log <= w'.log;
    if a.Advance? && a.c < |w.calls| && w.calls[a.c].ReserveCall? && w.calls[a.c].pc.Reclaiming? {
      if ReclaimMatches(w.table, w.calls[a.c].pc.seen.id) {
        ReclaimHitsOwnKey(w, a.c);
      }
    }
  }

  lemma ClosedStep(w: World, a: Action, k: Key)
    requires Inv(w) && !Open(w, k)
    ensures !Open(Step(w, a), k)
    ensures forall j :: |w.log| <= j ==> !Accepted(Step(w, a).log, j, k)
  {
    FinalStep(w, a, k);
    forall c: nat ensures !Unused(Step(w, a), k, c) {
      UnusedBefore(w, a, k, c);
    }
    assert a.Send? ==> !Unused(w, k, a.c);
  }

  lemma {:induction false} FinalBlocksGrants(w: World, actions: seq<Action>, k: Key)
    requires Inv(w) && IsFinal(w.table, k)
    ensures forall i :: |w.log| <= i < |Run(w, actions).log| && Run(w, actions).log[i].key == k ==>
              !Run(w, actions).log[i].Granted?
    decreases |actions|
  {
    if actions != [] {
      FinalStep(w, actions[0], k);
      StepKeeps(w, actions[0]);
      FinalBlocksGrants(Step(w, actions[0]), actions[1..], k);
      LogOnlyGrows(Step(w, actions[0]), actions[1..]);
    }
  }

  lemma {:induction false} ClosedIsSilent(w: World, actions: seq<Action>, k: Key)
    requires Inv(w) && !Open(w, k)
    ensures !Sends(w, actions, k)
    decreases |actions|
  {
    if actions != [] {
      var w' := Step(w, actions[0]);
      ClosedStep(w, actions[0], k);
      StepKeeps(w, actions[0]);
      ClosedIsSilent(w', actions[1..], k);
      LogOnlyGrows(w', actions[1..]);
      forall j | |w.log| <= j ensures !Accepted(Run(w, actions).log, j, k) {
        assert !Accepted(w'.log, j, k);
        assert |w'.log| <= j ==> !Accepted(Run(w', actions[1..]).log, j, k);
      }
    }
  }

  // ----- an open key can send -----

  lemma {:induction false} OnlySendSends(w: World, actions: seq<Action>)
    requires forall i :: 0 <= i < |actions| ==> !actions[i].Send?
    ensures w.log <= Run(w, actions).log
    ensures forall i :: |w.log| <= i < |Run(w, actions).log| ==> !Run(w, actions).log[i].Sent?
    decreases |actions|
  {
    if actions != [] {
      OnlySendSends(Step(w, actions[0]), actions[1..]);
    }
  }

  /** A reserve with the row's own payload hash, after any lease has run out. */
  function TakeOver(w: World, k: Key): seq<Action> {
    var hash := if k in w.table.rows then w.table.rows[k].payloadHash else "";
    [Tick(90), Begin(ReserveCall(Request(k, "", "", hash), Inserting(0)))] + OwnRound(|w.calls|, 0)
  }

  lemma TakeOverBegins(w: World, k: Key)
    requires Inv(w) && !IsFinal(w.table, k)
    ensures var w2 := Step(Step(w, TakeOver(w, k)[0]), TakeOver(w, k)[1]);
            && Run(w, TakeOver(w, k)) == Run(w2, OwnRound(|w.calls|, 0))
            && Inv(w2) && w2.log == w.log && w2.table.rows == w.table.rows &&
            w2.table.now == w.table.now + 90
            && w2.calls == w.calls + [TakeOver(w, k)[1].call]
  {
    var actions, round := TakeOver(w, k), OwnRound(|w.calls|, 0);
    var w1 := Step(w, actions[0]);
    assert actions[1..] == [actions[1]] + round && ([actions[1]] + round)[1..] == round;
    assert Run(w, actions) == Run(w1, [actions[1]] + round);
    StepKeeps(w, actions[0]);
    StepKeeps(w1, actions[1]);
  }

  lemma TakeOverIsGranted(w: World, k: Key)
    requires Inv(w) && !IsFinal(w.table, k)
    ensures Unused(Run(w, TakeOver(w, k)), k, |w.calls|)
    ensures w.log <= Run(w, TakeOver(w, k)).log
  {
    var c := |w.calls|;
    var w2 := Step(Step(w, TakeOver(w, k)[0]), TakeOver(w, k)[1]);
    TakeOverBegins(w, k);
    assert k in w.table.rows ==> RowOk(w.table.rows[k], w.table.now);
    UndisturbedRound(w2, c, 0);
    FreshToken(w2, c);
    OnlySendSends(w2, OwnRound(c, 0));
  }

  lemma OpenCanSend(w: World, k: Key) returns (actions: seq<Action>)
    requires Inv(w) && Open(w, k)
    ensures Sends(w, actions, k)
  {
    var first: seq<Action>, c: nat := [], 0;
    if IsFinal(w.table, k) {
      c :| Unused(w, k, c);
    } else {
      first, c := TakeOver(w, k), |w.calls|;
      TakeOverIsGranted(w, k);
    }
    var w' := Run(w, first);
    actions := first + [Send(c, true)];
    RunAppend(w, first, [Send(c, true)]);
    assert Run(w', [Send(c, true)]) == Step(w', Send(c, true)) by { assert [Send(c, true)][1..] == []; }
    assert Accepted(Run(w, actions).log, |w'.log|, k);
  }

  /**
  From any reachable state, with or without accepted effects under the key so far, another one can be brought
  about if and only if the key's row is not final or some token granted for it has not sent.
  */
  lemma RepeatsExactlyWhileOpen(before: seq<Action>, k: Key)
    ensures Open(Run(START, before), k) <==> exists actions :: Sends(Run(START, before), actions, k)
  {
    var w := Run(START, before);
    Reachable(before);
    if Open(w, k) {
      var actions := OpenCanSend(w, k);
      assert Sends(w, actions, k);
    } else {
      forall actions ensures !Sends(w, actions, k) { ClosedIsSilent(w, actions, k); }
    }
  }

  // ----- finalizing in time -----

  /** Within ninety seconds of its grant, a holder that did not cancel owns its row, or the row is final. */
  lemma HeldInTime(w: World, k: Key, token: nat, g: int)
    requires Inv(w) && GrantAt(w.log, g, k, token)
    requires w.table.now < w.log[g].at + 90 && !CancelledBetween(w.log, g, |w.log|, k, token)
    ensures Owns(w.table, k, token) || IsFinal(w.table, k)
  {
    assert EventOk(w, g);
  }

  /** The action is the finalizing statement of a holder whose lease, uncancelled, has not run out. */
  ghost predicate TimelyUpdate(w: World, a: Action, k: Key, token: nat) {
    && a.Advance? && a.c < |w.calls| && w.calls[a.c].FinalizeCall?
    && w.calls[a.c].key == k && w.calls[a.c].token == token && w.calls[a.c].rpc == Updating
    && exists g :: GrantAt(w.log, g, k, token) && w.table.now < w.log[g].at + 90 &&
                   !CancelledBetween(w.log, g, |w.log|, k, token)
  }

  ghost predicate FinalizesInTime(actions: seq<Action>, k: Key, token: nat) {
    exists n :: 0 <= n < |actions| && TimelyUpdate(Run(START, actions[..n]), actions[n], k, token)
  }

  lemma TimelyUpdateSettles(w: World, a: Action, k: Key, token: nat)
    requires Inv(w) && TimelyUpdate(w, a, k, token)
    ensures IsFinal(Step(w, a).table, k)
    ensures forall i :: |w.log| <= i < |Step(w, a).log| ==> !Step(w, a).log[i].Granted?
  {
    var g :| GrantAt(w.log, g, k, token) && w.table.now < w.log[g].at + 90 &&
             !CancelledBetween(w.log, g, |w.log|, k, token);
    HeldInTime(w, k, token, g);
    assert CallOk(w, w.calls[a.c]);
  }

  lemma RunSplits(actions: seq<Action>, n: nat)
    requires n < |actions|
    ensures Run(START, actions) == Run(Step(Run(START, actions[..n]), actions[n]), actions[n + 1..])
  {
    assert actions == actions[..n] + actions[n..];
    RunAppend(START, actions[..n], actions[n..]);
    assert actions[n..][1..] == actions[n + 1..];
  }

  lemma NoGrantAfter(w: World, a: Action, rest: seq<Action>, k: Key, s: nat, t: nat, h: int)
    requires Inv(w) && TimelyUpdate(w, a, k, s) && GrantAt(Run(Step(w, a), rest).log, h, k, t)
    ensures h < |w.log| && w.log <= Run(Step(w, a), rest).log
  {
    StepKeeps(w, a);
    TimelyUpdateSettles(w, a, k, s);
    FinalBlocksGrants(Step(w, a), rest, k);
    LogOnlyGrows(Step(w, a), rest);
  }

  /** Once a holder has finalized in time, no later grant of its key ever follows its own. */
  lemma TimelyIsLast(actions: seq<Action>, k: Key, s: nat, t: nat, g: int, h: int)
    requires FinalizesInTime(actions, k, s)
    requires var log := Run(START, actions).log;
             GrantAt(log, g, k, s) && GrantAt(log, h, k, t)
    ensures h <= g
  {
    var n :| 0 <= n < |actions| && TimelyUpdate(Run(START, actions[..n]), actions[n], k, s);
    RunSplits(actions, n);
    Reachable(actions[..n]);
    Reachable(actions);
    var w := Run(START, actions[..n]);
    NoGrantAfter(w, actions[n], actions[n + 1..], k, s, t, h);
    EarlierGrants(w, k, s, t, g, h, Run(START, actions).log);
  }

  lemma EarlierGrants(w: World, k: Key, s: nat, t: nat, g: int, h: int, log: seq<Event>)
    requires Inv(w) && w.log <= log && TokensOnce(log) && GrantAt(log, g, k, s) && GrantAt(log, h, k, t) && h < |w.log|
    requires exists g' :: GrantAt(w.log, g', k, s) && w.table.now < w.log[g'].at + 90 &&
                          !CancelledBetween(w.log, g', |w.log|, k, s)
    ensures h <= g
  {
    var g' :| GrantAt(w.log, g', k, s) && w.table.now < w.log[g'].at + 90 &&
              !CancelledBetween(w.log, g', |w.log|, k, s);
    assert log[g'] == w.log[g'] && g' == g;
    assert EventOk(w, h);
    CancelsBefore(w.log, g, h, k, s);
  }

  lemma CancelsBefore(log: seq<Event>, i: int, j: int, k: Key, token: nat)
    ensures CancelledBetween(log, i, j, k, token) ==> CancelledBetween(log, i, |log|, k, token)
  {
    if CancelledBetween(log, i, j, k, token) {
      var m :| 0 <= i < m < j <= |log| && log[m].Cancelled? && log[m].key == k && log[m].token == token;
    }
  }

  lemma SenderWasGranted(w: World, k: Key, i: int) returns (g: int)
    requires Inv(w) && Accepted(w.log, i, k)
    ensures GrantAt(w.log, g, k, w.log[i].token)
  {
    assert EventOk(w, i);
    assert LoggedGrant(w.log, k, w.log[i].token);
    g :| 0 <= g < |w.log| && w.log[g].Granted? && w.log[g].key == k && w.log[g].token == w.log[i].token;
  }

  /** If every holder whose effect was accepted finalizes in time, at most one effect is accepted in the whole run. */
  lemma TimelySendersSendOnce(actions: seq<Action>, k: Key, i: int, j: int)
    requires var log := Run(START, actions).log;
             && Accepted(log, i, k) && Accepted(log, j, k)
             && forall m :: Accepted(log, m, k) ==> FinalizesInTime(actions, k, log[m].token)
    ensures i == j
  {
    var w := Run(START, actions);
    Reachable(actions);
    var g := SenderWasGranted(w, k, i);
    var h := SenderWasGranted(w, k, j);
    TimelyIsLast(actions, k, w.log[i].token, w.log[j].token, g, h);
    TimelyIsLast(actions, k, w.log[j].token, w.log[i].token, h, g);
    OneSendEach(w.log, i, j);
  }

  lemma OneSendEach(log: seq<Event>, i: int, j: int)
    requires TokensOnce(log) && 0 <= i < |log| && 0 <= j < |log| && log[i].Sent? && log[j].Sent?
    ensures log[i].token == log[j].token ==> i == j
  {
  }
}
