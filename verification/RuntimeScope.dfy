/**
Runtime policies and scopes, and the workflow ids and lock keys built from them. None stands for a
validation error.
*/
module RuntimeScope {
  import opened Prelude
  import opened Text

  datatype Mode = Production | Development

  /** The caller's policy; absent fields are None, and mode and strategy are free text. */
  datatype PolicyInput = PolicyInput(
    mode: Option<string>,
    testRunId: Option<string>,
    scopeStrategy: Option<string>,
    allowRerun: Option<bool>)

  datatype Policy = Policy(
    mode: Mode,
    testRunId: Option<string>,
    scope: string,
    scopeStrategy: string,
    allowRerun: bool)

  const PRODUCTION := "production"
  const DEV := "dev:"

  predicate RunIdChar(c: char) {
    'A' <= c <= 'Z' || 'a' <= c <= 'z' || '0' <= c <= '9' || c == '.' || c == '_' || c == '-'
  }

  predicate AllMatch(p: char -> bool, s: string) {
    forall i :: 0 <= i < |s| ==> p(s[i])
  }

  predicate ValidRunId(s: string) {
    1 <= |s| <= 80 && AllMatch(RunIdChar, s)
  }

  function NormalizeMode(mode: Option<string>): Option<Mode> {
    if mode.None? || mode.value == "production" then Some(Production)
    else if mode.value == "development" then Some(Development)
    else None
  }

  function Default<T>(value: Option<T>, fallback: T): T {
    if value.Some? then value.value else fallback
  }

  const NO_POLICY := PolicyInput(None, None, None, None)

  function NormalizePolicy(input: Option<PolicyInput>): Option<Policy> {
    var i := Default(input, NO_POLICY);
    match NormalizeMode(i.mode)
    case None => None
    case Some(Production) =>
      if Default(i.scopeStrategy, "business") != "business" then None
      else if i.allowRerun == Some(true) then None
      else if i.testRunId.Some? && Trim(i.testRunId.value) != "" then None
      else Some(Policy(Production, None, PRODUCTION, "business", false))
    case Some(Development) =>
      if Default(i.scopeStrategy, "run-scoped") != "run-scoped" then None
      else if i.testRunId.None? || !ValidRunId(Trim(i.testRunId.value)) then None
      else
        var runId := Trim(i.testRunId.value);
        Some(Policy(Development, Some(runId), DEV + runId, "run-scoped", Default(i.allowRerun, true)))
  }

  /** The policies a production run may be started with: everything left out, or said as it is. */
  predicate AsksForProduction(i: PolicyInput) {
    (i.mode.Some? ==> i.mode.value == "production") &&
    (i.scopeStrategy.Some? ==> i.scopeStrategy.value == "business") &&
    i.allowRerun != Some(true) && (i.testRunId.Some? ==> Trim(i.testRunId.value) == "")
  }

  /** And a development run: it names its test run, in 1 to 80 letters, digits, dots, underscores and hyphens. */
  predicate AsksForDevelopment(i: PolicyInput) {
    i.mode.Some? && i.mode.value == "development" &&
    (i.scopeStrategy.Some? ==> i.scopeStrategy.value == "run-scoped") &&
    i.testRunId.Some? && NamesARun(Trim(i.testRunId.value))
  }

  predicate NamesARun(id: string) {
    1 <= |id| <= 80 &&
    forall k :: 0 <= k < |id| ==>
      'a' <= id[k] <= 'z' || 'A' <= id[k] <= 'Z' || '0' <= id[k] <= '9' || id[k] in {'.', '_', '-'}
  }

  lemma ValidRunIds(id: string)
    ensures ValidRunId(id) <==> NamesARun(id)
  {
    if ValidRunId(id) {
      assert forall k :: 0 <= k < |id| ==> RunIdChar(id[k]);
    }
  }

  /** Every other policy is refused, and a development run permits reruns unless it says that it does not. */
  lemma PolicyIsAccepted(i: PolicyInput)
    ensures NormalizePolicy(Some(i)).Some? <==> AsksForProduction(i) || AsksForDevelopment(i)
    ensures AsksForProduction(i) ==>
              NormalizePolicy(Some(i)) == Some(Policy(Production, None, "production", "business", false))
    ensures AsksForDevelopment(i) ==>
              var id := Trim(i.testRunId.value);
              NormalizePolicy(Some(i)) ==
              Some(Policy(Development, Some(id), "dev:" + id, "run-scoped", i.allowRerun != Some(false)))
    ensures NormalizePolicy(None) == Some(Policy(Production, None, "production", "business", false))
  {
    if i.testRunId.Some? { ValidRunIds(Trim(i.testRunId.value)); }
  }

  function NormalizeScope(value: Option<string>): Option<string> {
    if value.None? then Some(PRODUCTION)
    else
      var s := Trim(value.value);
      if s == "" || s == PRODUCTION then Some(PRODUCTION)
      else if DEV <= s && ValidRunId(s[|DEV|..]) then Some(s)
      else None
  }

  /** A missing or blank scope is production's, a development scope names its run, and every other is refused. */
  lemma ScopeIsAccepted(value: string)
    ensures NormalizeScope(None) == Some("production")
    ensures Trim(value) in {"", "production"} ==> NormalizeScope(Some(value)) == Some("production")
    ensures forall id :: Trim(value) == "dev:" + id && NamesARun(id) ==>
              NormalizeScope(Some(value)) == Some("dev:" + id)
    ensures NormalizeScope(Some(value)).Some? ==>
              Trim(value) in {"", "production"} || (|Trim(value)| > 4 && Trim(value)[..4] == "dev:" &&
                                                   NamesARun(Trim(value)[4..]))
  {
    var t := Trim(value);
    if |t| >= 4 { ValidRunIds(t[4..]); }
    forall id | t == "dev:" + id && NamesARun(id) ensures NormalizeScope(Some(value)) == Some("dev:" + id) {
      assert t[4..] == id && t[0] == 'd';
      assert PRODUCTION[0] == 'p';
    }
  }

  /** buildRuntimePolicyFromScope: the policy input to start a workflow with, from a row's scope. */
  function PolicyFromScope(scope: string): Option<Option<PolicyInput>> {
    match NormalizeScope(Some(scope))
    case None => None
    case Some(s) =>
      if s != PRODUCTION && DEV <= s then Some(Some(PolicyInput(Some("development"), Some(s[|DEV|..]), None, None)))
      else Some(None)
  }

  lemma RunIdIsTrimmed(runId: string)
    requires ValidRunId(runId)
    ensures Trim(runId) == runId && Trim(DEV + runId) == DEV + runId
  {
    assert RunIdChar(runId[0]) && RunIdChar(runId[|runId| - 1]);
    assert (DEV + runId)[|DEV + runId| - 1] == runId[|runId| - 1];
  }

  lemma RunScopeIsNormal(runId: string)
    requires ValidRunId(runId)
    ensures NormalizeScope(Some(DEV + runId)) == Some(DEV + runId) && DEV + runId != PRODUCTION
  {
    RunIdIsTrimmed(runId);
    assert (DEV + runId)[|DEV|..] == runId;
    assert (DEV + runId)[0] == 'd' && PRODUCTION[0] == 'p';
  }

  /**
  A sale's scope leads back to the policy it was created under: same mode, run id and scope. The whole
  policy comes back exactly when development runs kept the default permission to rerun completed children.
  */
  lemma ScopeRoundTrip(input: Option<PolicyInput>)
    requires NormalizePolicy(input).Some?
    ensures var p := NormalizePolicy(input).value;
            && NormalizeScope(Some(p.scope)) == Some(p.scope)
            && PolicyFromScope(p.scope).Some?
            && NormalizePolicy(PolicyFromScope(p.scope).value).Some?
            && var q := NormalizePolicy(PolicyFromScope(p.scope).value).value;
               q.mode == p.mode && q.testRunId == p.testRunId && q.scope == p.scope &&
               q.scopeStrategy == p.scopeStrategy
               && (q == p <==> p.mode == Production || p.allowRerun)
  {
    var p := NormalizePolicy(input).value;
    if p.mode == Development {
      RunIdIsTrimmed(p.testRunId.value);
      assert p.scope[|DEV|..] == p.testRunId.value;
    } else {
      assert Trimmed(PRODUCTION);
    }
  }

  /** A normalized policy handed on as input, as the parent does for its children. */
  function AsInput(p: Policy): PolicyInput {
    PolicyInput(Some(if p.mode == Production then "production" else "development"), p.testRunId,
                Some(p.scopeStrategy), Some(p.allowRerun))
  }

  /**
  Normalizing is done once and for all: a normalized policy normalizes to itself, production is exactly
  the production scope and never permits reruns, and a development scope names its run.
  */
  lemma NormalizedPolicyIsFixed(input: Option<PolicyInput>)
    requires NormalizePolicy(input).Some?
    ensures var p := NormalizePolicy(input).value;
            && NormalizePolicy(Some(AsInput(p))) == Some(p)
            && (p.mode == Production <==> p.scope == PRODUCTION)
            && (p.mode == Production ==> p.testRunId == None && !p.allowRerun)
            && (p.mode == Development ==>
              p.testRunId.Some? && ValidRunId(p.testRunId.value) && p.scope == DEV + p.testRunId.value)
  {
    var p := NormalizePolicy(input).value;
    if p.mode == Development {
      RunIdIsTrimmed(p.testRunId.value);
      assert p.scope[0] == 'd' && PRODUCTION[0] == 'p';
    }
  }

  /** Every scope a row can carry is a scope some policy has: rebuilding a policy from it gives it back. */
  lemma ScopeComesBack(value: Option<string>)
    requires NormalizeScope(value).Some?
    ensures var s := NormalizeScope(value).value;
            && NormalizeScope(Some(s)) == Some(s)
            && PolicyFromScope(s).Some? && NormalizePolicy(PolicyFromScope(s).value).Some?
            && NormalizePolicy(PolicyFromScope(s).value).value.scope == s
  {
    var s := NormalizeScope(value).value;
    if s != PRODUCTION {
      RunIdIsTrimmed(s[|DEV|..]);
      assert s == DEV + s[|DEV|..];
    } else {
      assert Trimmed(PRODUCTION);
    }
  }

  // ----- ids -----

  function Decimal(n: nat): (r: string)
    ensures r != ""
  {
    if n < 10 then ['0' + n as char] else Decimal(n / 10) + ['0' + (n % 10) as char]
  }

  lemma {:induction false} DecimalIsDigits(n: nat)
    ensures AllMatch(IsDigit, Decimal(n))
  {
    if n >= 10 {
      DecimalIsDigits(n / 10);
    }
  }

  lemma {:induction false} DecimalIsInjective(m: nat, n: nat)
    requires Decimal(m) == Decimal(n)
    ensures m == n
  {
    var s, t := Decimal(m), Decimal(n);
    assert s[|s| - 1] == '0' + (m % 10) as char && t[|t| - 1] == '0' + (n % 10) as char;
    if m >= 10 && n >= 10 {
      assert s[..|s| - 1] == Decimal(m / 10) && t[..|t| - 1] == Decimal(n / 10);
      DecimalIsInjective(m / 10, n / 10);
    }
  }

  /** The length of the longest run of p characters a text starts with. */
  function Span(p: char -> bool, s: string): (r: nat)
    ensures r <= |s|
  {
    if s == "" || !p(s[0]) then 0 else 1 + Span(p, s[1..])
  }

  lemma {:induction false} SpanFindsTheCut(p: char -> bool, a: string, s: string)
    requires AllMatch(p, a) && (s == "" || !p(s[0]))
    ensures Span(p, a + s) == |a|
  {
    if a == "" {
      assert a + s == s;
    } else {
      assert (a + s)[1..] == a[1..] + s;
      SpanFindsTheCut(p, a[1..], s);
    }
  }

  /** A text is cut in only one way after its longest run of p characters. */
  lemma CutIsUnique(p: char -> bool, a: string, s: string, b: string, t: string)
    requires AllMatch(p, a) && AllMatch(p, b)
    requires (s == "" || !p(s[0])) && (t == "" || !p(t[0]))
    requires a + s == b + t
    ensures a == b && s == t
  {
    SpanFindsTheCut(p, a, s);
    SpanFindsTheCut(p, b, t);
    assert a == (a + s)[..|a|] && b == (b + t)[..|b|];
    assert s == (a + s)[|a|..] && t == (b + t)[|b|..];
  }

  lemma TagIsUnique(tag: string, s: string, t: string)
    requires tag + s == tag + t
    ensures s == t
  {
    assert s == (tag + s)[|tag|..] && t == (tag + t)[|tag|..];
  }

  /** A number written in decimal and what follows it can be read back, as long as no digit follows. */
  lemma NumberIsUnique(m: nat, s: string, n: nat, t: string)
    requires (s == "" || !IsDigit(s[0])) && (t == "" || !IsDigit(t[0]))
    requires Decimal(m) + s == Decimal(n) + t
    ensures m == n && s == t
  {
    DecimalIsDigits(m);
    DecimalIsDigits(n);
    CutIsUnique(IsDigit, Decimal(m), s, Decimal(n), t);
    DecimalIsInjective(m, n);
  }

  /** The part of an id or key that names an attempt on a sale, and what follows it. */
  function AttemptTail(saleId: nat, attempt: nat, rest: string): string {
    Decimal(saleId) + ("/attempt-" + (Decimal(attempt) + rest))
  }

  lemma AttemptTailIsUnique(saleId: nat, attempt: nat, rest: string, saleId': nat, attempt': nat, rest': string)
    requires (rest == "" || !IsDigit(rest[0])) && (rest' == "" || !IsDigit(rest'[0]))
    requires AttemptTail(saleId, attempt, rest) == AttemptTail(saleId', attempt', rest')
    ensures saleId == saleId' && attempt == attempt' && rest == rest'
  {
    var s, t := Decimal(attempt) + rest, Decimal(attempt') + rest';
    NumberIsUnique(saleId, "/attempt-" + s, saleId', "/attempt-" + t);
    TagIsUnique("/attempt-", s, t);
    NumberIsUnique(attempt, rest, attempt', rest');
  }

  function ScopeWorkflowId(base: string, policy: Policy): Option<string> {
    var id := Trim(base);
    if id == "" then None
    else if policy.mode == Production || policy.testRunId.None? then Some(id)
    else Some(id + "/dev/" + policy.testRunId.value)
  }

  datatype Purpose = AutomaticSale | ManualSale

  const ROOT := "nfe-email-dispatch/"

  function Prefix(purpose: Purpose): string {
    match purpose
    case AutomaticSale => ROOT + "process-sale/sale-"
    case ManualSale => ROOT + "manual-process-sale/sale-"
  }

  function SaleBaseId(purpose: Purpose, saleId: nat, attempt: nat): string {
    Prefix(purpose) + AttemptTail(saleId, attempt, "")
  }

  /** The workflow id of one attempt on one sale. */
  function SaleWorkflowId(purpose: Purpose, saleId: nat, attempt: nat, policy: Policy): Option<string> {
    ScopeWorkflowId(SaleBaseId(purpose, saleId, attempt), policy)
  }

  function ScopeSuffix(policy: Policy): string {
    if policy.mode == Production || policy.testRunId.None? then "" else "/dev/" + policy.testRunId.value
  }

  lemma NumberEndsInDigit(n: nat)
    ensures Decimal(n) != "" && IsDigit(Decimal(n)[|Decimal(n)| - 1])
  {
    DecimalIsDigits(n);
  }

  lemma LastOf(s: string, t: string)
    requires t != ""
    ensures s + t != "" && (s + t)[|s + t| - 1] == t[|t| - 1]
  {
  }

  lemma BaseIdEnds(purpose: Purpose, saleId: nat, attempt: nat)
    ensures var base := SaleBaseId(purpose, saleId, attempt);
            base != "" && IsDigit(base[|base| - 1])
  {
    var digits := Decimal(attempt);
    NumberEndsInDigit(attempt);
    assert digits + "" == digits;
    LastOf("/attempt-", digits);
    LastOf(Decimal(saleId), "/attempt-" + digits);
    LastOf(Prefix(purpose), Decimal(saleId) + ("/attempt-" + digits));
  }

  lemma PrefixStarts(purpose: Purpose)
    ensures Prefix(purpose) != "" && Prefix(purpose)[0] == 'n'
  {
    assert ROOT[0] == 'n';
    assert Prefix(purpose)[0] == ROOT[0];
  }

  lemma BaseIdIsTrimmed(purpose: Purpose, saleId: nat, attempt: nat)
    ensures Trim(SaleBaseId(purpose, saleId, attempt)) == SaleBaseId(purpose, saleId, attempt) != ""
  {
    BaseIdEnds(purpose, saleId, attempt);
    PrefixStarts(purpose);
    DigitsDoNotPad(SaleBaseId(purpose, saleId, attempt));
  }

  lemma DigitsDoNotPad(s: string)
    requires s != "" && !IsSpace(s[0]) && IsDigit(s[|s| - 1])
    ensures Trim(s) == s
  {
  }

  lemma Reassociate(a: string, b: string, c: string, d: string, e: string)
    ensures (a + (b + (c + (d + "")))) + e == a + (b + (c + (d + e)))
  {}

  lemma SaleIdShape(purpose: Purpose, saleId: nat, attempt: nat, policy: Policy)
    ensures SaleWorkflowId(purpose, saleId, attempt, policy) ==
            Some(Prefix(purpose) + AttemptTail(saleId, attempt, ScopeSuffix(policy)))
  {
    BaseIdIsTrimmed(purpose, saleId, attempt);
    var base := SaleBaseId(purpose, saleId, attempt);
    Reassociate(Prefix(purpose), Decimal(saleId), "/attempt-", Decimal(attempt), ScopeSuffix(policy));
    assert base + "" == base;
    assert base + "/dev/" + Default(policy.testRunId, "") == base + ("/dev/" + Default(policy.testRunId, ""));
  }

  lemma ScopeIsItsRun(p: Policy, q: Policy, input: Option<PolicyInput>, other: Option<PolicyInput>)
    requires NormalizePolicy(input) == Some(p) && NormalizePolicy(other) == Some(q)
    ensures ScopeSuffix(p) == ScopeSuffix(q) <==> p.scope == q.scope
  {
    if p.mode == Development && q.mode == Development {
      assert p.scope[|DEV|..] == p.testRunId.value && q.scope[|DEV|..] == q.testRunId.value;
      assert ScopeSuffix(p)[5..] == p.testRunId.value && ScopeSuffix(q)[5..] == q.testRunId.value;
    }
    assert p.mode == Development ==> p.scope[0] == 'd';
    assert q.mode == Development ==> q.scope[0] == 'd';
  }

  lemma PurposeIsUnique(purpose: Purpose, s: string, purpose': Purpose, t: string)
    requires Prefix(purpose) + s == Prefix(purpose') + t
    ensures purpose == purpose' && s == t
  {
    assert (Prefix(purpose) + s)[19] == Prefix(purpose)[19];
    assert (Prefix(purpose') + t)[19] == Prefix(purpose')[19];
    TagIsUnique(Prefix(purpose), s, t);
  }

  /** Two sale workflow ids coincide exactly for the same kind of run, sale, attempt and scope. */
  lemma SaleWorkflowIdsAreUnique(purpose: Purpose, saleId: nat, attempt: nat, input: Option<PolicyInput>,
                                 purpose': Purpose, saleId': nat, attempt': nat, input': Option<PolicyInput>)
    ensures NormalizePolicy(input).Some? && NormalizePolicy(input').Some? ==>
              var p, q := NormalizePolicy(input).value, NormalizePolicy(input').value;
              SaleWorkflowId(purpose, saleId, attempt, p) == SaleWorkflowId(purpose', saleId', attempt', q) <==>
              purpose == purpose' && saleId == saleId' && attempt == attempt' && p.scope == q.scope
  {
    if NormalizePolicy(input).Some? && NormalizePolicy(input').Some? {
      var p, q := NormalizePolicy(input).value, NormalizePolicy(input').value;
      SaleIdShape(purpose, saleId, attempt, p);
      SaleIdShape(purpose', saleId', attempt', q);
      ScopeIsItsRun(p, q, input, input');
      var s, t := AttemptTail(saleId, attempt, ScopeSuffix(p)), AttemptTail(saleId', attempt', ScopeSuffix(q));
      if Prefix(purpose) + s == Prefix(purpose') + t {
        PurposeIsUnique(purpose, s, purpose', t);
        AttemptTailIsUnique(saleId, attempt, ScopeSuffix(p), saleId', attempt', ScopeSuffix(q));
      }
    }
  }

  // ----- attempt lock keys -----

  const LOCK_TAG := "nfe-email-dispatch-sale-" + "attempt-lock/sale-"

  /** scopeIdempotencyPartsByScope and join("/") for the attempt lock, from a normalized scope. */
  function LockKey(saleId: nat, attempt: nat, scope: string): string {
    var base := LOCK_TAG + AttemptTail(saleId, attempt, "");
    if scope == PRODUCTION then base else scope + ("/" + base)
  }

  predicate NotSlash(c: char) {
    c != '/'
  }

  lemma ScopeHasNoSlash(scope: string)
    requires NormalizeScope(Some(scope)) == Some(scope) && scope != PRODUCTION
    ensures AllMatch(NotSlash, scope) && scope[0] == 'd'
  {
    forall i | 0 <= i < |scope| ensures NotSlash(scope[i]) {
      if i >= |DEV| {
        assert scope[i] == scope[|DEV|..][i - |DEV|];
        assert RunIdChar(scope[i]);
      }
    }
  }

  /** Two attempt lock keys are the same text only for the same sale, attempt and scope. */
  lemma LockKeysAreUnique(saleId: nat, attempt: nat, scope: string, saleId': nat, attempt': nat, scope': string)
    requires NormalizeScope(Some(scope)) == Some(scope) && NormalizeScope(Some(scope')) == Some(scope')
    requires LockKey(saleId, attempt, scope) == LockKey(saleId', attempt', scope')
    ensures saleId == saleId' && attempt == attempt' && scope == scope'
  {
    var s, t := AttemptTail(saleId, attempt, ""), AttemptTail(saleId', attempt', "");
    if scope != PRODUCTION { ScopeHasNoSlash(scope); }
    if scope' != PRODUCTION { ScopeHasNoSlash(scope'); }
    assert LockKey(saleId, attempt, scope)[0] == (if scope == PRODUCTION then 'n' else 'd');
    assert LockKey(saleId', attempt', scope')[0] == (if scope' == PRODUCTION then 'n' else 'd');
    if scope != PRODUCTION {
      CutIsUnique(NotSlash, scope, "/" + (LOCK_TAG + s), scope', "/" + (LOCK_TAG + t));
      TagIsUnique("/", LOCK_TAG + s, LOCK_TAG + t);
    }
    TagIsUnique(LOCK_TAG, s, t);
    AttemptTailIsUnique(saleId, attempt, "", saleId', attempt', "");
  }
}
