/** How a pair of profiles is decided: ranked rules, the first definite one wins. */
module Decisions {
  import opened Prelude
  import opened Canonical
  import opened Rules
  import opened States

  // ---- Ranking ----

  /** Priority descending, then rule id ascending. */
  predicate Before(a: Rule, b: Rule) {
    a.priority > b.priority || (a.priority == b.priority && Less(a.ruleId, b.ruleId))
  }

  lemma BeforeIsStrict(a: Rule, b: Rule, c: Rule)
    ensures !Before(a, a)
    ensures Before(a, b) && Before(b, c) ==> Before(a, c)
    ensures a.ruleId != b.ruleId ==> Before(a, b) || Before(b, a)
  {
    LessIrreflexive(a.ruleId);
    LessTotal(a.ruleId, b.ruleId);
    if Less(a.ruleId, b.ruleId) && Less(b.ruleId, c.ruleId) {
      LessTransitive(a.ruleId, b.ruleId, c.ruleId);
    }
  }

  ghost predicate Ranked(cand: seq<Rule>) {
    forall i, j :: 0 <= i < j < |cand| ==> Before(cand[i], cand[j])
  }

  ghost predicate IsRanking(cand: seq<Rule>, rules: set<Rule>) {
    Ranked(cand) && forall r :: r in cand <==> r in rules
  }

  ghost predicate DistinctIds(rules: set<Rule>) {
    forall a, b :: a in rules && b in rules && a.ruleId == b.ruleId ==> a == b
  }

  ghost predicate IsFirst(m: Rule, rules: set<Rule>) {
    m in rules && forall r :: r in rules && r != m ==> Before(m, r)
  }

  lemma FirstExists(rules: set<Rule>)
    requires rules != {} && DistinctIds(rules)
    ensures exists m :: IsFirst(m, rules)
  {
    var m := FirstOf(rules);
  }

  lemma FirstOf(rules: set<Rule>) returns (m: Rule)
    requires rules != {} && DistinctIds(rules)
    ensures IsFirst(m, rules)
    decreases |rules|
  {
    var x :| x in rules;
    var rest := rules - {x};
    assert forall r :: r in rules ==> r == x || r in rest;
    if rest == {} {
      m := x;
    } else {
      var n := FirstOf(rest);
      assert n.ruleId != x.ruleId;
      BeforeIsStrict(x, n, n);
      m := if Before(x, n) then x else n;
      forall r | r in rules && r != m ensures Before(m, r) {
        BeforeIsStrict(x, n, r);
        assert r == x || r in rest;
      }
    }
  }

  lemma FirstAndRest(rules: set<Rule>, m: Rule)
    requires IsFirst(m, rules) && DistinctIds(rules)
    ensures DistinctIds(rules - {m}) && |rules - {m}| < |rules|
    ensures forall rest :: IsRanking(rest, rules - {m}) ==> IsRanking([m] + rest, rules)
  {
    hide Before;
    forall rest | IsRanking(rest, rules - {m}) ensures IsRanking([m] + rest, rules) {
      FirstJoins(rules, m, rest);
    }
  }

  lemma FirstJoins(rules: set<Rule>, m: Rule, rest: seq<Rule>)
    requires IsFirst(m, rules) && IsRanking(rest, rules - {m})
    ensures IsRanking([m] + rest, rules)
  {
    hide Before;
    var cand := [m] + rest;
    forall i, j | 0 <= i < j < |cand| ensures Before(cand[i], cand[j]) {
      IsMember(rest, j - 1);
    }
    assert forall r :: r in cand <==> r == m || r in rest;
  }

  /** The rules in the order in which std::sort leaves them, whatever order they were collected in. */
  ghost function Ranking(rules: set<Rule>): (cand: seq<Rule>)
    requires DistinctIds(rules)
    ensures IsRanking(cand, rules)
    decreases |rules|
  {
    if rules == {} then []
    else
      FirstExists(rules);
      var m :| IsFirst(m, rules);
      FirstAndRest(rules, m);
      [m] + Ranking(rules - {m})
  }

  lemma {:induction false} RankingUnique(a: seq<Rule>, b: seq<Rule>, rules: set<Rule>)
    requires IsRanking(a, rules) && IsRanking(b, rules)
    ensures a == b
    decreases |a|
  {
    if a == [] {
      assert rules == {} by { assert forall r :: r in rules ==> r in a; }
      NoMembers(b);
    } else if b == [] {
      assert rules == {} by { assert forall r :: r in rules ==> r in b; }
      NoMembers(a);
    } else {
      assert a[0] in rules && b[0] in rules;
      SameHead(a, b);
      TailRanks(a, rules);
      TailRanks(b, rules);
      RankingUnique(a[1..], b[1..], rules - {a[0]});
      assert a == [a[0]] + a[1..] && b == [b[0]] + b[1..];
    }
  }

  lemma SameHead(a: seq<Rule>, b: seq<Rule>)
    requires Ranked(a) && Ranked(b) && a != [] && b != [] && a[0] in b && b[0] in a
    ensures a[0] == b[0]
  {
    var i :| 0 <= i < |a| && a[i] == b[0];
    var j :| 0 <= j < |b| && b[j] == a[0];
    BeforeIsStrict(a[0], b[0], a[0]);
  }

  lemma TailRanks(a: seq<Rule>, rules: set<Rule>)
    requires IsRanking(a, rules) && a != []
    ensures IsRanking(a[1..], rules - {a[0]})
  {
    BeforeIsStrict(a[0], a[0], a[0]);
    forall r ensures r in a[1..] <==> r in rules && r != a[0] {
      assert a == [a[0]] + a[1..];
      assert r in a[1..] ==> Before(a[0], r);
    }
  }

  // ---- Candidates ----

  const PAIR: Text := Ascii("pair")
  const REQUIREMENT: Text := Ascii("requirement")
  const COUNTERFACTUAL: Text := Ascii("counterfactual")

  function ScopeOf(requirement: bool): Text { if requirement then REQUIREMENT else PAIR }

  predicate Applies(rr: RuleRecord, scopes: set<Text>, l: ProfileKind, r: ProfileKind) {
    && rr.active && rr.rule.scope in scopes
    && (rr.rule.leftKind == None || rr.rule.leftKind == Some(l))
    && (rr.rule.rightKind == None || rr.rule.rightKind == Some(r))
  }

  function Applicable(rules: map<Uuid, RuleRecord>, scopes: set<Text>, l: ProfileKind, r: ProfileKind): set<Rule> {
    set id | id in rules && Applies(rules[id], scopes, l, r) :: rules[id].rule
  }

  /** A rule is filed under its own id. */
  predicate RulesFiled(rules: map<Uuid, RuleRecord>) {
    forall id :: id in rules ==> rules[id].rule.ruleId == id
  }

  lemma ApplicableDistinct(rules: map<Uuid, RuleRecord>, scopes: set<Text>, l: ProfileKind, r: ProfileKind)
    requires RulesFiled(rules)
    ensures DistinctIds(Applicable(rules, scopes, l, r))
  {
  }

  ghost function Candidates(rules: map<Uuid, RuleRecord>, scopes: set<Text>, l: ProfileKind, r: ProfileKind): seq<Rule>
    requires RulesFiled(rules)
  {
    ApplicableDistinct(rules, scopes, l, r);
    Ranking(Applicable(rules, scopes, l, r))
  }

  // ---- Evaluating them ----

  function EvalAll(env: Env, cand: seq<Rule>, l: Side, r: Side): (evals: Result<seq<RuleEval>>)
    ensures evals.Ok? ==> |evals.value| == |cand|
  {
    if cand == [] then Ok([])
    else if EvalRule(env, cand[0], l, r).Err? || EvalAll(env, cand[1..], l, r).Err? then Err
    else Ok([EvalRule(env, cand[0], l, r).value] + EvalAll(env, cand[1..], l, r).value)
  }

  predicate Decides(e: RuleEval) { e.definite && e.outcome != UNKNOWN }

  function Deciding(evals: seq<RuleEval>): (r: seq<RuleEval>)
    ensures forall e :: e in r <==> e in evals && Decides(e)
  {
    if evals == [] then []
    else if Decides(evals[0]) then [evals[0]] + Deciding(evals[1..])
    else Deciding(evals[1..])
  }

  function ConflictNotes(env: Env, others: seq<RuleEval>, outcome: byte): seq<Text> {
    if others == [] then []
    else if others[0].outcome != outcome
    then [env.wording(Conflict(others[0].rule.ruleId, others[0].outcome))] + ConflictNotes(env, others[1..], outcome)
    else ConflictNotes(env, others[1..], outcome)
  }

  predicate AnyMissing(evals: seq<RuleEval>) {
    exists e :: e in evals && e.missing
  }

  function Resolve(env: Env, d: Decision, cand: seq<Rule>, evals: seq<RuleEval>): Decision {
    var definite := Deciding(evals);
    if definite != [] then
      var best := definite[0];
      d.(outcome := best.outcome,
         ruleId := best.rule.ruleId,
         ruleGeneration := best.rule.generation,
         satisfied := best.satisfied,
         failed := best.failed,
         adaptations := best.adaptations,
         missingEvidence := best.missingEvidence,
         provenance := d.provenance + [env.wording(ResolvedBy(best.rule.ruleId, best.rule.priority))]
                       + ConflictNotes(env, definite[1..], best.outcome))
    else
      var named := if cand == [] then d
                   else d.(ruleId := cand[0].ruleId,
                           ruleGeneration := cand[0].generation,
                           provenance := d.provenance + [env.wording(Authoritative(cand[0].ruleId, cand[0].generation))]);
      if AnyMissing(evals)
      then named.(outcome := INSUFFICIENT_EVIDENCE, provenance := named.provenance + [env.wording(EvidenceNotPresent)])
      else named.(outcome := UNKNOWN, provenance := named.provenance + [env.wording(NothingEstablished)])
  }

  /** outcome_name throws on a value that names no outcome, in a conflict note or in the explanation. */
  predicate OutcomesNamed(evals: seq<RuleEval>) {
    var definite := Deciding(evals);
    definite == [] || (definite[0].outcome <= INSUFFICIENT_EVIDENCE &&
                       forall e :: e in definite && e.outcome != definite[0].outcome ==> e.outcome <= INSUFFICIENT_EVIDENCE)
  }

  // ---- Identity and digest ----

  // The field lists below are in tag order, so mk_record leaves them as they are.

  function Wrap(n: nat): u64 { n % TWO_64 }

  function IdTree(left: Uuid, right: Uuid, gen: nat, requirement: bool, policy: Uuid): Canon {
    Record([Field(1, Id(left)), Field(2, Id(right)), Field(3, Uint(Wrap(gen))),
            Field(4, Str(ScopeOf(requirement))), Field(5, Bool(requirement)), Field(6, Id(policy))])
  }

  function DecisionId(env: Env, left: Uuid, right: Uuid, gen: nat, requirement: bool, policy: Uuid): Uuid {
    Fingerprint(env, IdTree(left, right, gen, requirement, policy))[..16]
  }

  function ItemTree(i: Item): Canon {
    Record([Field(1, Str(i.dimension)), Field(2, Str(i.left)), Field(3, Str(i.right)),
            Field(4, Bool(i.satisfied)), Field(5, Str(i.note))])
  }

  function ItemTrees(items: seq<Item>): (r: seq<Canon>)
    ensures |r| == |items|
  {
    seq(|items|, i requires 0 <= i < |items| => ItemTree(items[i]))
  }

  function TextTrees(texts: seq<Text>): (r: seq<Canon>)
    ensures |r| == |texts|
  {
    seq(|texts|, i requires 0 <= i < |texts| => Str(texts[i]))
  }

  /** What compute_digest hashes: neither scope, nor provenance, nor the decision's own id. */
  function DigestTree(d: Decision): Canon {
    Record([Field(1, Id(d.left)), Field(2, Id(d.right)), Field(3, Uint(d.outcome)), Field(4, Id(d.ruleId)),
            Field(5, Uint(Wrap(d.ruleGeneration))), Field(6, Id(d.policyId)), Field(7, Uint(Wrap(d.policyGeneration))),
            Field(8, Uint(Wrap(d.registryGeneration))), Field(9, Bool(d.counterfactual)),
            Field(10, Sequence(ItemTrees(d.satisfied))), Field(11, Sequence(ItemTrees(d.failed))),
            Field(12, Sequence(TextTrees(d.adaptations))), Field(13, Sequence(TextTrees(d.missingEvidence)))])
  }

  function Sealed(env: Env, d: Decision): Decision {
    d.(digest := Fingerprint(env, DigestTree(d)))
  }

  // ---- Decisions ----

  function SideOf(p: Profile): Side { Side(p.kind, p.payload) }

  function Blank(s: State, left: Uuid, right: Uuid, provenance: seq<Text>, counterfactual: bool): Decision {
    Decision(ZERO_UUID, left, right, UNKNOWN, ZERO_UUID, 0, s.policy, 0, [], [], [], [],
             provenance, s.gen, counterfactual, ZERO_DIGEST)
  }

  function ExactDecision(env: Env, d: Decision, l: Profile, r: Profile): Decision {
    d.(outcome := EXACT,
       provenance := d.provenance + [env.wording(IdenticalIdentity)],
       satisfied := [Item(Ascii("canonical_fingerprint"), l.fingerprint, r.fingerprint, true, Ascii("identical"))])
  }

  /** The decision over two active profiles whose fingerprints differ. */
  ghost function ResolveByRules(env: Env, s: State, l: Profile, r: Profile, requirement: bool,
                                d: Decision): Result<Decision>
    requires RulesFiled(s.rules)
  {
    var cand := Candidates(s.rules, {ScopeOf(requirement)}, l.kind, r.kind);
    var evals := EvalAll(env, cand, SideOf(l), SideOf(r));
    if evals.Err? || !OutcomesNamed(evals.value) then Err
    else
      var id := DecisionId(env, d.left, d.right, s.gen, requirement, s.policy);
      Ok(Sealed(env, Resolve(env, d, cand, evals.value).(decisionId := id)))
  }

  /** evaluate_locked; Err where evaluating throws. */
  ghost function Decide(env: Env, s: State, left: Uuid, right: Uuid, requirement: bool): Result<Decision>
    requires RulesFiled(s.rules)
  {
    var d := Blank(s, left, right, [env.wording(RuleResolution)], false);
    var l, r := ActiveProfile(s, left), ActiveProfile(s, right);
    if l.None? || r.None? then Ok(Sealed(env, d))
    else
      var e := d.(left := l.value.id, right := r.value.id);
      if l.value.fingerprint == r.value.fingerprint then Ok(Sealed(env, ExactDecision(env, e, l.value, r.value)))
      else ResolveByRules(env, s, l.value, r.value, requirement, e)
  }

  ghost function Evaluated(env: Env, s: State, left: Uuid, right: Uuid, requirement: bool): (State, Result<Decision>)
    requires RulesFiled(s.rules)
  {
    var d := Decide(env, s, left, right, requirement);
    (if d.Ok? then s.(decisions := s.decisions[d.value.digest := d.value]) else s, d)
  }
}
