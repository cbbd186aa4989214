/** Short complete runs and inputs on which the code falls short of its documentation. */
module Instances {
  import opened Prelude
  import opened Canonical
  import opened Records
  import Versions
  import opened Rules
  import opened Graphs
  import opened States
  import opened Decisions
  import opened Counterfactuals
  import opened Resolution
  import opened Runs
  import opened Replays
  import opened Agreement
  import opened Documents
  import opened Sizes
  import opened Snapshots
  import opened Recovery
  import opened Continuity
  import opened Unrecoverable
  import C = Coordination

  // ---- Two profiles, one depending on the other ----

  function PairCalls(env: Env, a: Uuid, b: Uuid, p: Canon, q: Canon): seq<Op> {
    [Register(Rec(env, a, 1, p, [], true)), Register(Rec(env, b, 1, q, [a], true))]
  }

  function Single(env: Env, a: Uuid, p: Canon): State {
    INITIAL.(profiles := map[a := [Rec(env, a, 1, p, [], true)]], gen := 1)
  }

  function Pair(env: Env, a: Uuid, b: Uuid, p: Canon, q: Canon): State {
    INITIAL.(profiles := map[a := [Rec(env, a, 1, p, [], true)], b := [Rec(env, b, 1, q, [a], true)]],
             deps := map[b := [a]], gen := 2)
  }

  lemma PairIsReached(env: Env, a: Uuid, b: Uuid, p: Canon, q: Canon)
    requires a != b
    ensures var ops := PairCalls(env, a, b, p, q);
            && Step(env, INITIAL, ops[0], Single(env, a, p)) && Step(env, Single(env, a, p), ops[1], Pair(env, a, b, p, q))
            && !Refused(INITIAL, ops[0], env) && !Refused(Single(env, a, p), ops[1], env)
    ensures Kept(env, Pair(env, a, b, p, q))
  {
    hide FingerprintHex, Cyclic, RegisterProfile, Kept;
    var ops := PairCalls(env, a, b, p, q);
    AllDoneIsAcyclic(INITIAL.deps, []);
    NewRegistration(env, INITIAL, ops[0].given);
    NewRegistration(env, Single(env, a, p), ops[1].given);
    InitialKept(env);
    StepKeeps(env, INITIAL, ops[0], Single(env, a, p));
    StepKeeps(env, Single(env, a, p), ops[1], Pair(env, a, b, p, q));
  }

  lemma PairIsActive(env: Env, s: State, a: Uuid, b: Uuid, p: Canon, q: Canon)
    requires a != b && s.profiles == Pair(env, a, b, p, q).profiles
    ensures ActiveProfile(s, a) == Some(Rec(env, a, 1, p, [], true))
    ensures ActiveProfile(s, b) == Some(Rec(env, b, 1, q, [a], true))
    ensures FingerprintHex(env, p) != FingerprintHex(env, q) ==>
              RuleResolved(s, a, b) && LeftSide(s, a, b) == Side(0, p) && RightSide(s, a, b) == Side(0, q)
  {
    hide FingerprintHex;
  }

  lemma NoRulesDecide(env: Env, s: State, a: Uuid, b: Uuid, requirement: bool)
    requires s.rules == map[] && RuleResolved(s, a, b)
    ensures RulesFor(s, a, b, requirement) == {} && Decide(env, s, a, b, requirement).Ok?
  {
    hide Decide, RuleResolved;
    DecidesIfAllHarmless(env, s, a, b, requirement);
  }

  // ---- A decision lost to a refused call ----

  function RefusalCalls(env: Env, a: Uuid, b: Uuid): seq<Op> {
    PairCalls(env, a, b, OLD, NEW)
    + [Evaluate(a, b, false), Register(Rec(env, a, 1, OLD, [b], true)), Evaluate(a, b, false)]
  }

  ghost function RefusalStates(env: Env, a: Uuid, b: Uuid): seq<State>
    requires a != b
  {
    var s2 := Pair(env, a, b, OLD, NEW);
    var s3 := Evaluated(env, s2, a, b, false).0;
    var s4 := RegisterProfile(env, s3, Rec(env, a, 1, OLD, [b], true)).0;
    [INITIAL, Single(env, a, OLD), s2, s3, s4, Evaluated(env, s4, a, b, false).0]
  }

  lemma PairCloses(env: Env, a: Uuid, b: Uuid)
    requires a != b
    ensures ClosesCycle(map[b := [a]], a, [b])
  {
    NothingWithout([b], a);
    var g := map[b := [a]][a := [b]];
    assert b in Out(g, a) && a in Out(g, b);
    assert Cycle(g, [a, b, a]);
    CycleIsCyclic(g, [a, b, a]);
  }

  lemma RegisterRefused(env: Env, a: Uuid, b: Uuid, s: State)
    requires a != b && s.profiles == Pair(env, a, b, OLD, NEW).profiles && s.deps == map[b := [a]]
    ensures Refused(s, Register(Rec(env, a, 1, OLD, [b], true)), env)
  {
    hide FingerprintHex, ClosesCycle;
    PairCloses(env, a, b);
    assert Last(s.profiles[a]).deps == [];
    assert [b] != [];
  }

  /** The pair decision that the third call returned is gone from the cache after the fifth. */
  lemma RefusalInstance(env: Env, a: Uuid, b: Uuid) returns (d: Decision)
    requires a != b && FingerprintHex(env, OLD) != FingerprintHex(env, NEW)
    ensures var states, ops := RefusalStates(env, a, b), RefusalCalls(env, a, b);
            && Run(env, states, ops) && Refused(states[3], ops[3], env)
            && Made(env, states[2], ops[2], d) && !Cached(states[5], d)
  {
    hide FingerprintHex, Decide, RegisterProfile, Refused, Kept, RuleResolved, RulesFor, ActiveProfile;
    var states, ops := RefusalStates(env, a, b), RefusalCalls(env, a, b);
    PairIsReached(env, a, b, OLD, NEW);
    PairIsActive(env, states[2], a, b, OLD, NEW);
    NoRulesDecide(env, states[2], a, b, false);
    d := Decide(env, states[2], a, b, false).value;
    RegisterRefused(env, a, b, states[3]);
    RefusedRetires(env, states[3], ops[3], states[4]);
    forall i | 0 <= i < |ops| ensures Step(env, states[i], ops[i], states[i + 1]) {
      assert i == 0 || i == 1 || i == 2 || i == 3 || i == 4;
    }
    RunKeeps(env, states, ops, 4);
    AbsentUnresolved(states[4], a, b);
    var e := DisplacingReturns(env, states[2], ops[2], states[4], ops[4]);
    DisplacingDecides(env, states[2], ops[2], d, states[4], ops[4], e);
  }

  lemma AbsentUnresolved(s: State, a: Uuid, b: Uuid)
    requires ActiveProfile(s, a) == None
    ensures !RuleResolved(s, a, b)
  {
  }

  // ---- A decision lost to a requirement ----

  function RequirementCalls(env: Env, a: Uuid, b: Uuid): seq<Op> {
    PairCalls(env, a, b, OLD, NEW) + [Evaluate(a, b, false), Evaluate(a, b, true)]
  }

  ghost function RequirementStates(env: Env, a: Uuid, b: Uuid): seq<State>
    requires a != b
  {
    var s2 := Pair(env, a, b, OLD, NEW);
    var s3 := Evaluated(env, s2, a, b, false).0;
    [INITIAL, Single(env, a, OLD), s2, s3, Evaluated(env, s3, a, b, true).0]
  }

  /** Evaluating the same two profiles as a requirement takes the place of the pair decision. */
  lemma RequirementInstance(env: Env, a: Uuid, b: Uuid) returns (d: Decision)
    requires a != b && FingerprintHex(env, OLD) != FingerprintHex(env, NEW)
    requires DecisionId(env, a, b, 2, false, ZERO_UUID) != DecisionId(env, a, b, 2, true, ZERO_UUID)
    ensures var states, ops := RequirementStates(env, a, b), RequirementCalls(env, a, b);
            && Run(env, states, ops) && (forall i :: 0 <= i < 4 ==> !Refused(states[i], ops[i], env))
            && Made(env, states[2], ops[2], d) && !Cached(states[4], d)
  {
    hide FingerprintHex, Decide, RegisterProfile, Kept, RuleResolved, RulesFor, DecisionId, ActiveProfile;
    var states, ops := RequirementStates(env, a, b), RequirementCalls(env, a, b);
    PairIsReached(env, a, b, OLD, NEW);
    PairIsActive(env, states[2], a, b, OLD, NEW);
    PairIsActive(env, states[3], a, b, OLD, NEW);
    NoRulesDecide(env, states[2], a, b, false);
    NoRulesDecide(env, states[3], a, b, true);
    d := Decide(env, states[2], a, b, false).value;
    forall i | 0 <= i < |ops| ensures Step(env, states[i], ops[i], states[i + 1]) && !Refused(states[i], ops[i], env) {
      assert i == 0 || i == 1 || i == 2 || i == 3;
    }
    RunKeeps(env, states, ops, 3);
    var e := DisplacingReturns(env, states[2], ops[2], states[3], ops[3]);
    DisplacingDecides(env, states[2], ops[2], d, states[3], ops[3], e);
  }

  // ---- A refused call without effect ----

  /** What is refused under a new id leaves nothing behind: here x would depend on a, which already depends on x. */
  lemma NewIdRefused(env: Env, a: Uuid, x: Uuid)
    requires a != x
    ensures var s := INITIAL.(profiles := map[a := [Rec(env, a, 1, OLD, [x], true)]], deps := map[a := [x]], gen := 1);
            var op := Register(Rec(env, x, 1, OLD, [a], true));
            && Step(env, INITIAL, Register(Rec(env, a, 1, OLD, [x], true)), s)
            && Refused(s, op, env) && Step(env, s, op, s)
  {
    hide FingerprintHex, ClosesCycle, Cyclic;
    var s := INITIAL.(profiles := map[a := [Rec(env, a, 1, OLD, [x], true)]], deps := map[a := [x]], gen := 1);
    AllDoneIsAcyclic(INITIAL.deps, []);
    NewRegistration(env, INITIAL, Rec(env, a, 1, OLD, [x], true));
    PairCloses(env, x, a);
  }

  // ---- Rules over one field ----

  // The name that the table of the Model kind has for tag 1.
  const FIELD: Text := Ascii("model_id")

  const PLAIN: Rule := Rule(ZERO_UUID, 0, [], PAIR, 0, 0, None, None, [], [], [], [], [], COMPATIBLE, [])

  function Over(op: byte, name: Text): Constraint { Constraint(op, name, [], Null, Null, [], []) }

  lemma FieldIsFirst(env: Env, v: Canon)
    requires env.tagFor(0, FIELD) == Some(1)
    ensures ResolveField(env, Side(0, Record([Field(1, v)])), FIELD) == Some(v)
  {
    FieldHead();
  }

  /** An empty name never resolves. */
  lemma NamelessIsUnknown(env: Env, op: byte, l: Side, r: Side)
    ensures !Known(env, Over(op, []), l, r)
  {
  }

  // ---- A low rule that throws ----

  const WORDY: Canon := Record([Field(1, Str([]))])

  /** Wins without constraints. */
  function Winner(id: Uuid): Rule { PLAIN.(ruleId := id, priority := 1) }

  /** Ranked below it, and asks for a minimum of a text. */
  function Thrower(id: Uuid): Rule { PLAIN.(ruleId := id, required := [Over(OP_MIN, FIELD)]) }

  lemma WinnerConcludes(env: Env, rule: Rule, l: Side, r: Side)
    requires rule.required == rule.anyOf == rule.incompatibleWith == [] && rule.kind == 0
    ensures EvalRule(env, rule, l, r).Ok?
    ensures ConclusionOf(env, rule, l, r) == Conclusion(true, rule.outcome)
  {
  }

  lemma ThrowerThrows(env: Env, rule: Rule, l: Side, r: Side)
    requires rule.required == [Over(OP_MIN, FIELD)] && rule.incompatibleWith == []
    requires ResolveField(env, l, FIELD) == Some(Str([]))
    ensures EvalRule(env, rule, l, r).Err?
  {
    hide ResolveField;
    var c := Over(OP_MIN, FIELD);
    assert Known(env, c, l, r) && Rules.Evaluate(env, c, l, r).Err?;
  }

  /** Evaluation succeeds with the first rule alone, and throws once the second, ranked below it, is registered too. */
  lemma LowerRuleInstance(env: Env, a: Uuid, b: Uuid, v: Uuid, w: Uuid)
    requires a != b && v != w && env.tagFor(0, FIELD) == Some(1) && FingerprintHex(env, WORDY) != FingerprintHex(env, OLD)
    ensures var s := RegisterRule(Pair(env, a, b, WORDY, OLD), Winner(v));
            var t := RegisterRule(s, Thrower(w));
            && Kept(env, s) && Kept(env, t)
            && Decide(env, s, a, b, false).Ok? && Decide(env, s, a, b, false).value.outcome == COMPATIBLE
            && Decide(env, t, a, b, false).Err?
  {
    hide FingerprintHex, Decide, Kept, ConclusionOf, EvalRule, ResolveField, RuleResolved;
    var pair := Pair(env, a, b, WORDY, OLD);
    var s := RegisterRule(pair, Winner(v));
    var t := RegisterRule(s, Thrower(w));
    PairIsReached(env, a, b, WORDY, OLD);
    KeptIsFiled(env, pair);
    StepKeeps(env, pair, AddRule(Winner(v)), s);
    KeptIsFiled(env, s);
    StepKeeps(env, s, AddRule(Thrower(w)), t);
    PairIsActive(env, pair, a, b, WORDY, OLD);
    PairIsActive(env, s, a, b, WORDY, OLD);
    PairIsActive(env, t, a, b, WORDY, OLD);
    var l, r := Side(0, WORDY), Side(0, OLD);
    FieldIsFirst(env, Str([]));
    OneRuleFor(s, a, b, v);
    WinnerConcludes(env, s.rules[v].rule, l, r);
    DecidesIfAllHarmless(env, s, a, b, false);
    WinnerAlone(env, s, a, b, v);
    KeptIsFiled(env, t);
    DecidesIfAllHarmless(env, t, a, b, false);
    ThrowerThrows(env, t.rules[w].rule, l, r);
    assert t.rules[w].rule in RulesFor(t, a, b, false);
  }

  lemma KeptIsFiled(env: Env, s: State)
    requires Kept(env, s)
    ensures RulesFiled(s.rules)
  {
  }

  lemma OneRuleFor(s: State, a: Uuid, b: Uuid, v: Uuid)
    requires RuleResolved(s, a, b) && s.rules.Keys == {v}
    requires Applies(s.rules[v], {PAIR}, LeftSide(s, a, b).kind, RightSide(s, a, b).kind)
    ensures RulesFor(s, a, b, false) == {s.rules[v].rule}
  {
  }

  lemma WinnerAlone(env: Env, s: State, a: Uuid, b: Uuid, v: Uuid)
    requires RulesFiled(s.rules) && RuleResolved(s, a, b) && v in s.rules && RulesFor(s, a, b, false) == {s.rules[v].rule}
    requires Decide(env, s, a, b, false).Ok?
    requires Speaks(env, s.rules[v].rule, LeftSide(s, a, b), RightSide(s, a, b))
    ensures Decide(env, s, a, b, false).value.outcome
            == ConclusionOf(env, s.rules[v].rule, LeftSide(s, a, b), RightSide(s, a, b)).outcome
  {
    hide Decide, ConclusionOf, EvalRule, RuleResolved, RulesFor;
    var w, l, r := s.rules[v].rule, LeftSide(s, a, b), RightSide(s, a, b);
    BeforeIsStrict(w, w, w);
    assert Wins(env, {w}, l, r, w);
    DecisionIsWinners(env, s, a, b, false);
    EvalRuleConcludes(env, w, l, r);
  }

  // ---- Missing evidence that is not named ----

  /** Only an alternative is undecided: the rule lacks evidence and names none. */
  lemma AlternativeUnnamed(env: Env, id: Uuid, l: Side, r: Side)
    ensures var e := EvalRule(env, PLAIN.(ruleId := id, anyOf := [Over(OP_TRUTHY, [])]), l, r);
            e.Ok? && e.value.outcome == INSUFFICIENT_EVIDENCE && e.value.missingEvidence == []
  {
    hide Known;
    var c := Over(OP_TRUTHY, []);
    NamelessIsUnknown(env, OP_TRUTHY, l, r);
    var start := RuleEval(PLAIN.(ruleId := id, anyOf := [c]), false, false, UNKNOWN, [], [], [], []);
    assert [c][1..] == [];
    assert ScanAny(env, [c], l, r, start, false) == ScanAny(env, [], l, r, start, true) == Ok((start, false, true));
  }

  /** An incompatibility is undecided, and the only alternative is known not to hold. */
  function Unheard(id: Uuid): Rule {
    PLAIN.(ruleId := id, incompatibleWith := [Over(OP_TRUTHY, [])], anyOf := [Over(OP_TRUTHY, FIELD)])
  }

  lemma UnheardNames(env: Env, rule: Rule, l: Side, r: Side)
    requires rule.incompatibleWith == [Over(OP_TRUTHY, [])] && rule.required == [] && rule.anyOf == [Over(OP_TRUTHY, FIELD)]
    requires ResolveField(env, l, FIELD) == Some(Null)
    ensures EvalRule(env, rule, l, r).Ok?
    ensures var e := EvalRule(env, rule, l, r).value;
            !e.definite && e.missing && e.outcome == UNKNOWN && e.missingEvidence == [[]]
  {
    hide ResolveField, Known;
    var c, d := Over(OP_TRUTHY, []), Over(OP_TRUTHY, FIELD);
    NamelessIsUnknown(env, OP_TRUTHY, l, r);
    FieldFails(env, l, r);
    var start := RuleEval(rule, false, false, UNKNOWN, [], [], [], []);
    var e1 := Missing(start, c);
    assert [c][1..] == [] && [d][1..] == [] && e1.missingEvidence == [[]];
    assert ScanIncompatible(env, [c], l, r, start) == ScanIncompatible(env, [], l, r, e1) == Ok((e1, false));
    var e2 := e1.(failed := e1.failed + [ItemOf(d, Rules.Evaluate(env, d, l, r).value, false)]);
    assert ScanAny(env, [d], l, r, e1, false) == ScanAny(env, [], l, r, e2, false) == Ok((e2, false, false));
  }

  lemma FieldFails(env: Env, l: Side, r: Side)
    requires ResolveField(env, l, FIELD) == Some(Null)
    ensures var d := Over(OP_TRUTHY, FIELD);
            Known(env, d, l, r) && Rules.Evaluate(env, d, l, r).Ok? && !Rules.Evaluate(env, d, l, r).value.holds
  {
    hide ResolveField;
  }

  /** The rule named a missing field; the decision is for want of evidence and names none. */
  lemma UnheardInstance(env: Env, a: Uuid, b: Uuid, w: Uuid)
    requires a != b && env.tagFor(0, FIELD) == Some(1) && FingerprintHex(env, NEW) != FingerprintHex(env, OLD)
    ensures var s := RegisterRule(Pair(env, a, b, NEW, OLD), Unheard(w));
            && Kept(env, s)
            && Decide(env, s, a, b, false).Ok?
            && Decide(env, s, a, b, false).value.outcome == INSUFFICIENT_EVIDENCE
            && Decide(env, s, a, b, false).value.missingEvidence == []
            && EvalRule(env, s.rules[w].rule, Side(0, NEW), Side(0, OLD)).Ok?
            && EvalRule(env, s.rules[w].rule, Side(0, NEW), Side(0, OLD)).value.missingEvidence != []
  {
    hide FingerprintHex, Kept, ConclusionOf, EvalRule, ResolveField, RuleResolved, Decide;
    var pair := Pair(env, a, b, NEW, OLD);
    var s := RegisterRule(pair, Unheard(w));
    PairIsReached(env, a, b, NEW, OLD);
    KeptIsFiled(env, pair);
    StepKeeps(env, pair, AddRule(Unheard(w)), s);
    KeptIsFiled(env, s);
    PairIsActive(env, s, a, b, NEW, OLD);
    FieldIsFirst(env, Null);
    OneRuleFor(s, a, b, w);
    UnheardNames(env, s.rules[w].rule, Side(0, NEW), Side(0, OLD));
    EvalRuleConcludes(env, s.rules[w].rule, Side(0, NEW), Side(0, OLD));
    DecidesIfAllHarmless(env, s, a, b, false);
    DecisionIsWinners(env, s, a, b, false);
    OnlyMissing(env, s, a, b, w);
  }

  /** Its only clause is an incompatibility that cannot be decided. */
  function Unchecked(id: Uuid): Rule { PLAIN.(ruleId := id, incompatibleWith := [Over(OP_TRUTHY, [])]) }

  lemma UncheckedFavours(env: Env, rule: Rule, l: Side, r: Side)
    requires rule.incompatibleWith == [Over(OP_TRUTHY, [])] && rule.required == rule.anyOf == []
    requires rule.kind == 0 && rule.outcome == COMPATIBLE
    ensures EvalRule(env, rule, l, r).Ok? && Speaks(env, rule, l, r)
    ensures var e := EvalRule(env, rule, l, r).value; e.outcome == COMPATIBLE && e.missingEvidence == [[]]
  {
    hide Known, Rules.Evaluate;
    var c := Over(OP_TRUTHY, []);
    NamelessIsUnknown(env, OP_TRUTHY, l, r);
    var start := RuleEval(rule, false, false, UNKNOWN, [], [], [], []);
    var e1 := Missing(start, c);
    assert [c][1..] == [] && e1.missingEvidence == [[]];
    assert ScanIncompatible(env, [c], l, r, start) == ScanIncompatible(env, [], l, r, e1) == Ok((e1, false));
  }

  /** Missing evidence turns into compatibility: what would make the two incompatible cannot be looked up, and they are Compatible. */
  lemma MissingIsCompatible(env: Env, a: Uuid, b: Uuid, w: Uuid)
    requires a != b && FingerprintHex(env, NEW) != FingerprintHex(env, OLD)
    ensures var s := RegisterRule(Pair(env, a, b, NEW, OLD), Unchecked(w));
            && Kept(env, s)
            && Decide(env, s, a, b, false).Ok?
            && Decide(env, s, a, b, false).value.outcome == COMPATIBLE
            && Decide(env, s, a, b, false).value.missingEvidence == [[]]
  {
    hide FingerprintHex, Kept, ConclusionOf, EvalRule, RuleResolved, Decide, AllKnown, RuleThrows, Lacks;
    var pair := Pair(env, a, b, NEW, OLD);
    var s := RegisterRule(pair, Unchecked(w));
    PairIsReached(env, a, b, NEW, OLD);
    KeptIsFiled(env, pair);
    StepKeeps(env, pair, AddRule(Unchecked(w)), s);
    KeptIsFiled(env, s);
    PairIsActive(env, s, a, b, NEW, OLD);
    OneRuleFor(s, a, b, w);
    UncheckedFavours(env, s.rules[w].rule, Side(0, NEW), Side(0, OLD));
    EvalRuleConcludes(env, s.rules[w].rule, Side(0, NEW), Side(0, OLD));
    DecidesIfAllHarmless(env, s, a, b, false);
    BeforeIsStrict(s.rules[w].rule, s.rules[w].rule, s.rules[w].rule);
    assert Wins(env, {s.rules[w].rule}, Side(0, NEW), Side(0, OLD), s.rules[w].rule);
    DecisionIsWinners(env, s, a, b, false);
  }

  /** With one applicable rule that does not speak but lacked evidence, the decision is for want of evidence. */
  lemma OnlyMissing(env: Env, s: State, a: Uuid, b: Uuid, w: Uuid)
    requires RulesFiled(s.rules) && RuleResolved(s, a, b) && w in s.rules && RulesFor(s, a, b, false) == {s.rules[w].rule}
    requires var e := EvalRule(env, s.rules[w].rule, LeftSide(s, a, b), RightSide(s, a, b));
             e.Ok? && !e.value.definite && e.value.missing
    ensures Decide(env, s, a, b, false).Ok? && Decide(env, s, a, b, false).value.outcome == INSUFFICIENT_EVIDENCE
  {
    hide EvalRule, ConclusionOf, DecisionId, DigestTree;
    var rule, l, r := s.rules[w].rule, LeftSide(s, a, b), RightSide(s, a, b);
    ApplicableDistinct(s.rules, {ScopeOf(false)}, l.kind, r.kind);
    var cand := Candidates(s.rules, {ScopeOf(false)}, l.kind, r.kind);
    assert Ranked(cand) && forall o :: o in cand <==> o in {rule};
    OneRanked(cand, rule);
    OneEvaluated(env, rule, l, r);
    var e := EvalRule(env, rule, l, r).value;
    assert [e][1..] == [] && Deciding([e]) == [];
    assert e in [e];
  }

  lemma OneEvaluated(env: Env, rule: Rule, l: Side, r: Side)
    requires EvalRule(env, rule, l, r).Ok?
    ensures EvalAll(env, [rule], l, r) == Ok([EvalRule(env, rule, l, r).value])
  {
    hide EvalRule;
    assert [rule][1..] == [];
    assert EvalAll(env, [rule][1..], l, r) == Ok([]);
    assert [EvalRule(env, rule, l, r).value] + [] == [EvalRule(env, rule, l, r).value];
  }

  lemma OneRanked(cand: seq<Rule>, rule: Rule)
    requires Ranked(cand) && forall o :: o in cand <==> o == rule
    ensures cand == [rule]
  {
    RankingUnique(cand, [rule], {rule});
  }

  // ---- Identity that is not foretold ----

  const ODD: Canon := Record([Field(1, Bool(true))])

  /** Editing the one field makes the second profile equal to the first: reality is then Exact, and the counterfactual is not. */
  lemma IdentityInstance(env: Env, a: Uuid, b: Uuid)
    requires a != b && env.tagFor(0, FIELD) == Some(1) && FingerprintHex(env, NEW) != FingerprintHex(env, ODD)
    ensures var s := Pair(env, a, b, NEW, ODD);
            var t := AfterEdits(env, s, a, b, Rec(env, a, 1, NEW, [], true), Rec(env, b, 1, NEW, [a], true)).0;
            var c := DecideCounterfactual(env, s, a, b, [Edit(FIELD, Null)]);
            && Kept(env, s) && RulesFiled(t.rules)
            && Decide(env, t, a, b, false).Ok? && Decide(env, t, a, b, false).value.outcome == EXACT
            && !(c.Ok? && c.value.outcome == EXACT)
  {
    hide FingerprintHex, Kept, AfterEdits, Decide, DecideCounterfactual, ApplyEdits, ActiveProfile, ConclusionOf, EvalRule;
    var s := Pair(env, a, b, NEW, ODD);
    var l, r, r2 := Rec(env, a, 1, NEW, [], true), Rec(env, b, 1, ODD, [a], true), Rec(env, b, 1, NEW, [a], true);
    PairIsReached(env, a, b, NEW, ODD);
    PairIsActive(env, s, a, b, NEW, ODD);
    EditMakesEqual(env, l, r, r2);
    IdentityIsNotForetold(env, s, a, b, l, r, [Edit(FIELD, Null)], l, r2);
    assert Applicable(s.rules, DERIVED_SCOPES, l.kind, r.kind) == {};
  }

  lemma EditMakesEqual(env: Env, l: Profile, r: Profile, r2: Profile)
    requires env.tagFor(0, FIELD) == Some(1) && r.kind == 0 && r.payload == ODD
    requires r2 == r.(payload := NEW, fingerprint := FingerprintHex(env, NEW))
    ensures ApplyEdits(env, SideOf(r), l, r, [Edit(FIELD, Null)]) == Ok((l, r2))
  {
    hide FingerprintHex, ResolveField, ApplyFieldEdit;
    var edit := Edit(FIELD, Null);
    FieldIsFirst(env, Bool(true));
    OddBecomesNew(env);
    assert [edit][1..] == [];
    assert EditProfile(env, r, edit) == Ok(r2);
  }

  lemma OddBecomesNew(env: Env)
    requires env.tagFor(0, FIELD) == Some(1)
    ensures ApplyFieldEdit(env, 0, ODD, FIELD, Null) == Ok(NEW)
  {
    hide MkRecord;
    FieldHead();
    assert ReplaceField(ODD.fields, 1, Null) == NEW.fields;
    assert ODD.fields[0] in ODD.fields;
    NewIsMade();
  }

  lemma FieldHead()
    ensures Versions.IndexOf(FIELD, Versions.DOT) == |FIELD| && FIELD[..|FIELD|] == FIELD
  {
    var n := Versions.IndexOf(FIELD, Versions.DOT);
    assert forall i :: 0 <= i < |FIELD| ==> FIELD[i] != Versions.DOT;
  }

  lemma NewIsMade()
    ensures MkRecord(NEW.fields) == Ok(NEW)
  {
    assert NEW.fields[1..] == [];
    assert SortFields(NEW.fields[1..]) == [];
    assert InsertField(NEW.fields[0], []) == [NEW.fields[0]] + [] == NEW.fields;
  }

  // ---- A document that no registry wrote ----

  const UNNAMED: Decision := Decision(ZERO_UUID, ZERO_UUID, ZERO_UUID, 200, ZERO_UUID, 0, ZERO_UUID, 0, [], [], [], [], [],
                                      0, false, ZERO_DIGEST)

  /** A history that starts at generation 7, and a decision whose outcome has no name. */
  function StrangeValues(env: Env, id: Uuid): Short<Canon> {
    [Uint(0), Id(ZERO_UUID), Sequence([ProfileTree(Rec(env, id, 7, OLD, [], true))]), Sequence([]), Sequence([]), Sequence([]),
     Sequence([DecisionTree(UNNAMED)])]
  }

  lemma StrangeFields(env: Env, id: Uuid)
    ensures var doc := Filled(StrangeValues(env, id));
            && doc.Record? && ElemsAt(doc, 3) == [ProfileTree(Rec(env, id, 7, OLD, [], true))]
            && ElemsAt(doc, 7) == [DecisionTree(UNNAMED)]
  {
    hide ProfileTree, DecisionTree, FingerprintHex, Slots, Lookup;
    LookupFilled(StrangeValues(env, id));
  }

  lemma StrangeIsSmall(env: Env, id: Uuid)
    ensures WellFormed(Filled(StrangeValues(env, id)))
  {
    hide Small, Slight, Filled, ProfileTree, DecisionTree, FingerprintHex;
    RecSlight(env, id, 7, OLD, [], true);
    ProfileSmall(Rec(env, id, 7, OLD, [], true));
    UnnamedSmall();
    SequenceSmall([ProfileTree(Rec(env, id, 7, OLD, [], true))], 700, 1300);
    SequenceSmall([DecisionTree(UNNAMED)], 1200, 1300);
    SequenceSmall([], 0, 1300);
    ScalarsWithin(1300);
    FilledSmall(StrangeValues(env, id), 1300, 10000);
    SmallIsWellFormed(Filled(StrangeValues(env, id)), 10000);
  }

  lemma ScalarsWithin(n: nat)
    requires n >= 69
    ensures Small(Uint(0), n) && Small(Id(ZERO_UUID), n)
  {
    ScalarsSmall(0, ZERO_UUID, false, []);
  }

  lemma UnnamedSmall()
    ensures Small(DecisionTree(UNNAMED), 1200)
  {
    hide Small, Filled;
    ScalarsSmall(0, ZERO_UUID, false, []);
    ScalarsSmall(200, ZERO_UUID, false, []);
    SequenceSmall([], 0, 69);
    DigestSmall();
    assert ItemTrees([]) == [] && TextTrees([]) == [];
    FilledSmall(DecisionValues(UNNAMED), 69, 1200);
  }

  lemma DigestSmall()
    ensures Small(Bytes(ZERO_DIGEST), 69)
  {
    BodySize(Bytes(ZERO_DIGEST));
  }

  /** Its container is recovered from, and gives a registry that no calls can lead to. */
  lemma StrangeIsRecovered(env: Env, id: Uuid)
    ensures var r := Recovered(env, Contained(env, CanonicalEncode(Filled(StrangeValues(env, id)))));
            && r.Ok? && !Kept(env, r.value)
            && id in r.value.profiles && r.value.profiles[id] == [Rec(env, id, 7, OLD, [], true)]
            && ZERO_DIGEST in r.value.decisions && r.value.decisions[ZERO_DIGEST].outcome == 200
  {
    hide Filled, RecoverDocument, Recovered, Contained, CanonicalEncode, WellFormed, Kept;
    StrangeIsSmall(env, id);
    RecoveredFromContainer(env, Filled(StrangeValues(env, id)));
    StrangeDocument(env, id);
  }

  lemma StrangeDocument(env: Env, id: Uuid)
    ensures var r := RecoverDocument(env, Filled(StrangeValues(env, id)));
            && r.Ok? && !Kept(env, r.value)
            && id in r.value.profiles && r.value.profiles[id] == [Rec(env, id, 7, OLD, [], true)]
            && ZERO_DIGEST in r.value.decisions && r.value.decisions[ZERO_DIGEST].outcome == 200
  {
    hide ProfileTree, DecisionTree, ProfileOf, DecisionOf, FingerprintHex, Kept, Cyclic, Filled, ElemsAt, StrangeValues, Rebuilt;
    var doc, p := Filled(StrangeValues(env, id)), Rec(env, id, 7, OLD, [], true);
    StrangeFields(env, id);
    ProfileBack(p);
    DecisionBack(UNNAMED);
    OneJoined(p);
    OneKeyed();
    NoEdgesRebuilt(id, p);
    AllDoneIsAcyclic<Uuid>(map[], []);
    assert Mapped(ProfileOf, ElemsAt(doc, 3)) == [p] && Mapped(DecisionOf, ElemsAt(doc, 7)) == [UNNAMED];
    assert ProfileOf(ProfileTree(p)) == p && Intact(env, p);
    assert Described(doc).profiles == map[id := [p]] && Described(doc).deps == map[];
    RecoveredIsKept(env, doc);
  }

  lemma OneJoined(p: Profile)
    ensures Joined(map[], [p]) == map[p.id := [p]]
  {
    assert [p][1..] == [] && [] + [p] == [p];
    assert Joined(map[p.id := [p]], []) == map[p.id := [p]];
  }

  lemma OneKeyed()
    ensures Keyed(DecisionKey, [UNNAMED]) == map[ZERO_DIGEST := UNNAMED]
  {
    assert [UNNAMED][..0] == [];
  }

  lemma NoEdgesRebuilt(id: Uuid, p: Profile)
    requires p.deps == []
    ensures Rebuilt(map[id := [p]]) == map[]
  {
  }

  // ---- Evidence that recovery empties ----

  function Counted(id: Uuid): Evidence { Evidence(id, ZERO_UUID, [], Uint(7), [], [], 0, [], REPORTED, true, []) }

  lemma CountedSmall(id: Uuid)
    ensures Small(EvidenceTree(Counted(id)), 1000)
  {
    hide Small, Filled;
    ScalarsSmall(0, id, true, []);
    ScalarsSmall(0, ZERO_UUID, true, []);
    ScalarsSmall(REPORTED, id, true, []);
    PayloadsSmall();
    FilledSmall([Id(id), Id(ZERO_UUID), Str([]), Record(FieldsOf(Uint(7))), Str([]), Str([]), Uint(Wrap(0)), Str([]),
                 Uint(REPORTED), Bool(true), Str([])], 69, 1000);
  }

  lemma CountedDocument(id: Uuid, order: Order)
    requires IsOrder(RegisterEvidence(INITIAL, Counted(id)), order)
    ensures WellFormed(Document(RegisterEvidence(INITIAL, Counted(id)), order))
  {
    hide Small, Filled, ProfileTree, RuleTree, EvidenceTree, DecisionTree, InvalidationTree;
    var s := RegisterEvidence(INITIAL, Counted(id));
    ProfilesSmall(s.profiles, order.profiles);
    NothingListed(RuleTree, s.rules, order.rules);
    NothingListed(DecisionTree, s.decisions, order.decisions);
    InvalidationsSmall();
    SmallLater(s.gen, s.policy);
    CountedSmall(id);
    OneListed(id, s.evidence, order.evidence);
    FilledSmall(DocumentValues(s, order), 4300, 31000);
    SmallIsWellFormed(Document(s, order), 31000);
  }

  lemma OneListed(id: Uuid, table: map<Uuid, Evidence>, keys: seq<Uuid>)
    requires table == map[id := Counted(id)] && Enumerates(keys, table.Keys)
    ensures Small(Sequence(Mapped(EvidenceTree, Listed(table, keys))), 4300)
  {
    hide Small, EvidenceTree;
    CountedSmall(id);
    EnumerationSize(keys, {id});
    var ts := Mapped(EvidenceTree, Listed(table, keys));
    forall t | t in ts ensures Small(t, 1000) {
      var i :| 0 <= i < |ts| && ts[i] == t;
      assert keys[i] in table.Keys;
    }
    SequenceSmall(ts, 1000, 4300);
  }

  /** One accepted piece of evidence, and every snapshot is recovered from without its value. */
  lemma EmptiedInstance(env: Env, id: Uuid, order: Order)
    requires IsOrder(RegisterEvidence(INITIAL, Counted(id)), order)
    ensures var s := RegisterEvidence(INITIAL, Counted(id));
            var r := Recovered(env, Contained(env, CanonicalEncode(Document(s, order))));
            && Step(env, INITIAL, AddEvidence(Counted(id)), s)
            && r.Ok? && id in r.value.evidence && r.value.evidence[id] == Counted(id).(value := Record([]))
  {
    hide WellFormed, Document, Contained, CanonicalEncode, Recovered, IsOrder, Kept;
    var s := RegisterEvidence(INITIAL, Counted(id));
    InitialKept(env);
    StepKeeps(env, INITIAL, AddEvidence(Counted(id)), s);
    CountedDocument(id, order);
    OddEvidenceIsEmptied(env, s, order, id);
  }

  // ---- A change from an outdated source ----

  function Registering(name: Text): C.Request {
    C.Request(C.REGISTER_SOURCE, Record([Field(1, Str(name)), Field(2, Str(C.ANY_DOMAIN))]))
  }

  /** A profile of source generation 5. */
  function Publishing(name: Text, boot: Uuid): C.Request {
    C.Request(C.REGISTER_PROFILE,
              Record([Field(1, Str(name)), Field(2, Id(boot)), Field(3, Uint(5)), Field(5, OLD), Field(6, Uint(0)), Field(100, Uint(1))]))
  }

  /** Evidence of source generation 0. */
  function Outdated(name: Text, boot: Uuid): C.Request {
    C.Request(C.REGISTER_EVIDENCE,
              Record([Field(1, Str(name)), Field(2, Id(boot)), Field(3, Uint(0)), Field(100, Uint(1))]))
  }

  lemma RegisteringFields(name: Text)
    ensures var p := Registering(name).payload; TextAt(p, 1) == name && TextAt(p, 2) == C.ANY_DOMAIN
  {
    var fs := Registering(name).payload.fields;
    FindFieldMeaning(fs, 1);
    FindFieldMeaning(fs, 2);
    assert fs[0].tag == 1 && fs[1].tag == 2;
  }

  lemma PublishingFields(name: Text, boot: Uuid)
    ensures var p := Publishing(name, boot).payload;
            && TextAt(p, 1) == name && IdAt(p, 2) == boot && UintAt(p, 3) == 5 && ValueAt(p, 5) == OLD
            && ValueAt(p, 6) == Uint(0) && UintAt(p, 100) == 1
  {
    var fs := Publishing(name, boot).payload.fields;
    FindFieldMeaning(fs, 1);
    FindFieldMeaning(fs, 2);
    FindFieldMeaning(fs, 3);
    FindFieldMeaning(fs, 5);
    FindFieldMeaning(fs, 6);
    FindFieldMeaning(fs, 100);
    assert fs[0].tag == 1 && fs[1].tag == 2 && fs[2].tag == 3 && fs[3].tag == 5 && fs[4].tag == 6 && fs[5].tag == 100;
  }

  lemma OutdatedFields(name: Text, boot: Uuid)
    ensures var p := Outdated(name, boot).payload;
            TextAt(p, 1) == name && IdAt(p, 2) == boot && UintAt(p, 3) == 0 && UintAt(p, 100) == 1
  {
    var fs := Outdated(name, boot).payload.fields;
    FindFieldMeaning(fs, 1);
    FindFieldMeaning(fs, 2);
    FindFieldMeaning(fs, 3);
    FindFieldMeaning(fs, 100);
    assert fs[0].tag == 1 && fs[1].tag == 2 && fs[2].tag == 3 && fs[3].tag == 100;
  }

  /** The coordinator's states: the source registered, its profile taken, its evidence taken. */
  ghost function OutdatedSession(env: Env, name: Text, boot: Uuid, id: Uuid, drawn: Uuid): seq<C.Coordinator> {
    var known := map[name := C.Source(boot, 1, C.ANY_DOMAIN)];
    var raised := map[name := C.Source(boot, 5, C.ANY_DOMAIN)];
    var registry := RegisterProfile(env, INITIAL, C.WireProfile(Publishing(name, boot), id)).0;
    [C.Coordinator(1, map[], INITIAL), C.Coordinator(1, known, INITIAL), C.Coordinator(1, raised, registry),
     C.Coordinator(1, raised, RegisterEvidence(registry, C.WireEvidence(Outdated(name, boot), drawn)))]
  }

  function OutdatedLog(name: Text, boot: Uuid, id: Uuid, drawn: Uuid): seq<C.Entry> {
    [C.Entry(Registering(name), boot, Ok(C.Reply(true, C.ACK, Filled([Id(boot), Uint(1), Uint(1)])))),
     C.Entry(Publishing(name, boot), id, Ok(C.Reply(true, C.ACK, Filled([Id(id)])))),
     C.Entry(Outdated(name, boot), drawn, Ok(C.DONE))]
  }

  lemma ProfileIsTaken(env: Env, m: C.Request, id: Uuid)
    ensures RegisterProfile(env, INITIAL, C.WireProfile(m, id)).1 == Ok(id)
    ensures RulesFiled(RegisterProfile(env, INITIAL, C.WireProfile(m, id)).0.rules)
  {
    hide FingerprintHex, ClosesCycle, Kept;
    InitialKept(env);
    C.WireProfileAlone(m, id);
    C.NewProfileClosesNothing(env, INITIAL, C.WireProfile(m, id));
  }

  /** Evidence is taken although its source generation lies below the one that the source has reached. */
  lemma OutdatedIsTaken(env: Env, explain: Decision -> Text, name: Text, boot: Uuid, id: Uuid, drawn: Uuid)
    requires name != []
    ensures var cs, log := OutdatedSession(env, name, boot, id, drawn), OutdatedLog(name, boot, id, drawn);
            && C.Session(env, explain, cs, log)
            && log[2].m.kind == C.REGISTER_EVIDENCE && C.SourceName(log[2].m) == name && C.Accepted(log[2].res)
            && C.SourceGeneration(log[2].m) < cs[2].sources[name].generation
  {
    hide C.WireEvidence, C.WireProfile, Filled, RegisterProfile, RegisterEvidence, TextAt, IdAt, UintAt, ValueAt, Kept;
    var cs, log := OutdatedSession(env, name, boot, id, drawn), OutdatedLog(name, boot, id, drawn);
    InitialKept(env);
    RegisteringFields(name);
    PublishingFields(name, boot);
    OutdatedFields(name, boot);
    ProfileIsTaken(env, log[1].m, id);
    forall i | 0 <= i < |log| ensures C.Handles(env, explain, cs[i], log[i].m, log[i].drawn, cs[i + 1], log[i].res) {
      assert i == 0 || i == 1 || i == 2;
    }
  }
}
