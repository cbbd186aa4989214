/** What the winning rule is, said without sorting or scanning, and what a decision owes to it. */
module Resolution {
  import opened Prelude
  import opened Rules
  import opened States
  import opened Decisions

  ghost predicate Speaks(env: Env, rule: Rule, l: Side, r: Side) {
    ConclusionOf(env, rule, l, r).definite && ConclusionOf(env, rule, l, r).outcome != UNKNOWN
  }

  /** The rule that comes to a definite, known conclusion while none ranked before it does. */
  ghost predicate Wins(env: Env, rules: set<Rule>, l: Side, r: Side, w: Rule) {
    && w in rules && Speaks(env, w, l, r)
    && forall o :: o in rules && Before(o, w) ==> !Speaks(env, o, l, r)
  }

  lemma WinnerUnique(env: Env, rules: set<Rule>, l: Side, r: Side, v: Rule, w: Rule)
    requires DistinctIds(rules) && Wins(env, rules, l, r, v) && Wins(env, rules, l, r, w)
    ensures v == w
  {
    BeforeIsStrict(v, w, v);
  }

  // ---- From the list of evaluations to the winner ----

  lemma {:induction false} EvalAllAt(env: Env, cand: seq<Rule>, l: Side, r: Side)
    requires EvalAll(env, cand, l, r).Ok?
    ensures forall i :: 0 <= i < |cand| ==>
              EvalRule(env, cand[i], l, r).Ok? && EvalAll(env, cand, l, r).value[i] == EvalRule(env, cand[i], l, r).value
  {
    if cand != [] {
      hide EvalRule;
      EvalAllAt(env, cand[1..], l, r);
      assert forall i :: 1 <= i < |cand| ==> cand[i] == cand[1..][i - 1];
    }
  }

  lemma {:induction false} FirstDeciding(evals: seq<RuleEval>) returns (i: nat)
    requires Deciding(evals) != []
    ensures i < |evals| && Decides(evals[i]) && Deciding(evals)[0] == evals[i]
    ensures forall j :: 0 <= j < i ==> !Decides(evals[j])
    ensures Deciding(evals)[1..] == Deciding(evals[i + 1..])
  {
    if Decides(evals[0]) {
      i := 0;
    } else {
      var k := FirstDeciding(evals[1..]);
      i := k + 1;
      assert evals[1..][k + 1..] == evals[i + 1..];
      assert forall j :: 1 <= j < i ==> evals[j] == evals[1..][j - 1];
    }
  }

  lemma SpeaksAsEvaluated(env: Env, cand: seq<Rule>, l: Side, r: Side, i: nat)
    requires EvalAll(env, cand, l, r).Ok? && i < |cand|
    ensures var e := EvalAll(env, cand, l, r).value[i];
            && EvalRule(env, cand[i], l, r) == Ok(e) && e.rule == cand[i]
            && e.outcome == ConclusionOf(env, cand[i], l, r).outcome
            && (Decides(e) <==> Speaks(env, cand[i], l, r))
  {
    hide EvalRule, ConclusionOf;
    EvalAllAt(env, cand, l, r);
    EvalRuleConcludes(env, cand[i], l, r);
  }

  /** The first deciding evaluation is that of the winner; there is none exactly if no rule speaks. */
  lemma BestIsWinner(env: Env, cand: seq<Rule>, rules: set<Rule>, l: Side, r: Side) returns (i: nat)
    requires IsRanking(cand, rules) && EvalAll(env, cand, l, r).Ok?
    requires Deciding(EvalAll(env, cand, l, r).value) != []
    ensures i < |cand| && Wins(env, rules, l, r, cand[i])
    ensures var evals := EvalAll(env, cand, l, r).value;
            Deciding(evals)[0] == evals[i] && Deciding(evals)[1..] == Deciding(evals[i + 1..])
    ensures EvalRule(env, cand[i], l, r) == Ok(EvalAll(env, cand, l, r).value[i])
    ensures EvalAll(env, cand, l, r).value[i].rule == cand[i]
  {
    hide EvalRule, ConclusionOf, EvalAll;
    var evals := EvalAll(env, cand, l, r).value;
    i := FirstDeciding(evals);
    SpeaksAsEvaluated(env, cand, l, r, i);
    IsMember(cand, i);
    forall o | o in rules && Before(o, cand[i]) ensures !Speaks(env, o, l, r) {
      var j :| 0 <= j < |cand| && cand[j] == o;
      BeforeIsStrict(o, cand[i], o);
      SpeaksAsEvaluated(env, cand, l, r, j);
    }
  }

  lemma NoneSpeaks(env: Env, cand: seq<Rule>, rules: set<Rule>, l: Side, r: Side)
    requires IsRanking(cand, rules) && EvalAll(env, cand, l, r).Ok?
    requires Deciding(EvalAll(env, cand, l, r).value) == []
    ensures forall o :: o in rules ==> !Speaks(env, o, l, r)
  {
    hide EvalRule, ConclusionOf, EvalAll;
    forall o | o in rules ensures !Speaks(env, o, l, r) {
      var j :| 0 <= j < |cand| && cand[j] == o;
      SpeaksAsEvaluated(env, cand, l, r, j);
      IsMember(EvalAll(env, cand, l, r).value, j);
    }
  }

  // ---- Decisions over two active profiles that are not identical ----

  ghost predicate RuleResolved(s: State, left: Uuid, right: Uuid) {
    var l, r := ActiveProfile(s, left), ActiveProfile(s, right);
    l.Some? && r.Some? && l.value.fingerprint != r.value.fingerprint
  }

  ghost function RulesFor(s: State, left: Uuid, right: Uuid, requirement: bool): set<Rule>
    requires RuleResolved(s, left, right)
  {
    Applicable(s.rules, {ScopeOf(requirement)}, ActiveProfile(s, left).value.kind, ActiveProfile(s, right).value.kind)
  }

  ghost function LeftSide(s: State, left: Uuid, right: Uuid): Side
    requires RuleResolved(s, left, right)
  {
    SideOf(ActiveProfile(s, left).value)
  }

  ghost function RightSide(s: State, left: Uuid, right: Uuid): Side
    requires RuleResolved(s, left, right)
  {
    SideOf(ActiveProfile(s, right).value)
  }

  /** What a decision takes from the rule that made it. */
  predicate MadeBy(d: Decision, e: RuleEval) {
    && d.outcome == e.outcome && d.ruleId == e.rule.ruleId && d.ruleGeneration == e.rule.generation
    && d.satisfied == e.satisfied && d.failed == e.failed
    && d.adaptations == e.adaptations && d.missingEvidence == e.missingEvidence
  }

  lemma HoldingIsKnown(env: Env, cs: seq<Constraint>, l: Side, r: Side)
    requires AllHold(env, cs, l, r)
    ensures AllKnown(env, cs, l, r)
  {
    hide Known, Evaluate;
  }

  /** A rule that does not speak has lacked evidence exactly if one of its incompatibilities is undecided. */
  lemma SilentLacks(env: Env, rule: Rule, l: Side, r: Side)
    requires EvalRule(env, rule, l, r).Ok? && !Speaks(env, rule, l, r)
    ensures EvalRule(env, rule, l, r).value.missing <==> !AllKnown(env, rule.incompatibleWith, l, r)
  {
    hide EvalRule, SomeHolds, AllHold, AllKnown, RuleThrows;
    EvalRuleConcludes(env, rule, l, r);
    if AllHold(env, rule.required, l, r) {
      HoldingIsKnown(env, rule.required, l, r);
    }
    if AllHold(env, rule.conditions, l, r) {
      HoldingIsKnown(env, rule.conditions, l, r);
    }
  }

  lemma SilentMissing(env: Env, cand: seq<Rule>, rules: set<Rule>, l: Side, r: Side)
    requires IsRanking(cand, rules) && EvalAll(env, cand, l, r).Ok?
    requires Deciding(EvalAll(env, cand, l, r).value) == []
    ensures AnyMissing(EvalAll(env, cand, l, r).value) <==> exists o :: o in rules && !AllKnown(env, o.incompatibleWith, l, r)
  {
    hide EvalRule, ConclusionOf, EvalAll, AllKnown, Speaks;
    var evals := EvalAll(env, cand, l, r).value;
    NoneSpeaks(env, cand, rules, l, r);
    forall i | 0 <= i < |cand|
      ensures cand[i] in rules && evals[i] in evals && (evals[i].missing <==> !AllKnown(env, cand[i].incompatibleWith, l, r))
    {
      IsMember(cand, i);
      IsMember(evals, i);
      SpeaksAsEvaluated(env, cand, l, r, i);
      SilentLacks(env, cand[i], l, r);
    }
    if e :| e in evals && e.missing {
      var i :| 0 <= i < |evals| && evals[i] == e;
      assert cand[i] in rules;
    }
    if o :| o in rules && !AllKnown(env, o.incompatibleWith, l, r) {
      var i :| 0 <= i < |cand| && cand[i] == o;
      assert evals[i] in evals;
    }
  }

  /**
    * A decision is the winner's. Without one it carries no constraints, and is for want of evidence if some
    * applicable rule has an incompatibility that cannot be decided, and Unknown if none has.
    */
  lemma DecisionIsWinners(env: Env, s: State, left: Uuid, right: Uuid, requirement: bool)
    requires RulesFiled(s.rules) && RuleResolved(s, left, right) && Decide(env, s, left, right, requirement).Ok?
    ensures var d := Decide(env, s, left, right, requirement).value;
            var rules, l, r := RulesFor(s, left, right, requirement), LeftSide(s, left, right), RightSide(s, left, right);
            && (forall w :: Wins(env, rules, l, r, w) ==>
                  EvalRule(env, w, l, r).Ok? && MadeBy(d, EvalRule(env, w, l, r).value))
            && ((exists w :: Wins(env, rules, l, r, w)) || forall o :: o in rules ==> !Speaks(env, o, l, r))
            && ((forall o :: o in rules ==> !Speaks(env, o, l, r)) ==>
                  && d.outcome == (if exists o :: o in rules && !AllKnown(env, o.incompatibleWith, l, r)
                                   then INSUFFICIENT_EVIDENCE else UNKNOWN)
                  && d.satisfied == d.failed == [] && d.adaptations == d.missingEvidence == [])
  {
    hide EvalRule, ConclusionOf, EvalAll, DecisionId, DigestTree, AllKnown, AnyMissing, ConflictNotes;
    var rules, l, r := RulesFor(s, left, right, requirement), LeftSide(s, left, right), RightSide(s, left, right);
    var cand := Candidates(s.rules, {ScopeOf(requirement)}, l.kind, r.kind);
    ApplicableDistinct(s.rules, {ScopeOf(requirement)}, l.kind, r.kind);
    if Deciding(EvalAll(env, cand, l, r).value) != [] {
      var i := BestIsWinner(env, cand, rules, l, r);
      forall w | Wins(env, rules, l, r, w) ensures w == cand[i] {
        WinnerUnique(env, rules, l, r, w, cand[i]);
      }
    } else {
      NoneSpeaks(env, cand, rules, l, r);
      SilentMissing(env, cand, rules, l, r);
    }
  }

  // ---- When evaluating throws ----

  /** Evaluating the rule throws nothing, and if it speaks, what it says is an outcome that has a name. */
  ghost predicate Harmless(env: Env, rule: Rule, l: Side, r: Side) {
    && EvalRule(env, rule, l, r).Ok?
    && (Speaks(env, rule, l, r) ==> ConclusionOf(env, rule, l, r).outcome <= INSUFFICIENT_EVIDENCE)
  }

  lemma {:induction false} EvalAllReturns(env: Env, cand: seq<Rule>, l: Side, r: Side)
    ensures EvalAll(env, cand, l, r).Ok? <==> forall o :: o in cand ==> EvalRule(env, o, l, r).Ok?
  {
    if cand != [] {
      hide EvalRule;
      EvalAllReturns(env, cand[1..], l, r);
      assert forall o :: o in cand <==> o == cand[0] || o in cand[1..];
    }
  }

  lemma NamedIfAllAre(evals: seq<RuleEval>)
    ensures OutcomesNamed(evals) <==> forall e :: e in Deciding(evals) ==> e.outcome <= INSUFFICIENT_EVIDENCE
  {
    if Deciding(evals) != [] {
      IsMember(Deciding(evals), 0);
    }
  }

  /** Every applicable rule is evaluated, so each can make the whole evaluation throw, however low it is ranked. */
  lemma DecidesIfAllHarmless(env: Env, s: State, left: Uuid, right: Uuid, requirement: bool)
    requires RulesFiled(s.rules) && RuleResolved(s, left, right)
    ensures var rules, l, r := RulesFor(s, left, right, requirement), LeftSide(s, left, right), RightSide(s, left, right);
            Decide(env, s, left, right, requirement).Ok? <==> forall o :: o in rules ==> Harmless(env, o, l, r)
  {
    hide EvalRule, ConclusionOf, EvalAll, OutcomesNamed, Resolve, DecisionId, DigestTree;
    var rules, l, r := RulesFor(s, left, right, requirement), LeftSide(s, left, right), RightSide(s, left, right);
    var cand := Candidates(s.rules, {ScopeOf(requirement)}, l.kind, r.kind);
    ApplicableDistinct(s.rules, {ScopeOf(requirement)}, l.kind, r.kind);
    AllHarmless(env, cand, l, r);
    assert forall o :: o in cand <==> o in rules;
  }

  lemma AllHarmless(env: Env, cand: seq<Rule>, l: Side, r: Side)
    ensures EvalAll(env, cand, l, r).Ok? && OutcomesNamed(EvalAll(env, cand, l, r).value)
            <==> forall o :: o in cand ==> Harmless(env, o, l, r)
  {
    hide EvalRule, ConclusionOf, EvalAll, OutcomesNamed, Speaks;
    EvalAllReturns(env, cand, l, r);
    if EvalAll(env, cand, l, r).Ok? {
      var evals := EvalAll(env, cand, l, r).value;
      NamedIfAllAre(evals);
      forall i | 0 <= i < |cand|
        ensures EvalRule(env, cand[i], l, r) == Ok(evals[i]) && evals[i] in evals
        ensures evals[i].outcome == ConclusionOf(env, cand[i], l, r).outcome
        ensures Decides(evals[i]) <==> Speaks(env, cand[i], l, r)
      {
        SpeaksAsEvaluated(env, cand, l, r, i);
        IsMember(evals, i);
      }
      if OutcomesNamed(evals) {
        forall o | o in cand ensures Harmless(env, o, l, r) {
          var i :| 0 <= i < |cand| && cand[i] == o;
          assert evals[i] in evals;
        }
      }
      if forall o :: o in cand ==> Harmless(env, o, l, r) {
        forall e | e in Deciding(evals) ensures e.outcome <= INSUFFICIENT_EVIDENCE {
          var i :| 0 <= i < |evals| && evals[i] == e;
          IsMember(cand, i);
        }
      }
    }
  }

  /** Nothing that a decision takes from its rule differs. */
  predicate SameResult(d: Decision, e: Decision) {
    && d.outcome == e.outcome && d.ruleId == e.ruleId && d.ruleGeneration == e.ruleGeneration
    && d.satisfied == e.satisfied && d.failed == e.failed
    && d.adaptations == e.adaptations && d.missingEvidence == e.missingEvidence
  }

  /** Only the rules applied differ, if any. */
  ghost predicate SameButRules(s: State, t: State) {
    t == s.(rules := t.rules, ruleGen := t.ruleGen, gen := t.gen)
  }

  /** Rule tables that agree on the winner and on what is ranked before it give the same result, if evaluation returns. */
  lemma OnlyHigherRulesMatter(env: Env, s: State, t: State, left: Uuid, right: Uuid, requirement: bool, w: Rule)
    requires RulesFiled(s.rules) && RulesFiled(t.rules) && SameButRules(s, t) && RuleResolved(s, left, right)
    requires Wins(env, RulesFor(s, left, right, requirement), LeftSide(s, left, right), RightSide(s, left, right), w)
    requires RuleResolved(t, left, right) && w in RulesFor(t, left, right, requirement)
    requires forall o :: Before(o, w) ==>
               (o in RulesFor(s, left, right, requirement) <==> o in RulesFor(t, left, right, requirement))
    requires Decide(env, s, left, right, requirement).Ok? && Decide(env, t, left, right, requirement).Ok?
    ensures Wins(env, RulesFor(t, left, right, requirement), LeftSide(t, left, right), RightSide(t, left, right), w)
    ensures SameResult(Decide(env, s, left, right, requirement).value, Decide(env, t, left, right, requirement).value)
  {
    hide EvalRule, Speaks, Decide, RulesFor;
    assert LeftSide(t, left, right) == LeftSide(s, left, right) && RightSide(t, left, right) == RightSide(s, left, right);
    assert Wins(env, RulesFor(t, left, right, requirement), LeftSide(t, left, right), RightSide(t, left, right), w);
    DecisionIsWinners(env, s, left, right, requirement);
    DecisionIsWinners(env, t, left, right, requirement);
  }

  /** The rule of this id, before and after, is ranked below w, as far as it applies. */
  ghost predicate StaysBelow(rules: map<Uuid, RuleRecord>, id: Uuid, put: RuleRecord, scopes: set<Text>, l: Side, r: Side, w: Rule) {
    && (Applies(put, scopes, l.kind, r.kind) ==> Before(w, put.rule))
    && (id in rules && Applies(rules[id], scopes, l.kind, r.kind) ==> Before(w, rules[id].rule))
  }

  /**
    * Registering, replacing or disabling a rule that stays below the winner leaves outcome, rule and
    * constraints as they are, unless evaluating now throws; and that it does exactly if the rule as it is
    * put applies and is not harmless.
    */
  lemma LowerRuleIrrelevant(env: Env, s: State, t: State, left: Uuid, right: Uuid, requirement: bool, w: Rule, put: RuleRecord)
    requires RulesFiled(s.rules) && RuleResolved(s, left, right)
    requires SameButRules(s, t) && t.rules == s.rules[put.rule.ruleId := put]
    requires StaysBelow(s.rules, put.rule.ruleId, put, {ScopeOf(requirement)}, LeftSide(s, left, right), RightSide(s, left, right), w)
    requires Decide(env, s, left, right, requirement).Ok?
    requires Wins(env, RulesFor(s, left, right, requirement), LeftSide(s, left, right), RightSide(s, left, right), w)
    ensures RulesFiled(t.rules)
    ensures var l, r := LeftSide(s, left, right), RightSide(s, left, right);
            Decide(env, t, left, right, requirement).Ok? <==>
              (Applies(put, {ScopeOf(requirement)}, l.kind, r.kind) ==> Harmless(env, put.rule, l, r))
    ensures Decide(env, t, left, right, requirement).Ok? ==>
              SameResult(Decide(env, s, left, right, requirement).value, Decide(env, t, left, right, requirement).value)
  {
    hide EvalRule, Speaks, Decide, Harmless, RulesFor, StaysBelow, RulesFiled;
    PutFiled(s.rules, put);
    RulesWithPut(s, t, left, right, requirement, put);
    AboveUntouched(s, left, right, requirement, put, w);
    DecidesIfAllHarmless(env, s, left, right, requirement);
    DecidesIfAllHarmless(env, t, left, right, requirement);
    if Decide(env, t, left, right, requirement).Ok? {
      OnlyHigherRulesMatter(env, s, t, left, right, requirement, w);
    }
  }

  lemma PutFiled(rules: map<Uuid, RuleRecord>, put: RuleRecord)
    requires RulesFiled(rules)
    ensures RulesFiled(rules[put.rule.ruleId := put])
  {
  }

  /** What was filed under the id goes, and what is put there comes if it applies. */
  lemma RulesWithPut(s: State, t: State, left: Uuid, right: Uuid, requirement: bool, put: RuleRecord)
    requires RulesFiled(s.rules) && RuleResolved(s, left, right)
    requires SameButRules(s, t) && t.rules == s.rules[put.rule.ruleId := put]
    ensures RuleResolved(t, left, right)
    ensures LeftSide(t, left, right) == LeftSide(s, left, right) && RightSide(t, left, right) == RightSide(s, left, right)
    ensures var l, r := LeftSide(s, left, right), RightSide(s, left, right);
            forall o :: o in RulesFor(t, left, right, requirement) <==>
              || (o in RulesFor(s, left, right, requirement) && o.ruleId != put.rule.ruleId)
              || (o == put.rule && Applies(put, {ScopeOf(requirement)}, l.kind, r.kind))
  {
    hide Applies;
    var l, r := LeftSide(s, left, right), RightSide(s, left, right);
    var rules, more := RulesFor(s, left, right, requirement), RulesFor(t, left, right, requirement);
    forall o ensures o in more <==> (o in rules && o.ruleId != put.rule.ruleId)
                                    || (o == put.rule && Applies(put, {ScopeOf(requirement)}, l.kind, r.kind)) {
      if o in rules && o.ruleId != put.rule.ruleId {
        var id :| id in s.rules && s.rules[id].rule == o && Applies(s.rules[id], {ScopeOf(requirement)}, l.kind, r.kind);
        assert t.rules[id] == s.rules[id];
      }
      if o == put.rule && Applies(put, {ScopeOf(requirement)}, l.kind, r.kind) {
        assert t.rules[put.rule.ruleId] == put;
      }
    }
  }

  lemma AboveUntouched(s: State, left: Uuid, right: Uuid, requirement: bool, put: RuleRecord, w: Rule)
    requires RulesFiled(s.rules) && RuleResolved(s, left, right) && w in RulesFor(s, left, right, requirement)
    requires StaysBelow(s.rules, put.rule.ruleId, put, {ScopeOf(requirement)}, LeftSide(s, left, right), RightSide(s, left, right), w)
    ensures forall o :: o in RulesFor(s, left, right, requirement) && (o == w || Before(o, w)) ==> o.ruleId != put.rule.ruleId
    ensures Applies(put, {ScopeOf(requirement)}, LeftSide(s, left, right).kind, RightSide(s, left, right).kind) ==> !Before(put.rule, w)
  {
    hide Applies;
    forall o | o in RulesFor(s, left, right, requirement) && (o == w || Before(o, w)) ensures o.ruleId != put.rule.ruleId {
      BeforeIsStrict(w, o, w);
    }
    BeforeIsStrict(w, put.rule, w);
  }

  /**
    * A positive decision that is not by identity has an active rule behind it, of the right scope and
    * kinds, whose required constraints and some alternative hold, none of whose incompatibilities is known to hold,
    * and no rule ranked higher came to any other conclusion.
    */
  lemma PositiveDecisionIsFounded(env: Env, s: State, left: Uuid, right: Uuid, requirement: bool) returns (id: Uuid)
    requires RulesFiled(s.rules) && RuleResolved(s, left, right) && Decide(env, s, left, right, requirement).Ok?
    requires IsPositive(Decide(env, s, left, right, requirement).value.outcome)
    ensures id in s.rules && id == Decide(env, s, left, right, requirement).value.ruleId
    ensures var l, r := LeftSide(s, left, right), RightSide(s, left, right);
            var rule := s.rules[id].rule;
            && Applies(s.rules[id], {ScopeOf(requirement)}, l.kind, r.kind)
            && AllHold(env, rule.required, l, r)
            && (rule.anyOf != [] ==> SomeHolds(env, rule.anyOf, l, r))
            && !SomeHolds(env, rule.incompatibleWith, l, r)
            && forall o :: o in RulesFor(s, left, right, requirement) && Before(o, rule) ==> !Speaks(env, o, l, r)
  {
    hide EvalRule, ConclusionOf, Decide, AllHold, SomeHolds, AllKnown, Speaks, Favours, RuleThrows, Lacks;
    DecisionIsWinners(env, s, left, right, requirement);
    var rules, l, r := RulesFor(s, left, right, requirement), LeftSide(s, left, right), RightSide(s, left, right);
    var w :| Wins(env, rules, l, r, w);
    id :| id in s.rules && s.rules[id].rule == w && Applies(s.rules[id], {ScopeOf(requirement)}, l.kind, r.kind);
    EvalRuleConcludes(env, w, l, r);
    PositiveNeedsEvidence(env, w, l, r);
  }

  // ---- Conflicts ----

  predicate Conflicts(env: Env, e: RuleEval, outcome: byte, note: Text) {
    e.outcome != outcome && env.wording(Conflict(e.rule.ruleId, e.outcome)) == note
  }

  lemma {:induction false} ConflictNotesMeaning(env: Env, others: seq<RuleEval>, outcome: byte, note: Text)
    ensures note in ConflictNotes(env, others, outcome) <==> exists e :: e in others && Conflicts(env, e, outcome, note)
  {
    if others != [] {
      var first, rest := others[0], others[1..];
      ConflictNotesMeaning(env, rest, outcome, note);
      assert forall e :: e in others <==> e == first || e in rest;
      if Conflicts(env, first, outcome, note) {
        assert first in others;
      } else if e :| e in rest && Conflicts(env, e, outcome, note) {
        assert e in others;
      }
    }
  }

  /** The notes after the first two name exactly the rules ranked after the winner that conclude otherwise. */
  lemma ConflictsAreListed(env: Env, s: State, left: Uuid, right: Uuid, requirement: bool, w: Rule, note: Text)
    requires RulesFiled(s.rules) && RuleResolved(s, left, right) && Decide(env, s, left, right, requirement).Ok?
    requires Wins(env, RulesFor(s, left, right, requirement), LeftSide(s, left, right), RightSide(s, left, right), w)
    ensures var d := Decide(env, s, left, right, requirement).value;
            var l, r := LeftSide(s, left, right), RightSide(s, left, right);
            && |d.provenance| >= 2
            && d.provenance[..2] == [env.wording(RuleResolution), env.wording(ResolvedBy(w.ruleId, w.priority))]
            && (note in d.provenance[2..] <==>
                exists o :: o in RulesFor(s, left, right, requirement) && Before(w, o) && Speaks(env, o, l, r)
                  && ConclusionOf(env, o, l, r).outcome != d.outcome
                  && note == env.wording(Conflict(o.ruleId, ConclusionOf(env, o, l, r).outcome)))
  {
    hide EvalRule, ConclusionOf, EvalAll, Decide, ConflictNotes, Deciding;
    var rules, l, r := RulesFor(s, left, right, requirement), LeftSide(s, left, right), RightSide(s, left, right);
    var cand := Candidates(s.rules, {ScopeOf(requirement)}, l.kind, r.kind);
    ApplicableDistinct(s.rules, {ScopeOf(requirement)}, l.kind, r.kind);
    ProvenanceShape(env, s, left, right, requirement, w);
    var evals := EvalAll(env, cand, l, r).value;
    var i := BestIsWinner(env, cand, rules, l, r);
    WinnerUnique(env, rules, l, r, w, cand[i]);
    ConflictNotesMeaning(env, Deciding(evals)[1..], evals[i].outcome, note);
    LaterDeciding(env, cand, rules, l, r, i);
  }

  lemma ProvenanceShape(env: Env, s: State, left: Uuid, right: Uuid, requirement: bool, w: Rule)
    requires RulesFiled(s.rules) && RuleResolved(s, left, right) && Decide(env, s, left, right, requirement).Ok?
    requires Wins(env, RulesFor(s, left, right, requirement), LeftSide(s, left, right), RightSide(s, left, right), w)
    ensures var d := Decide(env, s, left, right, requirement).value;
            var l, r := LeftSide(s, left, right), RightSide(s, left, right);
            var evals := EvalAll(env, Candidates(s.rules, {ScopeOf(requirement)}, l.kind, r.kind), l, r);
            && evals.Ok? && Deciding(evals.value) != [] && d.outcome == Deciding(evals.value)[0].outcome
            && |d.provenance| >= 2
            && d.provenance[..2] == [env.wording(RuleResolution), env.wording(ResolvedBy(w.ruleId, w.priority))]
            && d.provenance[2..] == ConflictNotes(env, Deciding(evals.value)[1..], d.outcome)
  {
    hide EvalRule, ConclusionOf, EvalAll, DecisionId, DigestTree, ConflictNotes;
    var rules, l, r := RulesFor(s, left, right, requirement), LeftSide(s, left, right), RightSide(s, left, right);
    var cand := Candidates(s.rules, {ScopeOf(requirement)}, l.kind, r.kind);
    ApplicableDistinct(s.rules, {ScopeOf(requirement)}, l.kind, r.kind);
    var evals := EvalAll(env, cand, l, r).value;
    if Deciding(evals) == [] {
      NoneSpeaks(env, cand, rules, l, r);
      assert false;
    } else {
      var i := BestIsWinner(env, cand, rules, l, r);
      WinnerUnique(env, rules, l, r, w, cand[i]);
      var d := Decide(env, s, left, right, requirement).value;
      assert d.provenance == [env.wording(RuleResolution)] + [env.wording(ResolvedBy(w.ruleId, w.priority))]
                             + ConflictNotes(env, Deciding(evals)[1..], evals[i].outcome);
    }
  }

  /** The deciding evaluations after the i-th are those of the speaking rules ranked after it. */
  lemma LaterDeciding(env: Env, cand: seq<Rule>, rules: set<Rule>, l: Side, r: Side, i: nat)
    requires IsRanking(cand, rules) && EvalAll(env, cand, l, r).Ok? && i < |cand|
    ensures var later := Deciding(EvalAll(env, cand, l, r).value[i + 1..]);
            && (forall e :: e in later ==>
                  e.rule in rules && Before(cand[i], e.rule) && Speaks(env, e.rule, l, r)
                  && e.outcome == ConclusionOf(env, e.rule, l, r).outcome)
            && (forall o :: o in rules && Before(cand[i], o) && Speaks(env, o, l, r) ==> exists e :: e in later && e.rule == o)
  {
    hide EvalRule, ConclusionOf, EvalAll;
    var evals := EvalAll(env, cand, l, r).value;
    var later := Deciding(evals[i + 1..]);
    forall e | e in later
      ensures e.rule in rules && Before(cand[i], e.rule) && Speaks(env, e.rule, l, r)
      ensures e.outcome == ConclusionOf(env, e.rule, l, r).outcome
    {
      var k :| i + 1 <= k < |evals| && evals[k] == e;
      SpeaksAsEvaluated(env, cand, l, r, k);
    }
    forall o | o in rules && Before(cand[i], o) && Speaks(env, o, l, r) ensures exists e :: e in later && e.rule == o {
      var k :| 0 <= k < |cand| && cand[k] == o;
      BeforeIsStrict(o, cand[i], o);
      SpeaksAsEvaluated(env, cand, l, r, k);
      assert evals[i + 1..][k - i - 1] == evals[k];
      assert evals[k] in later;
    }
  }
}
