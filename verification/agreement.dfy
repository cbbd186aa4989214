/** A counterfactual foretells what the pair evaluates to once the edits have been made. */
module Agreement {
  import opened Prelude
  import opened Canonical
  import opened Records
  import Versions
  import opened Rules
  import opened Graphs
  import opened States
  import opened Decisions
  import opened Counterfactuals
  import opened Resolution
  import opened Runs
  import opened Replays

  // ---- One edit ----

  predicate SoundPayload(c: Canon) {
    c.Record? && StrictTags(c.fields)
  }

  lemma {:induction false} FoundIsThere(fs: seq<Field>, tag: nat)
    requires FindField(fs, tag).Some?
    ensures exists f :: f in fs && f.tag == tag
  {
    if fs[0].tag < tag {
      FoundIsThere(fs[1..], tag);
      var f :| f in fs[1..] && f.tag == tag;
      assert f in fs;
    } else {
      assert fs[0] in fs;
    }
  }

  lemma ReplacedTags(fs: seq<Field>, tag: u32, value: Canon)
    requires DistinctTags(fs)
    ensures DistinctTags(ReplaceField(fs, tag, value))
  {
    var gs := ReplaceField(fs, tag, value);
    assert forall i :: 0 <= i < |fs| ==> gs[i].tag == fs[i].tag;
  }

  /** An edit of a field that resolves replaces the top-level field its name starts with, and no other; it does not throw. */
  lemma EditReplaces(env: Env, p: Profile, edit: Edit)
    requires SoundPayload(p.payload) && ResolveField(env, SideOf(p), edit.field).Some?
    ensures EditProfile(env, p, edit).Ok? && SoundPayload(EditProfile(env, p, edit).value.payload)
    ensures var tag := env.tagFor(p.kind, edit.field[..Versions.IndexOf(edit.field, Versions.DOT)]);
            && tag.Some?
            && forall t: nat :: Lookup(EditProfile(env, p, edit).value.payload, t)
                                == if t == tag.value then Some(edit.value) else Lookup(p.payload, t)
  {
    hide FingerprintHex, SortFields;
    var fs, tag := p.payload.fields, env.tagFor(p.kind, edit.field[..Versions.IndexOf(edit.field, Versions.DOT)]).value;
    FoundIsThere(fs, tag);
    var gs := ReplaceField(fs, tag, edit.value);
    ReplacedTags(fs, tag, edit.value);
    MkRecordAccepts(gs);
    var c := MkRecord(gs).value;
    assert EditProfile(env, p, edit).value.payload == c;
    forall t: nat ensures Lookup(c, t) == if t == tag then Some(edit.value) else Lookup(p.payload, t) {
      LookupReplaced(fs, c, tag, edit.value, t);
    }
  }

  lemma LookupReplaced(fs: seq<Field>, c: Canon, tag: u32, value: Canon, t: nat)
    requires StrictTags(fs) && MkRecord(ReplaceField(fs, tag, value)) == Ok(c)
    requires exists f :: f in fs && f.tag == tag
    ensures Lookup(c, t) == if t == tag then Some(value) else FindField(fs, t)
  {
    var gs := ReplaceField(fs, tag, value);
    LookupFindsField(gs, c, t);
    FindFieldMeaning(fs, t);
    if i :| 0 <= i < |fs| && fs[i].tag == t {
      IsMember(gs, i);
      assert gs[i].value == (if t == tag then value else fs[i].value);
    } else {
      forall f | f in gs ensures f.tag != t {
        var i :| 0 <= i < |gs| && gs[i] == f;
        assert fs[i].tag == f.tag;
      }
    }
  }

  /** Edits leave everything but payloads and their fingerprints alone. */
  predicate Edited(env: Env, p: Profile, q: Profile) {
    && q == p.(payload := q.payload, fingerprint := q.fingerprint)
    && (p.fingerprint == FingerprintHex(env, p.payload) ==> q.fingerprint == FingerprintHex(env, q.payload))
  }

  lemma {:induction false} EditsKeep(env: Env, right: Side, l: Profile, r: Profile, edits: seq<Edit>)
    requires ApplyEdits(env, right, l, r, edits).Ok?
    ensures var (l2, r2) := ApplyEdits(env, right, l, r, edits).value; Edited(env, l, l2) && Edited(env, r, r2)
    decreases edits
  {
    hide FingerprintHex, ResolveField, ApplyFieldEdit;
    if edits != [] {
      if ResolveField(env, right, edits[0].field).Some? {
        EditsKeep(env, right, l, EditProfile(env, r, edits[0]).value, edits[1..]);
      } else {
        EditsKeep(env, right, EditProfile(env, l, edits[0]).value, r, edits[1..]);
      }
    }
  }

  /** On record payloads no list of edits throws. */
  lemma {:induction false} EditsSucceed(env: Env, right: Side, l: Profile, r: Profile, edits: seq<Edit>)
    requires SoundPayload(l.payload) && SoundPayload(r.payload)
    ensures ApplyEdits(env, right, l, r, edits).Ok?
    decreases edits
  {
    hide FingerprintHex, ResolveField, ApplyFieldEdit, SoundPayload, EditProfile;
    if edits != [] {
      if ResolveField(env, right, edits[0].field).Some? {
        EditSucceeds(env, r, edits[0]);
        EditsSucceed(env, right, l, EditProfile(env, r, edits[0]).value, edits[1..]);
      } else {
        EditSucceeds(env, l, edits[0]);
        EditsSucceed(env, right, EditProfile(env, l, edits[0]).value, r, edits[1..]);
      }
    }
  }

  lemma EditSucceeds(env: Env, p: Profile, edit: Edit)
    requires SoundPayload(p.payload)
    ensures EditProfile(env, p, edit).Ok? && SoundPayload(EditProfile(env, p, edit).value.payload)
  {
    if ResolveField(env, SideOf(p), edit.field).Some? {
      EditReplaces(env, p, edit);
    }
  }

  // ---- Making the edits ----

  lemma SameDepsNoCycle(env: Env, s: State, id: Uuid)
    requires Kept(env, s) && id in s.profiles && s.profiles[id] != [] && Last(s.profiles[id]).active
    ensures !ClosesCycle(s.deps, id, Last(s.profiles[id]).deps)
  {
    hide KeptHistories, Filed, Without;
    var deps := Last(s.profiles[id]).deps;
    if ClosesCycle(s.deps, id, deps) {
      SubgraphCycles(s.deps[id := Without(deps, id)], s.deps);
    }
  }

  lemma KeptHasHistories(env: Env, s: State)
    requires Kept(env, s)
    ensures KeptHistories(env, s) && RulesFiled(s.rules)
  {
  }

  /** Replacing an active profile by new content with the same dependencies succeeds, and makes the new content active. */
  lemma ReplacedIsActive(env: Env, s: State, id: Uuid, p: Profile, payload: Canon, provenance: Text)
    requires Kept(env, s) && ActiveProfile(s, id) == Some(p)
    requires FingerprintHex(env, payload) == p.fingerprint ==> payload == p.payload
    ensures var (t, r) := SupersedeProfile(env, s, p.kind, id, payload, p.deps, provenance);
            && r == Ok(id)
            && ActiveProfile(t, id).Some?
            && SideOf(ActiveProfile(t, id).value) == Side(p.kind, payload)
            && ActiveProfile(t, id).value.fingerprint == FingerprintHex(env, payload)
            && ActiveProfile(t, id).value.deps == p.deps
            && (forall x :: x != id ==> ActiveProfile(t, x) == ActiveProfile(s, x))
            && t.rules == s.rules
  {
    hide FingerprintHex, ClosesCycle, Kept, Relink, RetireAll;
    KeptHasHistories(env, s);
    ActiveIsNewest(env, s, id);
    SameDepsNoCycle(env, s, id);
  }

  // ---- The agreement ----

  ghost predicate NoCounterfactualRules(s: State) {
    forall id :: id in s.rules && s.rules[id].active ==> s.rules[id].rule.scope != COUNTERFACTUAL
  }

  ghost predicate OutcomesAreNamed(s: State) {
    forall id :: id in s.rules ==> s.rules[id].rule.outcome <= INSUFFICIENT_EVIDENCE
  }

  lemma SameApplicable(s: State, l: ProfileKind, r: ProfileKind)
    requires NoCounterfactualRules(s)
    ensures Applicable(s.rules, DERIVED_SCOPES, l, r) == Applicable(s.rules, {ScopeOf(false)}, l, r)
  {
    var a, b := Applicable(s.rules, DERIVED_SCOPES, l, r), Applicable(s.rules, {ScopeOf(false)}, l, r);
    forall o ensures o in a <==> o in b {
      if o in a {
        var id :| id in s.rules && Applies(s.rules[id], DERIVED_SCOPES, l, r) && s.rules[id].rule == o;
        assert Applies(s.rules[id], {ScopeOf(false)}, l, r);
      }
      if o in b {
        var id :| id in s.rules && Applies(s.rules[id], {ScopeOf(false)}, l, r) && s.rules[id].rule == o;
        assert Applies(s.rules[id], DERIVED_SCOPES, l, r);
      }
    }
  }

  /** What both kinds of decision take over from the evaluations. */
  predicate SameFindings(c: Decision, d: Decision) {
    && c.outcome == d.outcome && c.satisfied == d.satisfied && c.failed == d.failed
    && c.adaptations == d.adaptations && c.missingEvidence == d.missingEvidence
    && (c.ruleId == d.ruleId || (c.ruleId == ZERO_UUID && (c.outcome == UNKNOWN || c.outcome == INSUFFICIENT_EVIDENCE)))
  }

  lemma SettledAlike(env: Env, c: Decision, d: Decision, cand: seq<Rule>, evals: seq<RuleEval>)
    requires c.satisfied == c.failed == d.satisfied == d.failed == []
    requires c.adaptations == c.missingEvidence == d.adaptations == d.missingEvidence == []
    requires c.ruleId == ZERO_UUID
    ensures SameFindings(ResolveDerived(env, c, evals), Resolve(env, d, cand, evals))
  {
    hide ConflictNotes;
  }

  lemma {:induction false} EvaluationsAreNamed(env: Env, cand: seq<Rule>, l: Side, r: Side)
    requires EvalAll(env, cand, l, r).Ok? && forall o :: o in cand ==> o.outcome <= INSUFFICIENT_EVIDENCE
    ensures forall e :: e in EvalAll(env, cand, l, r).value ==> e.outcome <= INSUFFICIENT_EVIDENCE
  {
    if cand != [] {
      hide EvalRule;
      EvaluationsAreNamed(env, cand[1..], l, r);
      IsMember(cand, 0);
      EvaluationIsNamed(env, cand[0], l, r);
    }
  }

  lemma EvaluationIsNamed(env: Env, rule: Rule, l: Side, r: Side)
    requires EvalRule(env, rule, l, r).Ok? && rule.outcome <= INSUFFICIENT_EVIDENCE
    ensures EvalRule(env, rule, l, r).value.outcome <= INSUFFICIENT_EVIDENCE
  {
    hide EvalRule, SomeHolds, AllHold, AllKnown, RuleThrows, Lacks;
    EvalRuleConcludes(env, rule, l, r);
  }

  lemma CandidatesAgree(s: State, l: ProfileKind, r: ProfileKind)
    requires RulesFiled(s.rules) && NoCounterfactualRules(s)
    ensures Candidates(s.rules, DERIVED_SCOPES, l, r) == Candidates(s.rules, {ScopeOf(false)}, l, r)
  {
    hide Applicable, Ranking;
    SameApplicable(s, l, r);
  }

  lemma CandidatesAreFiled(s: State, l: ProfileKind, r: ProfileKind)
    requires RulesFiled(s.rules) && OutcomesAreNamed(s)
    ensures forall o :: o in Candidates(s.rules, {ScopeOf(false)}, l, r) ==> o.outcome <= INSUFFICIENT_EVIDENCE
  {
    ApplicableDistinct(s.rules, {ScopeOf(false)}, l, r);
    assert IsRanking(Candidates(s.rules, {ScopeOf(false)}, l, r), Applicable(s.rules, {ScopeOf(false)}, l, r));
  }

  lemma SidesOf(l: Profile, r: Profile, t: State, left: Uuid, right: Uuid)
    requires RuleResolved(t, left, right) && LeftSide(t, left, right) == SideOf(l)
             && RightSide(t, left, right) == SideOf(r)
    ensures ActiveProfile(t, left).value.kind == l.kind && ActiveProfile(t, right).value.kind == r.kind
    ensures SideOf(ActiveProfile(t, left).value) == SideOf(l) && SideOf(ActiveProfile(t, right).value) == SideOf(r)
  {
  }

  lemma OutcomeOfDerived(env: Env, c: Decision, evals: seq<RuleEval>)
    ensures OutcomesNamed(evals) ==> ResolveDerived(env, c, evals).outcome <= INSUFFICIENT_EVIDENCE
  {
  }

  /** Deciding the edited profiles as derived, and deciding a state in which they are the active ones. */
  lemma DerivedAgrees(env: Env, s: State, t: State, left: Uuid, right: Uuid, l: Profile, r: Profile)
    requires RulesFiled(s.rules) && t.rules == s.rules && NoCounterfactualRules(s)
    requires RuleResolved(t, left, right) && LeftSide(t, left, right) == SideOf(l)
             && RightSide(t, left, right) == SideOf(r)
    ensures var c, d := DecideDerived(env, s, left, right, l, r), Decide(env, t, left, right, false);
            && (d.Ok? ==> c.Ok? && SameFindings(c.value, d.value))
            && (OutcomesAreNamed(s) ==> (c.Ok? <==> d.Ok?))
  {
    hide EvalRule, Candidates, Resolve, ResolveDerived, Deciding, DigestTree, IdTree, SideOf;
    var cand := Candidates(s.rules, {ScopeOf(false)}, l.kind, r.kind);
    CandidatesAgree(s, l.kind, r.kind);
    SidesOf(l, r, t, left, right);
    var evals := EvalAll(env, cand, SideOf(l), SideOf(r));
    if evals.Ok? {
      var p, q := ActiveProfile(t, left).value, ActiveProfile(t, right).value;
      var c := Blank(s, left, right, [env.wording(Derived)], true);
      var d := Blank(t, left, right, [env.wording(RuleResolution)], false).(left := p.id, right := q.id);
      SettledAlike(env, c, d, cand, evals.value);
      OutcomeOfDerived(env, c, evals.value);
      if OutcomesAreNamed(s) {
        CandidatesAreFiled(s, l.kind, r.kind);
        EvaluationsAreNamed(env, cand, SideOf(l), SideOf(r));
      }
    }
  }

  /** The registry in which both profiles have been replaced by their edited content, with the dependencies they had. */
  ghost function AfterEdits(env: Env, s: State, left: Uuid, right: Uuid, l: Profile, r: Profile): (State, bool) {
    var (t, x) := SupersedeProfile(env, s, l.kind, left, l.payload, l.deps, l.provenance);
    var (u, y) := SupersedeProfile(env, t, r.kind, right, r.payload, r.deps, r.provenance);
    (u, x.Ok? && y.Ok?)
  }

  /** Replacing both profiles succeeds, and makes the edited content active. */
  lemma EditsAreMade(env: Env, s: State, left: Uuid, right: Uuid, l: Profile, r: Profile,
                     edits: seq<Edit>, l2: Profile, r2: Profile)
    requires Kept(env, s) && left != right
    requires ActiveProfile(s, left) == Some(l) && ActiveProfile(s, right) == Some(r)
    requires ApplyEdits(env, SideOf(r), l, r, edits) == Ok((l2, r2))
    requires l2.fingerprint == l.fingerprint ==> l2.payload == l.payload
    requires r2.fingerprint == r.fingerprint ==> r2.payload == r.payload
    ensures var (t, done) := AfterEdits(env, s, left, right, l2, r2);
            && done && t.rules == s.rules && RulesFiled(t.rules)
            && ActiveProfile(t, left).Some? && ActiveProfile(t, right).Some?
            && SideOf(ActiveProfile(t, left).value) == SideOf(l2) && SideOf(ActiveProfile(t, right).value) == SideOf(r2)
            && ActiveProfile(t, left).value.fingerprint == l2.fingerprint
            && ActiveProfile(t, right).value.fingerprint == r2.fingerprint
    ensures l2.kind == l.kind && r2.kind == r.kind
  {
    hide FingerprintHex, Kept, SupersedeProfile, ActiveProfile, RulesFiled, ApplyEdits;
    KeptHasHistories(env, s);
    ActiveIsNewest(env, s, left);
    ActiveIsNewest(env, s, right);
    EditsKeep(env, SideOf(r), l, r, edits);
    ReplacedIsActive(env, s, left, l, l2.payload, l2.provenance);
    SupersedeKeeps(env, s, l2.kind, left, l2.payload, l2.deps, l2.provenance);
    var t := SupersedeProfile(env, s, l2.kind, left, l2.payload, l2.deps, l2.provenance).0;
    ReplacedIsActive(env, t, right, r, r2.payload, r2.provenance);
  }

  /**
    * Replacing both profiles by their edited content succeeds, and evaluating the pair then finds what
    * the counterfactual found: outcome, constraints, adaptations, missing evidence, and the rule if one
    * decides. Only a conflicting rule whose outcome has no name can make the evaluation throw alone.
    */
  lemma CounterfactualForetells(env: Env, s: State, left: Uuid, right: Uuid, l: Profile, r: Profile,
                                edits: seq<Edit>, l2: Profile, r2: Profile)
    requires Kept(env, s) && left != right && NoCounterfactualRules(s)
    requires ActiveProfile(s, left) == Some(l) && ActiveProfile(s, right) == Some(r)
    requires ApplyEdits(env, SideOf(r), l, r, edits) == Ok((l2, r2)) && l2.fingerprint != r2.fingerprint
    requires l2.fingerprint == l.fingerprint ==> l2.payload == l.payload
    requires r2.fingerprint == r.fingerprint ==> r2.payload == r.payload
    ensures AfterEdits(env, s, left, right, l2, r2).1
    ensures var t := AfterEdits(env, s, left, right, l2, r2).0;
            RulesFiled(t.rules) &&
            var c, d := DecideCounterfactual(env, s, left, right, edits), Decide(env, t, left, right, false);
            && (d.Ok? ==> c.Ok? && SameFindings(c.value, d.value))
            && (OutcomesAreNamed(s) ==> (c.Ok? <==> d.Ok?))
  {
    hide FingerprintHex, Kept, AfterEdits, Decide, DecideDerived, ActiveProfile, NoCounterfactualRules, OutcomesAreNamed,
         RulesFiled, ApplyEdits, SameFindings;
    KeptHasHistories(env, s);
    EditsAreMade(env, s, left, right, l, r, edits, l2, r2);
    DerivedAgrees(env, s, AfterEdits(env, s, left, right, l2, r2).0, left, right, l2, r2);
  }

  /** A derived decision throws unless every applicable rule can be evaluated and the winner's outcome has a name, which it then takes. */
  lemma DerivedOutcome(env: Env, s: State, left: Uuid, right: Uuid, l: Profile, r: Profile)
    requires RulesFiled(s.rules)
    ensures var rules, c := Applicable(s.rules, DERIVED_SCOPES, l.kind, r.kind), DecideDerived(env, s, left, right, l, r);
            && (c.Ok? <==>
                  && (forall o :: o in rules ==> EvalRule(env, o, SideOf(l), SideOf(r)).Ok?)
                  && (forall w :: Wins(env, rules, SideOf(l), SideOf(r), w) ==>
                        ConclusionOf(env, w, SideOf(l), SideOf(r)).outcome <= INSUFFICIENT_EVIDENCE))
            && (c.Ok? ==> forall w :: Wins(env, rules, SideOf(l), SideOf(r), w) ==>
                  c.value.outcome == ConclusionOf(env, w, SideOf(l), SideOf(r)).outcome)
            && (c.Ok? ==>
                  || c.value.outcome == UNKNOWN || c.value.outcome == INSUFFICIENT_EVIDENCE
                  || exists w :: Wins(env, rules, SideOf(l), SideOf(r), w))
  {
    hide EvalRule, ConclusionOf, EvalAll, DigestTree, Speaks;
    var rules := Applicable(s.rules, DERIVED_SCOPES, l.kind, r.kind);
    var cand := Candidates(s.rules, DERIVED_SCOPES, l.kind, r.kind);
    ApplicableDistinct(s.rules, DERIVED_SCOPES, l.kind, r.kind);
    EvalAllReturns(env, cand, SideOf(l), SideOf(r));
    assert forall o :: o in cand <==> o in rules;
    if EvalAll(env, cand, SideOf(l), SideOf(r)).Ok? {
      if Deciding(EvalAll(env, cand, SideOf(l), SideOf(r)).value) != [] {
        var i := BestIsWinner(env, cand, rules, SideOf(l), SideOf(r));
        SpeaksAsEvaluated(env, cand, SideOf(l), SideOf(r), i);
        forall w | Wins(env, rules, SideOf(l), SideOf(r), w) ensures w == cand[i] {
          WinnerUnique(env, rules, SideOf(l), SideOf(r), w, cand[i]);
        }
      } else {
        NoneSpeaks(env, cand, rules, SideOf(l), SideOf(r));
      }
    }
  }

  /**
    * Where the edited profiles come to have one fingerprint, the pair is then decided by identity, which a
    * counterfactual does not look at. It gives the same outcome exactly if every applicable rule can be
    * evaluated and the one that wins concludes Exact.
    */
  lemma IdentityIsNotForetold(env: Env, s: State, left: Uuid, right: Uuid, l: Profile, r: Profile,
                              edits: seq<Edit>, l2: Profile, r2: Profile)
    requires Kept(env, s) && left != right
    requires ActiveProfile(s, left) == Some(l) && ActiveProfile(s, right) == Some(r)
    requires ApplyEdits(env, SideOf(r), l, r, edits) == Ok((l2, r2)) && l2.fingerprint == r2.fingerprint
    requires l2.fingerprint == l.fingerprint ==> l2.payload == l.payload
    requires r2.fingerprint == r.fingerprint ==> r2.payload == r.payload
    ensures var t := AfterEdits(env, s, left, right, l2, r2).0;
            && RulesFiled(t.rules)
            && Decide(env, t, left, right, false).Ok? && Decide(env, t, left, right, false).value.outcome == EXACT
    ensures var c := DecideCounterfactual(env, s, left, right, edits);
            var rules := Applicable(s.rules, DERIVED_SCOPES, l.kind, r.kind);
            c.Ok? && c.value.outcome == EXACT <==>
              && (forall o :: o in rules ==> EvalRule(env, o, SideOf(l2), SideOf(r2)).Ok?)
              && exists w :: Wins(env, rules, SideOf(l2), SideOf(r2), w)
                             && ConclusionOf(env, w, SideOf(l2), SideOf(r2)).outcome == EXACT
  {
    hide FingerprintHex, Kept, AfterEdits, ActiveProfile, RulesFiled, ApplyEdits, DecideDerived, Decide, EvalRule,
         ConclusionOf, Applicable, Wins;
    KeptHasHistories(env, s);
    EditsAreMade(env, s, left, right, l, r, edits, l2, r2);
    OneFingerprintIsExact(env, AfterEdits(env, s, left, right, l2, r2).0, left, right);
    DerivedOutcome(env, s, left, right, l2, r2);
    WinnerStays(env, Applicable(s.rules, DERIVED_SCOPES, l.kind, r.kind), s, l2, r2);
  }

  lemma OneFingerprintIsExact(env: Env, s: State, left: Uuid, right: Uuid)
    requires RulesFiled(s.rules) && ActiveProfile(s, left).Some? && ActiveProfile(s, right).Some?
    requires ActiveProfile(s, left).value.fingerprint == ActiveProfile(s, right).value.fingerprint
    ensures Decide(env, s, left, right, false).Ok? && Decide(env, s, left, right, false).value.outcome == EXACT
  {
    hide ActiveProfile, DigestTree;
  }

  /** If some winner concludes Exact, every winner does, being the same. */
  lemma WinnerStays(env: Env, rules: set<Rule>, s: State, l: Profile, r: Profile)
    requires RulesFiled(s.rules) && rules == Applicable(s.rules, DERIVED_SCOPES, l.kind, r.kind)
    ensures forall v, w :: Wins(env, rules, SideOf(l), SideOf(r), v) && Wins(env, rules, SideOf(l), SideOf(r), w) ==> v == w
  {
    ApplicableDistinct(s.rules, DERIVED_SCOPES, l.kind, r.kind);
    forall v, w | Wins(env, rules, SideOf(l), SideOf(r), v) && Wins(env, rules, SideOf(l), SideOf(r), w) ensures v == w {
      WinnerUnique(env, rules, SideOf(l), SideOf(r), v, w);
    }
  }
}
