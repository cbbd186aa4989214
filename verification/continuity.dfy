/** A recovered registry goes on as the one that was stored would have. */
module Continuity {
  import opened Prelude
  import opened Canonical
  import opened Rules
  import opened Graphs
  import opened States
  import opened Decisions
  import opened Counterfactuals
  import opened Snapshots
  import opened Runs
  import opened Recovery

  ghost predicate SameOut(g: Graph<Uuid>, h: Graph<Uuid>) {
    forall id: Uuid :: Out(g, id) == Out(h, id)
  }

  predicate SameRules(a: map<Uuid, RuleRecord>, b: map<Uuid, RuleRecord>) {
    a.Keys == b.Keys && forall id :: id in a ==> b[id] == a[id].(superseded := b[id].superseded)
  }

  /** Everything that any call looks at is the same, but for the counters that number rules and evidence. */
  ghost predicate Continues(s: State, t: State) {
    && t == s.(rules := t.rules, deps := t.deps, ruleGen := t.ruleGen, evidenceGen := t.evidenceGen)
    && SameRules(s.rules, t.rules) && SameOut(s.deps, t.deps)
  }

  ghost predicate OnlyRecords(s: State) {
    RecordPayloads(s) && forall id :: id in s.evidence ==> s.evidence[id].value.Record?
  }

  lemma SameOutCyclic(g: Graph<Uuid>, h: Graph<Uuid>)
    requires SameOut(g, h)
    ensures Cyclic(g) <==> Cyclic(h)
  {
    if Cyclic(g) { SubgraphCycles(g, h); }
    if Cyclic(h) { SubgraphCycles(h, g); }
  }

  /** Reducing leaves a payload as it is exactly if it is a record. */
  lemma RecordsUnreduced(env: Env, s: State)
    requires Kept(env, s)
    ensures RecordPayloads(s) ==> PayloadsSurvive(env, s)
    ensures ReducedHistories(s.profiles) == s.profiles <==> RecordPayloads(s)
    ensures ReducedEvidence(s.evidence) == s.evidence <==> forall id :: id in s.evidence ==> s.evidence[id].value.Record?
  {
    hide FingerprintHex, Kept;
    KeptOwns(env, s);
    HistoriesUnreduced(s.profiles);
    forall id | id in s.evidence
      ensures ReducedEvidence(s.evidence)[id] == s.evidence[id] <==> s.evidence[id].value.Record?
    {
    }
  }

  lemma HistoriesUnreduced(profiles: map<Uuid, seq<Profile>>)
    ensures ReducedHistories(profiles) == profiles <==>
              forall id, i :: id in profiles && 0 <= i < |profiles[id]| ==> profiles[id][i].payload.Record?
  {
    forall id | id in profiles
      ensures ReducedHistory(profiles[id]) == profiles[id] <==>
                forall i :: 0 <= i < |profiles[id]| ==> profiles[id][i].payload.Record?
    {
      HistoryUnreduced(profiles[id]);
    }
    assert forall id :: id in profiles ==> ReducedHistories(profiles)[id] == ReducedHistory(profiles[id]);
  }

  lemma HistoryUnreduced(h: seq<Profile>)
    ensures ReducedHistory(h) == h <==> forall i :: 0 <= i < |h| ==> h[i].payload.Record?
  {
    assert forall i :: 0 <= i < |h| ==> ReducedHistory(h)[i].payload == Reduced(h[i].payload);
  }

  /**
    * Recovering from a snapshot, written in any order, gives back the state, dependencies included, exactly
    * if the edges are those of the newest records, as they are unless a replacement was refused, and all
    * payloads and all evidence are records.
    */
  lemma RecoverSnapshot(env: Env, s: State, order: Order)
    requires Kept(env, s) && Bounded(s) && IsOrder(s, order) && WellFormed(Document(s, order))
    ensures var r := Recovered(env, Contained(env, CanonicalEncode(Document(s, order))));
            && (EdgesCurrent(s) && RecordPayloads(s) ==> r.Ok?)
            && (r.Ok? && Continues(s, r.value) <==> EdgesCurrent(s) && OnlyRecords(s))
            && (r.Ok? ==> r.value.ruleGen == 0 && r.value.evidenceGen == 0)
  {
    hide WellFormed, Document, CanonicalEncode, Contained, Recovered, PayloadsSurvive, Rebuilt, Bounded, IsOrder,
         RecordPayloads, KeptHistories, Filed, ReducedHistories, ReducedEvidence;
    RecoveredIsStored(env, s, order);
    RecordsUnreduced(env, s);
    RebuiltOut(s.profiles);
    EdgesAreRebuilt(env, s);
    if EdgesCurrent(s) {
      SameOutCyclic(s.deps, Rebuilt(s.profiles));
    }
    FreshRulesSame(s.rules);
  }

  /** Evidence whose value is no record is emptied by a recovery that otherwise succeeds. */
  lemma OddEvidenceIsEmptied(env: Env, s: State, order: Order, id: Uuid)
    requires Kept(env, s) && Bounded(s) && IsOrder(s, order) && WellFormed(Document(s, order))
    requires EdgesCurrent(s) && RecordPayloads(s) && id in s.evidence && !s.evidence[id].value.Record?
    ensures var r := Recovered(env, Contained(env, CanonicalEncode(Document(s, order))));
            && r.Ok? && id in r.value.evidence && r.value.evidence[id] == s.evidence[id].(value := Record([]))
            && r.value.evidence[id] != s.evidence[id]
  {
    hide WellFormed, Document, CanonicalEncode, Contained, Recovered, PayloadsSurvive, Rebuilt, Bounded, IsOrder,
         RecordPayloads, Kept, EdgesCurrent, ReducedHistories, Continues;
    RecoverSnapshot(env, s, order);
    RecoveredIsStored(env, s, order);
  }

  lemma FreshRulesSame(rules: map<Uuid, RuleRecord>)
    ensures SameRules(rules, FreshRules(rules))
  {
  }

  lemma EdgesAreRebuilt(env: Env, s: State)
    requires Kept(env, s)
    ensures forall id :: id in s.profiles ==> s.profiles[id] != []
    ensures EdgesCurrent(s) <==> SameOut(s.deps, Rebuilt(s.profiles))
  {
    hide KeptHistories, Filed, Rebuilt, Cyclic;
    RebuiltOut(s.profiles);
    if SameOut(s.deps, Rebuilt(s.profiles)) {
      forall id | id in s.profiles ensures Out(s.deps, id) == Without(Last(s.profiles[id]).deps, id) {
        assert Out(s.deps, id) == Out(Rebuilt(s.profiles), id);
      }
    }
  }

  /** So after a run without refused replacements, every snapshot gives back the state exactly if all it holds are records. */
  lemma RunRecovers(env: Env, states: seq<State>, ops: seq<Op>, i: nat, order: Order)
    requires Run(env, states, ops) && i < |states|
    requires forall k :: 0 <= k < i && ops[k].Supersede? ==> !Refused(states[k], ops[k], env)
    requires Bounded(states[i]) && IsOrder(states[i], order) && WellFormed(Document(states[i], order))
    ensures var r := Recovered(env, Contained(env, CanonicalEncode(Document(states[i], order))));
            && (RecordPayloads(states[i]) ==> r.Ok?)
            && (r.Ok? && Continues(states[i], r.value) <==> OnlyRecords(states[i]))
  {
    hide Run, Kept, EdgesCurrent, Continues, WellFormed, Document, CanonicalEncode, Contained, Recovered, Bounded,
         OnlyRecords, RecordPayloads, IsOrder;
    RunKeeps(env, states, ops, i);
    RunEdgesCurrent(env, states, ops, i);
    RecoverSnapshot(env, states[i], order);
  }

  // ---- Decisions ----

  lemma SameRulesApply(a: map<Uuid, RuleRecord>, b: map<Uuid, RuleRecord>, scopes: set<Text>, l: ProfileKind,
                       r: ProfileKind)
    requires SameRules(a, b)
    ensures Applicable(a, scopes, l, r) == Applicable(b, scopes, l, r)
  {
    var x, y := Applicable(a, scopes, l, r), Applicable(b, scopes, l, r);
    forall o ensures o in x <==> o in y {
      if o in x {
        var id :| id in a && Applies(a[id], scopes, l, r) && a[id].rule == o;
        assert id in b && Applies(b[id], scopes, l, r);
      }
      if o in y {
        var id :| id in b && Applies(b[id], scopes, l, r) && b[id].rule == o;
        assert id in a && Applies(a[id], scopes, l, r);
      }
    }
  }

  lemma SameCandidates(a: map<Uuid, RuleRecord>, b: map<Uuid, RuleRecord>)
    requires SameRules(a, b) && RulesFiled(a)
    ensures RulesFiled(b)
    ensures forall scopes: set<Text>, l, r :: Candidates(a, scopes, l, r) == Candidates(b, scopes, l, r)
  {
    hide Applicable, Ranking;
    assert forall id :: id in b ==> id in a && b[id].rule == a[id].rule;
    forall scopes: set<Text>, l, r ensures Candidates(a, scopes, l, r) == Candidates(b, scopes, l, r) {
      SameRulesApply(a, b, scopes, l, r);
    }
  }

  /** Every pair and every requirement gets the same full decision, and every counterfactual too. */
  lemma ContinuedDecides(env: Env, s: State, t: State, left: Uuid, right: Uuid)
    requires Continues(s, t) && RulesFiled(s.rules)
    ensures RulesFiled(t.rules)
    ensures forall requirement :: Decide(env, s, left, right, requirement) == Decide(env, t, left, right, requirement)
    ensures forall edits :: DecideCounterfactual(env, s, left, right, edits) == DecideCounterfactual(env, t, left, right, edits)
  {
    hide SameRules, SameOut, Candidates, RulesFiled, EvalAll, Resolve, ResolveDerived, Sealed, OutcomesNamed,
         NewestActive, DecisionId, ApplyEdits, ExactDecision;
    SameCandidates(s.rules, t.rules);
  }

  // ---- Further calls ----

  lemma SameClosing(g: Graph<Uuid>, h: Graph<Uuid>, id: Uuid, ds: seq<Uuid>)
    requires SameOut(g, h)
    ensures ClosesCycle(g, id, ds) <==> ClosesCycle(h, id, ds)
    ensures SameOut(Relink(g, id, ds), Relink(h, id, ds)) && SameOut(g - {id}, h - {id})
  {
    hide Cyclic, Without;
    OutAfter(g, id, Without(ds, id));
    OutAfter(h, id, Without(ds, id));
    SameOutCyclic(g[id := Without(ds, id)], h[id := Without(ds, id)]);
    RelinkOut(g, id, ds);
    RelinkOut(h, id, ds);
  }

  lemma ContinuedAppend(s: State, t: State, p: Profile)
    requires Continues(s, t)
    ensures Continues(Retired(s, p.id), Retired(t, p.id)) && NextGeneration(s, p.id) == NextGeneration(t, p.id)
    ensures Continues(Appended(s, p), Appended(t, p))
  {
    hide SameRules, SameOut, ClosesCycle, Relink;
    SameClosing(s.deps, t.deps, p.id, p.deps);
  }

  lemma ContinuedRegister(env: Env, s: State, t: State, given: Profile)
    requires Continues(s, t)
    ensures RegisterProfile(env, s, given).1 == RegisterProfile(env, t, given).1
    ensures Continues(RegisterProfile(env, s, given).0, RegisterProfile(env, t, given).0)
  {
    hide SameRules, SameOut, ClosesCycle, Relink, FingerprintHex, Appended, Retired, NextGeneration;
    var p := given.(fingerprint := FingerprintHex(env, given.payload), generation := NextGeneration(s, given.id));
    SameClosing(s.deps, t.deps, p.id, p.deps);
    ContinuedAppend(s, t, p);
    ContinuedAppend(Retired(s, p.id), Retired(t, p.id), p);
  }

  lemma ContinuedSupersede(env: Env, s: State, t: State, op: Op)
    requires Continues(s, t) && op.Supersede?
    ensures var x, y := SupersedeProfile(env, s, op.kind, op.id, op.payload, op.deps, op.provenance),
                        SupersedeProfile(env, t, op.kind, op.id, op.payload, op.deps, op.provenance);
            x.1 == y.1 && Continues(x.0, y.0)
  {
    hide SameRules, SameOut, ClosesCycle, Relink, FingerprintHex, Appended, NextGeneration, RetireAll;
    var fingerprint := FingerprintHex(env, op.payload);
    var p := Profile(op.kind, op.id, NextGeneration(s, op.id), op.payload, op.deps, true, false, op.provenance, fingerprint);
    SameClosing(s.deps, t.deps, op.id, op.deps);
    ContinuedAppend(s, t, p);
    if op.id in s.profiles {
      var a, b := Retired(s, op.id).(deps := s.deps - {op.id}), Retired(t, op.id).(deps := t.deps - {op.id});
      ContinuedAppend(a, b, p);
    }
  }

  lemma SameReach(g: Graph<Uuid>, h: Graph<Uuid>, a: Uuid, b: Uuid)
    requires SameOut(g, h) && Reaches(g, a, b)
    ensures Reaches(h, a, b)
  {
    var p :| Path(g, p) && p[0] == a && p[|p| - 1] == b;
    assert Path(h, p);
  }

  lemma ContinuedPropagate(s: State, t: State, id: Uuid, u: State, targets: seq<Uuid>)
    requires Continues(s, t) && PropagatesInvalidation(s, id, u, targets)
    ensures var v := t.(profiles := u.profiles, invalidations := u.invalidations, gen := t.gen + 1);
            PropagatesInvalidation(t, id, v, targets) && Continues(u, v)
  {
    hide SameRules, KillAll, Reaches;
    forall x ensures Affected(s, id, x) <==> Affected(t, id, x) {
      if Affected(s, id, x) { SameReach(s.deps, t.deps, x, id); }
      if Affected(t, id, x) { SameReach(t.deps, s.deps, x, id); }
    }
    MarkedAlike(s, t, u, targets);
  }

  lemma MarkedAlike(s: State, t: State, u: State, targets: seq<Uuid>)
    requires Marked(s, u.profiles, u.invalidations, targets) && t.profiles == s.profiles
             && t.invalidations == s.invalidations
    ensures Marked(t, u.profiles, u.invalidations, targets)
  {
    hide KillAll;
  }

  /** The rule registered gets its generation from the counter that is not stored. */
  predicate DrawsGeneration(s: State, op: Op) {
    op.AddRule? && op.rule.generation == 0 && !(op.rule.ruleId in s.rules && s.rules[op.rule.ruleId].active)
  }

  lemma ContinuedRules(env: Env, s: State, t: State, op: Op)
    requires Continues(s, t) && !DrawsGeneration(s, op)
    requires op.AddRule? || op.ReplaceRule? || op.Disable?
    ensures op.AddRule? ==> Continues(RegisterRule(s, op.rule), RegisterRule(t, op.rule))
    ensures op.ReplaceRule? ==> SupersedeRule(s, op.id, op.rule).1 == SupersedeRule(t, op.id, op.rule).1
                                && Continues(SupersedeRule(s, op.id, op.rule).0, SupersedeRule(t, op.id, op.rule).0)
    ensures op.Disable? ==> DisableRule(s, op.id).1 == DisableRule(t, op.id).1
                            && Continues(DisableRule(s, op.id).0, DisableRule(t, op.id).0)
  {
    hide SameOut;
  }

  /** Whatever the stored registry could do next, the recovered one can, and they go on alike. */
  lemma ContinuedStep(env: Env, s: State, op: Op, u: State, t: State) returns (v: State)
    requires Continues(s, t) && Step(env, s, op, u) && !DrawsGeneration(s, op)
    ensures Step(env, t, op, v) && Continues(u, v)
  {
    hide RegisterProfile, SupersedeProfile, PropagatesInvalidation, Decide, Continues, RegisterRule, SupersedeRule,
         DisableRule, RulesFiled, KillAll;
    RulesFiledToo(s, t);
    match op {
      case Register(p) =>
        ContinuedRegister(env, s, t, p);
        v := RegisterProfile(env, t, p).0;
      case Supersede(kind, id, payload, deps, provenance) =>
        ContinuedSupersede(env, s, t, op);
        v := SupersedeProfile(env, t, kind, id, payload, deps, provenance).0;
      case Propagate(id) =>
        var targets :| PropagatesInvalidation(s, id, u, targets);
        ContinuedPropagate(s, t, id, u, targets);
        v := t.(profiles := u.profiles, invalidations := u.invalidations, gen := t.gen + 1);
      case AddRule(rule) =>
        ContinuedRules(env, s, t, op);
        v := RegisterRule(t, rule);
      case ReplaceRule(id, rule) =>
        ContinuedRules(env, s, t, op);
        v := SupersedeRule(t, id, rule).0;
      case Disable(id) =>
        ContinuedRules(env, s, t, op);
        v := DisableRule(t, id).0;
      case _ =>
        v := ContinuedPlain(env, s, op, u, t);
    }
  }

  lemma RulesFiledToo(s: State, t: State)
    requires Continues(s, t) && RulesFiled(s.rules)
    ensures RulesFiled(t.rules)
  {
  }

  lemma ContinuedPlain(env: Env, s: State, op: Op, u: State, t: State) returns (v: State)
    requires Continues(s, t) && Step(env, s, op, u) && RulesFiled(t.rules)
    requires op.Invalidate? || op.AddEvidence? || op.ChangePolicy? || op.Evaluate?
    ensures Step(env, t, op, v) && Continues(u, v)
  {
    hide InvalidateProfile, RegisterEvidence, SetPolicy, Decide, Continues, RulesFiled;
    match op {
      case Invalidate(id, reason) =>
        ContinuedInvalidate(s, t, id, reason);
        v := InvalidateProfile(t, id, reason).0;
      case AddEvidence(e) =>
        ContinuedEvidence(s, t, e);
        v := RegisterEvidence(t, e);
      case ChangePolicy(id) =>
        ContinuedPolicy(s, t, id);
        v := SetPolicy(t, id);
      case Evaluate(l, r, requirement) =>
        ContinuedEvaluate(env, s, t, l, r, requirement);
        v := Evaluated(env, t, l, r, requirement).0;
    }
  }

  lemma ContinuedInvalidate(s: State, t: State, id: Uuid, reason: Text)
    requires Continues(s, t)
    ensures Continues(InvalidateProfile(s, id, reason).0, InvalidateProfile(t, id, reason).0)
  {
    hide SameOut, SameRules, KillAll;
  }

  lemma ContinuedEvidence(s: State, t: State, e: Evidence)
    requires Continues(s, t)
    ensures Continues(RegisterEvidence(s, e), RegisterEvidence(t, e))
  {
    hide SameOut, SameRules;
  }

  lemma ContinuedPolicy(s: State, t: State, id: Uuid)
    requires Continues(s, t)
    ensures Continues(SetPolicy(s, id), SetPolicy(t, id))
  {
    hide SameOut, SameRules;
  }

  lemma ContinuedEvaluate(env: Env, s: State, t: State, left: Uuid, right: Uuid, requirement: bool)
    requires Continues(s, t) && RulesFiled(s.rules) && RulesFiled(t.rules)
    ensures Continues(Evaluated(env, s, left, right, requirement).0, Evaluated(env, t, left, right, requirement).0)
  {
    hide Decide, SameOut, SameRules, RulesFiled;
    ContinuedDecides(env, s, t, left, right);
  }

  /** The counter starts again at zero, so a rule that draws its generation makes the difference show. */
  lemma DrawnGenerations(env: Env, s: State, t: State, op: Op)
    requires Continues(s, t) && DrawsGeneration(s, op)
    ensures Continues(RegisterRule(s, op.rule), RegisterRule(t, op.rule)) <==> s.ruleGen == t.ruleGen
  {
    hide SameOut;
    var id := op.rule.ruleId;
    assert RegisterRule(s, op.rule).rules[id].rule.generation == s.ruleGen + 1;
    assert RegisterRule(t, op.rule).rules[id].rule.generation == t.ruleGen + 1;
  }

  /** A run from any state. */
  ghost predicate Steps(env: Env, states: seq<State>, ops: seq<Op>) {
    |states| == |ops| + 1 && forall i :: 0 <= i < |ops| ==> Step(env, states[i], ops[i], states[i + 1])
  }

  /** Every further run of the stored registry is a run of the recovered one, state for state. */
  lemma {:induction false} ContinuedRun(env: Env, states: seq<State>, ops: seq<Op>, t: State)
    returns (mirrored: seq<State>)
    requires Steps(env, states, ops) && Continues(states[0], t)
    requires forall i :: 0 <= i < |ops| ==> !DrawsGeneration(states[i], ops[i])
    ensures Steps(env, mirrored, ops) && mirrored[0] == t
    ensures forall i :: 0 <= i < |mirrored| ==> Continues(states[i], mirrored[i])
  {
    hide Step, Continues, DrawsGeneration;
    mirrored := [t];
    var i := 0;
    while i < |ops|
      invariant 0 <= i <= |ops| && |mirrored| == i + 1 && mirrored[0] == t
      invariant forall j :: 0 <= j <= i ==> Continues(states[j], mirrored[j])
      invariant forall j :: 0 <= j < i ==> Step(env, mirrored[j], ops[j], mirrored[j + 1])
    {
      var v := ContinuedStep(env, states[i], ops[i], states[i + 1], mirrored[i]);
      mirrored := mirrored + [v];
      i := i + 1;
    }
  }
}
