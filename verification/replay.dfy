/** What a cached decision is worth later: where generations determine decisions, and where the cache loses one. */
module Replays {
  import opened Prelude
  import opened Canonical
  import opened Rules
  import opened States
  import opened Decisions
  import opened Documents
  import opened Resolution
  import opened Runs

  // ---- The generation determines what is evaluated ----

  /** Equal but for the cache. */
  ghost predicate Alike(s: State, t: State) {
    t == s.(decisions := t.decisions)
  }

  lemma RecordingSettles(env: Env, s: State, op: Op, t: State)
    requires (op.Register? || op.Supersede?) && Step(env, s, op, t) && !Refused(s, op, env)
    ensures t.gen == s.gen + 1 || t == s
  {
    hide FingerprintHex, ClosesCycle, Relink, RulesFiled, RetireAll, NextGeneration;
  }

  /** A call that is not refused either raises the generation or leaves everything but the cache alone. */
  lemma StepSettles(env: Env, s: State, op: Op, t: State)
    requires Step(env, s, op, t) && !Refused(s, op, env)
    ensures t.gen == s.gen + 1 || Alike(s, t)
  {
    if op.Register? || op.Supersede? {
      RecordingSettles(env, s, op, t);
    } else {
      hide RegisterProfile, SupersedeProfile, Decide, Marked, Affected, KillAll, RulesFiled;
    }
  }

  ghost predicate NoneRefused(env: Env, states: seq<State>, ops: seq<Op>) {
    |states| == |ops| + 1 && forall i :: 0 <= i < |ops| ==> !Refused(states[i], ops[i], env)
  }

  lemma {:induction false} RunSettles(env: Env, states: seq<State>, ops: seq<Op>, i: nat, j: nat)
    requires Run(env, states, ops) && NoneRefused(env, states, ops) && i <= j < |states|
    ensures states[i].gen <= states[j].gen
    ensures states[i].gen == states[j].gen ==> Alike(states[i], states[j])
    decreases j
  {
    hide Run, Step, Refused;
    if i < j {
      RunSettles(env, states, ops, i, j - 1);
      RunStep(env, states, ops, j - 1);
      StepSettles(env, states[j - 1], ops[j - 1], states[j]);
    }
  }

  // ---- Refused calls included ----

  /** A refused call leaves its profile without an active record, and all else that is evaluated as it was. */
  lemma RefusedRetires(env: Env, s: State, op: Op, t: State)
    requires Refused(s, op, env) && Step(env, s, op, t)
    ensures t == s.(profiles := t.profiles, deps := t.deps) && ActiveProfile(t, Subject(op)) == None
    ensures forall id :: id != Subject(op) ==> ActiveProfile(t, id) == ActiveProfile(s, id)
  {
    hide FingerprintHex, ClosesCycle, IsCurrent, Appended, NewestActive, RulesFiled, RetireAll;
    var id := Subject(op);
    assert t.profiles == Retired(s, id).profiles;
    if id in s.profiles {
      NoneActive(s.profiles[id]);
    }
  }

  /** Evaluated alike, but that some profiles may have lost their active record. */
  ghost predicate Quieter(s: State, t: State) {
    && t.rules == s.rules && t.policy == s.policy && t.gen == s.gen
    && forall id :: ActiveProfile(t, id) == None || ActiveProfile(t, id) == ActiveProfile(s, id)
  }

  lemma StepQuiets(env: Env, s: State, op: Op, t: State)
    requires Step(env, s, op, t)
    ensures t.gen == s.gen + 1 || Quieter(s, t)
  {
    hide Step, Refused, NewestActive;
    if Refused(s, op, env) {
      RefusedRetires(env, s, op, t);
    } else {
      StepSettles(env, s, op, t);
    }
  }

  /** Any call raises the generation by one or leaves all rules, the policy, and every active record that it leaves active. */
  lemma {:induction false} RunQuiets(env: Env, states: seq<State>, ops: seq<Op>, i: nat, j: nat)
    requires Run(env, states, ops) && i <= j < |states|
    ensures states[i].gen <= states[j].gen
    ensures states[i].gen == states[j].gen ==> Quieter(states[i], states[j])
    decreases j
  {
    hide Run, Step, ActiveProfile;
    if i < j {
      RunQuiets(env, states, ops, i, j - 1);
      RunStep(env, states, ops, j - 1);
      StepQuiets(env, states[j - 1], ops[j - 1], states[j]);
    }
  }

  lemma SameGeneration(env: Env, states: seq<State>, ops: seq<Op>, i: nat, j: nat)
    requires Run(env, states, ops) && i < |states| && j < |states| && states[i].gen == states[j].gen
    ensures Quieter(states[i], states[j]) || Quieter(states[j], states[i])
    ensures states[i].rules == states[j].rules && states[i].policy == states[j].policy
  {
    hide Run, ActiveProfile;
    if i <= j { RunQuiets(env, states, ops, i, j); } else { RunQuiets(env, states, ops, j, i); }
  }

  /** What two profiles that are still active are evaluated to. */
  lemma DecideQuieter(env: Env, s: State, t: State, left: Uuid, right: Uuid, requirement: bool)
    requires RulesFiled(s.rules) && Quieter(s, t)
    requires ActiveProfile(t, left).Some? && ActiveProfile(t, right).Some?
    ensures Decide(env, s, left, right, requirement) == Decide(env, t, left, right, requirement)
    ensures RuleResolved(s, left, right) == RuleResolved(t, left, right)
    ensures RuleResolved(t, left, right) ==> RulesFor(s, left, right, requirement) == RulesFor(t, left, right, requirement)
  {
    hide Sealed, Resolve, EvalAll, Candidates, NewestActive, DecisionId, OutcomesNamed, RulesFiled;
    assert ActiveProfile(s, left) == ActiveProfile(t, left) && ActiveProfile(s, right) == ActiveProfile(t, right);
  }

  // ---- Identities ----

  lemma ActiveIsNewest(env: Env, s: State, id: Uuid)
    requires KeptHistories(env, s) && ActiveProfile(s, id).Some?
    ensures id in s.profiles && s.profiles[id] != []
    ensures var p := ActiveProfile(s, id).value;
            p == Last(s.profiles[id]) && p.active && p.id == id && p.fingerprint == FingerprintHex(env, p.payload)
  {
    hide FingerprintHex;
    assert KeptHistory(env, id, s.profiles[id]);
    var h := s.profiles[id];
    var i :| 0 <= i < |h| && h[i] == NewestActive(h).value;
  }

  lemma ResolvedNamesItsCall(env: Env, s: State, l: Profile, r: Profile, requirement: bool, d: Decision)
    requires RulesFiled(s.rules) && ResolveByRules(env, s, l, r, requirement, d).Ok?
    ensures var e := ResolveByRules(env, s, l, r, requirement, d).value;
            && e.left == d.left && e.right == d.right && e.policyId == d.policyId && e.registryGeneration == d.registryGeneration
            && e.counterfactual == d.counterfactual
            && e.decisionId == DecisionId(env, d.left, d.right, s.gen, requirement, s.policy)
  {
    hide RulesFiled, DigestTree, DecisionId, EvalAll, Candidates, Deciding, ConflictNotes, AnyMissing, OutcomesNamed;
  }

  /** What a decision says of the call that made it. */
  lemma DecisionNamesItsCall(env: Env, s: State, left: Uuid, right: Uuid, requirement: bool)
    requires Kept(env, s) && Decide(env, s, left, right, requirement).Ok?
    ensures var d := Decide(env, s, left, right, requirement).value;
            && d.left == left && d.right == right && d.policyId == s.policy && d.registryGeneration == s.gen
            && !d.counterfactual
            && d.decisionId == (if RuleResolved(s, left, right) then DecisionId(env, left, right, s.gen, requirement, s.policy)
                                else ZERO_UUID)
  {
    hide KeptEdges, DigestTree, DecisionId, ResolveByRules, NewestActive, FingerprintHex, KeptHistory, RulesFiled;
    if ActiveProfile(s, left).Some? { ActiveIsNewest(env, s, left); }
    if ActiveProfile(s, right).Some? { ActiveIsNewest(env, s, right); }
    if RuleResolved(s, left, right) {
      var l, r := ActiveProfile(s, left).value, ActiveProfile(s, right).value;
      var d := Blank(s, left, right, [env.wording(RuleResolution)], false).(left := l.id, right := r.id);
      ResolvedNamesItsCall(env, s, l, r, requirement, d);
    }
  }

  lemma IdTreeWellFormed(left: Uuid, right: Uuid, gen: nat, requirement: bool, policy: Uuid)
    ensures WellFormed(IdTree(left, right, gen, requirement, policy))
  {
    hide Write;
    var fs := IdTree(left, right, gen, requirement, policy).fields;
    forall f | f in fs ensures WellFormedField(f) && |EncodeField(f)| <= 32 {
      assert f.value.Id? || f.value.Uint? || f.value.Str? || f.value.Bool?;
    }
    ShortFields(fs);
  }

  lemma {:induction false} ShortFields(fs: seq<Field>)
    requires forall f :: f in fs ==> |EncodeField(f)| <= 32
    ensures |EncodeFields(fs)| <= 32 * |fs|
  {
    if fs != [] {
      hide EncodeField;
      ShortFields(fs[1..]);
      IsMember(fs, 0);
    }
  }

  /** No two of these texts have hashes that agree in their first 16 bytes, as ids keep them. */
  ghost predicate CollisionFree(env: Env, texts: set<Text>) {
    forall a, b :: a in texts && b in texts && env.sha(a)[..16] == env.sha(b)[..16] ==> a == b
  }

  lemma SameTree(env: Env, texts: set<Text>, a: Canon, b: Canon)
    requires CollisionFree(env, texts) && CanonicalEncode(a) in texts && CanonicalEncode(b) in texts
    requires WellFormed(a) && WellFormed(b)
    requires Fingerprint(env, a)[..16] == Fingerprint(env, b)[..16]
    ensures a == b
  {
    hide CanonicalEncode, WellFormed;
    EncodeInjective(a, b);
  }

  /** What evaluating a pair hashes. */
  ghost function Hashed(env: Env, s: State, left: Uuid, right: Uuid, requirement: bool): set<Text>
    requires RulesFiled(s.rules)
  {
    var d := Decide(env, s, left, right, requirement);
    {CanonicalEncode(IdTree(left, right, s.gen, requirement, s.policy))} + if d.Ok? then {CanonicalEncode(DigestTree(d.value))} else {}
  }

  /** The evaluation made by one step of a run stays within what hashing keeps apart. */
  ghost predicate Faithful(env: Env, s: State, left: Uuid, right: Uuid, requirement: bool, texts: set<Text>)
    requires RulesFiled(s.rules)
  {
    && s.gen < TWO_64 && Hashed(env, s, left, right, requirement) <= texts
    && (Decide(env, s, left, right, requirement).Ok? ==>
          WellFormed(DigestTree(Decide(env, s, left, right, requirement).value)))
  }

  /** Equal ids, other than zero, are equal decisions, wherever in a run they were made. */
  lemma EqualIdsEqualDecisions(env: Env, states: seq<State>, ops: seq<Op>, texts: set<Text>,
                               i: nat, left: Uuid, right: Uuid, requirement: bool,
                               j: nat, left': Uuid, right': Uuid, requirement': bool)
    requires Run(env, states, ops) && CollisionFree(env, texts)
    requires i < |states| && j < |states| && RulesFiled(states[i].rules) && RulesFiled(states[j].rules)
    requires Faithful(env, states[i], left, right, requirement, texts)
    requires Faithful(env, states[j], left', right', requirement', texts)
    requires Decide(env, states[i], left, right, requirement).Ok?
             && Decide(env, states[j], left', right', requirement').Ok?
    requires var d, e := Decide(env, states[i], left, right, requirement).value, Decide(env, states[j], left', right', requirement').value;
             d.decisionId == e.decisionId != ZERO_UUID
    ensures Decide(env, states[i], left, right, requirement) == Decide(env, states[j], left', right', requirement')
    ensures left == left' && right == right' && requirement == requirement'
  {
    hide Run, Kept, Decide, DigestTree, WellFormed, CollisionFree, CanonicalEncode, RulesFiled, ActiveProfile, Quieter,
         DecisionId, IdTree;
    var s, t := states[i], states[j];
    RunKeeps(env, states, ops, i);
    RunKeeps(env, states, ops, j);
    DecisionNamesItsCall(env, s, left, right, requirement);
    DecisionNamesItsCall(env, t, left', right', requirement');
    SameIdSameCall(env, texts, s, left, right, requirement, t, left', right', requirement');
    SameGeneration(env, states, ops, i, j);
    if Quieter(s, t) {
      DecideQuieter(env, s, t, left, right, requirement);
    } else {
      DecideQuieter(env, t, s, left, right, requirement);
    }
  }

  lemma SameIdSameCall(env: Env, texts: set<Text>, s: State, left: Uuid, right: Uuid, requirement: bool,
                       t: State, left': Uuid, right': Uuid, requirement': bool)
    requires CollisionFree(env, texts) && RulesFiled(s.rules) && RulesFiled(t.rules)
    requires Faithful(env, s, left, right, requirement, texts) && Faithful(env, t, left', right', requirement', texts)
    requires DecisionId(env, left, right, s.gen, requirement, s.policy) == DecisionId(env, left', right', t.gen, requirement', t.policy)
    ensures left == left' && right == right' && s.gen == t.gen && requirement == requirement' && s.policy == t.policy
  {
    hide RulesFiled, Decide, DigestTree, WellFormed, CollisionFree, CanonicalEncode, IdTree;
    IdTreeWellFormed(left, right, s.gen, requirement, s.policy);
    IdTreeWellFormed(left', right', t.gen, requirement', t.policy);
    SameTree(env, texts, IdTree(left, right, s.gen, requirement, s.policy), IdTree(left', right', t.gen, requirement', t.policy));
    IdTreeSame(left, right, s.gen, requirement, s.policy, left', right', t.gen, requirement', t.policy);
  }

  lemma IdTreeSame(l: Uuid, r: Uuid, g: nat, q: bool, p: Uuid, l': Uuid, r': Uuid, g': nat, q': bool, p': Uuid)
    requires g < TWO_64 && g' < TWO_64 && IdTree(l, r, g, q, p) == IdTree(l', r', g', q', p')
    ensures l == l' && r == r' && g == g' && q == q' && p == p'
  {
    var a, b := IdTree(l, r, g, q, p).fields, IdTree(l', r', g', q', p').fields;
    assert a[0] == b[0] && a[1] == b[1] && a[2] == b[2] && a[4] == b[4] && a[5] == b[5];
  }

  // ---- The cache over a run ----

  ghost predicate AllFaithful(env: Env, states: seq<State>, ops: seq<Op>, texts: set<Text>) {
    && CollisionFree(env, texts) && |states| == |ops| + 1
    && forall i :: 0 <= i < |ops| && ops[i].Evaluate? ==>
         && RulesFiled(states[i].rules) && Faithful(env, states[i], ops[i].left, ops[i].right, ops[i].requirement, texts)
         && forall id :: id in states[i].rules ==> states[i].rules[id].rule.generation < TWO_64
  }

  /** The decision that a step made, if it evaluated and did not throw. */
  ghost predicate Made(env: Env, s: State, op: Op, d: Decision) {
    op.Evaluate? && RulesFiled(s.rules) && Decide(env, s, op.left, op.right, op.requirement) == Ok(d)
  }

  lemma StepCaches(env: Env, s: State, op: Op, t: State)
    requires Step(env, s, op, t)
    ensures t.decisions == s.decisions || exists d :: Made(env, s, op, d) && t.decisions == s.decisions[d.digest := d]
    ensures forall d :: Made(env, s, op, d) ==> t.decisions == s.decisions[d.digest := d]
  {
    hide RulesFiled, Decide, FingerprintHex, ClosesCycle, Relink, Marked, Affected, KillAll, RetireAll,
         NextGeneration, IsCurrent;
    if op.Evaluate? {
      var d := Decide(env, s, op.left, op.right, op.requirement);
      if d.Ok? {
        assert Made(env, s, op, d.value);
      }
    }
  }

  lemma DigestTreeNamesCall(d: Decision, e: Decision)
    requires d.registryGeneration < TWO_64 && e.registryGeneration < TWO_64 && DigestTree(d) == DigestTree(e)
    ensures d.left == e.left && d.right == e.right && d.registryGeneration == e.registryGeneration
            && d.outcome == e.outcome && d.ruleId == e.ruleId && Wrap(d.ruleGeneration) == Wrap(e.ruleGeneration)
  {
    hide ItemTrees, TextTrees;
    var a, b := DigestTree(d).fields, DigestTree(e).fields;
    assert a[0] == b[0] && a[1] == b[1] && a[2] == b[2] && a[3] == b[3] && a[4] == b[4] && a[7] == b[7];
  }

  lemma SameDigestSameTree(env: Env, texts: set<Text>, d: Decision, e: Decision)
    requires CollisionFree(env, texts) && CanonicalEncode(DigestTree(d)) in texts
             && CanonicalEncode(DigestTree(e)) in texts
    requires WellFormed(DigestTree(d)) && WellFormed(DigestTree(e))
    requires Sealed(env, d) == d && Sealed(env, e) == e && d.digest == e.digest
    ensures DigestTree(d) == DigestTree(e)
  {
    hide DigestTree, WellFormed, CanonicalEncode, CollisionFree;
    SameTree(env, texts, DigestTree(d), DigestTree(e));
  }

  // ---- What a digest tells ----

  /** Equal up to what the digest leaves out: id, provenance, and the digest itself. */
  predicate SameSemantics(d: Decision, e: Decision) {
    e == d.(decisionId := e.decisionId, provenance := e.provenance, digest := e.digest)
  }

  predicate GenerationsFit(d: Decision) {
    d.ruleGeneration < TWO_64 && d.policyGeneration < TWO_64 && d.registryGeneration < TWO_64
  }

  lemma DigestTreeDetermines(d: Decision, e: Decision)
    requires GenerationsFit(d) && GenerationsFit(e) && DigestTree(d) == DigestTree(e)
    ensures SameSemantics(d, e)
  {
    hide ItemTrees, TextTrees, ItemsOf, Texts;
    var a, b := DigestTree(d).fields, DigestTree(e).fields;
    assert forall i :: 0 <= i < 13 ==> a[i] == b[i];
    assert a[2] == b[2] && a[4] == b[4] && a[5] == b[5] && a[6] == b[6] && a[8] == b[8];
    assert a[9] == b[9] && a[10] == b[10] && a[11] == b[11] && a[12] == b[12];
    DigestTreeNamesCall(d, e);
    ItemsBack(d.satisfied);
    ItemsBack(e.satisfied);
    ItemsBack(d.failed);
    ItemsBack(e.failed);
    TextsBack(d.adaptations);
    TextsBack(e.adaptations);
    TextsBack(d.missingEvidence);
    TextsBack(e.missingEvidence);
  }

  /** Neither hash nor length gets in the way of telling these two decisions apart. */
  ghost predicate Separable(env: Env, d: Decision, e: Decision) {
    && WellFormed(DigestTree(d)) && WellFormed(DigestTree(e))
    && CollisionFree(env, {CanonicalEncode(DigestTree(d)), CanonicalEncode(DigestTree(e))})
  }

  /** Decisions have one digest exactly if they agree in everything but id and provenance. */
  lemma DigestMeansSemantics(env: Env, d: Decision, e: Decision)
    requires Separable(env, d, e) && Sealed(env, d) == d && Sealed(env, e) == e && GenerationsFit(d) && GenerationsFit(e)
    ensures d.digest == e.digest <==> SameSemantics(d, e)
  {
    hide WellFormed, CanonicalEncode, DigestTree, SameSemantics, GenerationsFit;
    if d.digest == e.digest {
      SameDigestSameTree(env, {CanonicalEncode(DigestTree(d)), CanonicalEncode(DigestTree(e))}, d, e);
      DigestTreeDetermines(d, e);
    }
    if SameSemantics(d, e) {
      SemanticsShared(env, d, e);
    }
  }

  lemma SemanticsShared(env: Env, d: Decision, e: Decision)
    requires Sealed(env, d) == d && Sealed(env, e) == e && SameSemantics(d, e)
    ensures d.digest == e.digest
  {
  }

  // ---- Decisions that no rule makes ----

  /** Rules are numbered from 1 on. */
  ghost predicate Numbered(s: State) {
    forall id :: id in s.rules ==> s.rules[id].rule.generation > 0
  }

  lemma StepNumbers(env: Env, s: State, op: Op, t: State)
    requires Numbered(s) && Step(env, s, op, t)
    ensures Numbered(t)
  {
    hide Decide, FingerprintHex, ClosesCycle, Relink, Marked, Affected, KillAll, RetireAll, NextGeneration, IsCurrent,
         RulesFiled;
  }

  lemma {:induction false} RunNumbers(env: Env, states: seq<State>, ops: seq<Op>, i: nat)
    requires Run(env, states, ops) && i < |states|
    ensures Numbered(states[i])
    decreases i
  {
    hide Step;
    if i > 0 {
      RunNumbers(env, states, ops, i - 1);
      RunStep(env, states, ops, i - 1);
      StepNumbers(env, states[i - 1], ops[i - 1], states[i]);
    }
  }

  /** Which rule a decision names, and what it looks like if none applies. */
  lemma RuleNamed(env: Env, s: State, left: Uuid, right: Uuid, requirement: bool)
    requires RulesFiled(s.rules) && RuleResolved(s, left, right) && Decide(env, s, left, right, requirement).Ok?
    ensures var d, rules := Decide(env, s, left, right, requirement).value, RulesFor(s, left, right, requirement);
            && (rules != {} ==> exists o :: o in rules && o.ruleId == d.ruleId && o.generation == d.ruleGeneration)
            && |d.provenance| >= 2
            && (rules == {} ==>
                  d == Blank(s, d.left, d.right, d.provenance, false).(decisionId := d.decisionId, digest := d.digest))
  {
    hide EvalRule, ConclusionOf, DecisionId, DigestTree, ConflictNotes;
    var l, r, rules := LeftSide(s, left, right), RightSide(s, left, right), RulesFor(s, left, right, requirement);
    ApplicableDistinct(s.rules, {ScopeOf(requirement)}, l.kind, r.kind);
    var cand := Candidates(s.rules, {ScopeOf(requirement)}, l.kind, r.kind);
    var evals := EvalAll(env, cand, l, r).value;
    assert IsRanking(cand, rules);
    if Deciding(evals) != [] {
      var i := BestIsWinner(env, cand, rules, l, r);
      assert cand[i] in rules;
    } else if cand != [] {
      assert cand[0] in rules;
    }
    if rules == {} {
      NoMembers(cand);
    }
  }

  lemma RuleInScope(s: State, left: Uuid, right: Uuid, requirement: bool, o: Rule)
    requires RulesFiled(s.rules) && RuleResolved(s, left, right) && o in RulesFor(s, left, right, requirement)
    ensures o.ruleId in s.rules && s.rules[o.ruleId].rule == o && o.scope == ScopeOf(requirement)
  {
  }

  lemma AbsentIsBlank(env: Env, s: State, left: Uuid, right: Uuid, requirement: bool)
    requires RulesFiled(s.rules) && (ActiveProfile(s, left) == None || ActiveProfile(s, right) == None)
    ensures Decide(env, s, left, right, requirement) == Ok(Sealed(env, Blank(s, left, right, [env.wording(RuleResolution)], false)))
  {
    hide DigestTree;
  }

  lemma IdenticalIsExact(env: Env, s: State, left: Uuid, right: Uuid, requirement: bool)
    requires RulesFiled(s.rules) && ActiveProfile(s, left).Some? && ActiveProfile(s, right).Some?
    requires ActiveProfile(s, left).value.fingerprint == ActiveProfile(s, right).value.fingerprint
    ensures var d := Decide(env, s, left, right, requirement);
            d.Ok? && d.value.outcome == EXACT && d.value.ruleId == ZERO_UUID && d.value.ruleGeneration == 0
            && d == Decide(env, s, left, right, !requirement)
  {
    hide DigestTree;
  }

  lemma NoRulesReturn(env: Env, s: State, left: Uuid, right: Uuid, requirement: bool)
    requires RulesFiled(s.rules) && RuleResolved(s, left, right) && RulesFor(s, left, right, requirement) == {}
    ensures Decide(env, s, left, right, requirement).Ok?
  {
    hide Decide, RuleResolved, RulesFiled;
    DecidesIfAllHarmless(env, s, left, right, requirement);
  }

  /** Some rule applies to the call. */
  ghost predicate Ruled(s: State, op: Op)
    requires op.Evaluate?
  {
    RuleResolved(s, op.left, op.right) && RulesFor(s, op.left, op.right, op.requirement) != {}
  }

  /** A profile is absent, or the two differ and no rule applies to them: nothing decides. */
  ghost predicate Undecided(s: State, op: Op)
    requires op.Evaluate?
  {
    if RuleResolved(s, op.left, op.right) then RulesFor(s, op.left, op.right, op.requirement) == {}
    else ActiveProfile(s, op.left) == None || ActiveProfile(s, op.right) == None
  }

  function IdOf(env: Env, s: State, op: Op): Uuid
    requires op.Evaluate?
  {
    DecisionId(env, op.left, op.right, s.gen, op.requirement, s.policy)
  }

  lemma UndecidedIsBlank(env: Env, s: State, op: Op, d: Decision)
    requires Kept(env, s) && op.Evaluate? && Undecided(s, op) && Made(env, s, op, d)
    ensures d == Blank(s, op.left, op.right, d.provenance, false).(decisionId := d.decisionId, digest := d.digest)
    ensures if RuleResolved(s, op.left, op.right)
            then |d.provenance| >= 2 && d.decisionId == IdOf(env, s, op)
            else d == Sealed(env, Blank(s, op.left, op.right, [env.wording(RuleResolution)], false))
  {
    hide Kept, Decide, RulesFor, DigestTree, DecisionId, ActiveProfile;
    KeptFiles(env, s);
    if RuleResolved(s, op.left, op.right) {
      RuleNamed(env, s, op.left, op.right, op.requirement);
      DecisionNamesItsCall(env, s, op.left, op.right, op.requirement);
    } else {
      AbsentIsBlank(env, s, op.left, op.right, op.requirement);
    }
  }

  lemma KeptFiles(env: Env, s: State)
    requires Kept(env, s)
    ensures RulesFiled(s.rules)
    ensures forall k :: k in s.decisions ==> s.decisions[k].digest == k
  {
  }

  /** What a decision says of its rule, whoever made it. */
  lemma RuleOfDecision(env: Env, s: State, op: Op, d: Decision)
    requires Kept(env, s) && Made(env, s, op, d)
    ensures Ruled(s, op) ==>
              d.ruleId in s.rules && s.rules[d.ruleId].rule.generation == d.ruleGeneration
              && s.rules[d.ruleId].rule.scope == ScopeOf(op.requirement)
    ensures !Ruled(s, op) ==> d.ruleId == ZERO_UUID && d.ruleGeneration == 0
    ensures !Ruled(s, op) ==> (Undecided(s, op) <==> d.outcome == UNKNOWN)
  {
    hide Kept, Decide, RulesFor, DigestTree, DecisionId, ActiveProfile;
    KeptFiles(env, s);
    if Ruled(s, op) {
      RuleNamed(env, s, op.left, op.right, op.requirement);
      var rules := RulesFor(s, op.left, op.right, op.requirement);
      var o :| o in rules && o.ruleId == d.ruleId && o.generation == d.ruleGeneration;
      RuleInScope(s, op.left, op.right, op.requirement, o);
    } else if Undecided(s, op) {
      UndecidedIsBlank(env, s, op, d);
    } else {
      IdenticalIsExact(env, s, op.left, op.right, op.requirement);
    }
  }

  // ---- Which decision takes the place of which ----

  /**
    * Neither call is decided by anything, they are of the same two profiles under the same generation, and
    * they differ in whether both profiles are there or, if they are, in scope.
    */
  ghost predicate Displaces(s: State, op: Op, t: State, op': Op) {
    && op.Evaluate? && op'.Evaluate? && op.left == op'.left && op.right == op'.right && s.gen == t.gen
    && Undecided(s, op) && Undecided(t, op')
    && (RuleResolved(s, op.left, op.right) != RuleResolved(t, op.left, op.right)
        || (RuleResolved(s, op.left, op.right) && op.requirement != op'.requirement))
  }

  /** The later decision has the digest of the earlier and is another. */
  lemma DisplacingDecides(env: Env, s: State, op: Op, d: Decision, t: State, op': Op, e: Decision)
    requires Kept(env, s) && Kept(env, t) && s.policy == t.policy && Made(env, s, op, d) && Made(env, t, op', e)
    requires Displaces(s, op, t, op')
    ensures d.digest == e.digest
    ensures RuleResolved(s, op.left, op.right) != RuleResolved(t, op.left, op.right) ==> d != e
    ensures IdOf(env, s, op) != IdOf(env, t, op') ==> d != e
  {
    hide Kept, Decide, RuleResolved, RulesFor, ActiveProfile, DigestTree, DecisionId;
    KeptFiles(env, s);
    KeptFiles(env, t);
    UndecidedIsBlank(env, s, op, d);
    UndecidedIsBlank(env, t, op', e);
    DecideSealed(env, s, op.left, op.right, op.requirement);
    DecideSealed(env, t, op'.left, op'.right, op'.requirement);
    SemanticsShared(env, d, e);
  }

  /** Two evaluations with one digest are of the same call, as far as the digest tells. */
  lemma DigestNamesCall(env: Env, states: seq<State>, ops: seq<Op>, texts: set<Text>, i: nat, d: Decision,
                        j: nat, e: Decision)
    requires Run(env, states, ops) && AllFaithful(env, states, ops, texts)
    requires i < |ops| && j < |ops| && Made(env, states[i], ops[i], d) && Made(env, states[j], ops[j], e)
    requires d.digest == e.digest
    ensures states[i].gen == states[j].gen && ops[i].left == ops[j].left && ops[i].right == ops[j].right
    ensures d.outcome == e.outcome && d.ruleId == e.ruleId && Wrap(d.ruleGeneration) == Wrap(e.ruleGeneration)
  {
    hide Run, Kept, Decide, DigestTree, WellFormed, CollisionFree, CanonicalEncode, RulesFiled, RuleResolved, Wrap;
    RunKeeps(env, states, ops, i);
    RunKeeps(env, states, ops, j);
    DecisionNamesItsCall(env, states[i], ops[i].left, ops[i].right, ops[i].requirement);
    DecisionNamesItsCall(env, states[j], ops[j].left, ops[j].right, ops[j].requirement);
    DecideSealed(env, states[i], ops[i].left, ops[i].right, ops[i].requirement);
    DecideSealed(env, states[j], ops[j].left, ops[j].right, ops[j].requirement);
    SameDigestSameTree(env, texts, d, e);
    DigestTreeNamesCall(d, e);
  }

  /** And of the same kind: a rule applies to both, or to neither, or nothing decides either. */
  lemma SameDigestSameCall(env: Env, states: seq<State>, ops: seq<Op>, texts: set<Text>, i: nat, d: Decision,
                           j: nat, e: Decision)
    requires Run(env, states, ops) && AllFaithful(env, states, ops, texts)
    requires i < |ops| && j < |ops| && Made(env, states[i], ops[i], d) && Made(env, states[j], ops[j], e)
    requires d.digest == e.digest
    ensures states[i].gen == states[j].gen && ops[i].left == ops[j].left && ops[i].right == ops[j].right
    ensures Ruled(states[i], ops[i]) == Ruled(states[j], ops[j])
    ensures Undecided(states[i], ops[i]) == Undecided(states[j], ops[j])
    ensures Ruled(states[i], ops[i]) ==> ops[i].requirement == ops[j].requirement
  {
    hide Run, Kept, Made, Faithful, CollisionFree, RulesFiled, RuleResolved, RulesFor, ActiveProfile, Quieter;
    RunKeeps(env, states, ops, i);
    RunKeeps(env, states, ops, j);
    DigestNamesCall(env, states, ops, texts, i, d, j, e);
    SameGeneration(env, states, ops, i, j);
    RunNumbers(env, states, ops, i);
    RunNumbers(env, states, ops, j);
    MadeEvaluates(env, states[i], ops[i], d);
    MadeEvaluates(env, states[j], ops[j], e);
    SameKind(env, states[i], ops[i], d, states[j], ops[j], e);
  }

  lemma MadeEvaluates(env: Env, s: State, op: Op, d: Decision)
    requires Made(env, s, op, d)
    ensures op.Evaluate?
  {
    hide Decide, RulesFiled;
  }

  lemma SameKind(env: Env, s: State, op: Op, d: Decision, t: State, op': Op, e: Decision)
    requires Kept(env, s) && Kept(env, t) && Made(env, s, op, d) && Made(env, t, op', e)
    requires s.rules == t.rules && Numbered(s) && forall id :: id in s.rules ==> s.rules[id].rule.generation < TWO_64
    requires d.outcome == e.outcome && d.ruleId == e.ruleId && Wrap(d.ruleGeneration) == Wrap(e.ruleGeneration)
    ensures Ruled(s, op) == Ruled(t, op') && Undecided(s, op) == Undecided(t, op')
    ensures Ruled(s, op) ==> op.requirement == op'.requirement
  {
    hide Kept, Decide, RulesFiled, RulesFor, ActiveProfile;
    RuleOfDecision(env, s, op, d);
    RuleOfDecision(env, t, op', e);
    assert PAIR[0] != REQUIREMENT[0];
  }

  /** Decisions of one digest are one decision, but for those that nothing decides and that differ in how. */
  lemma SameDigestSameDecision(env: Env, states: seq<State>, ops: seq<Op>, texts: set<Text>, i: nat, d: Decision,
                               j: nat, e: Decision)
    requires Run(env, states, ops) && AllFaithful(env, states, ops, texts)
    requires i < |ops| && j < |ops| && Made(env, states[i], ops[i], d) && Made(env, states[j], ops[j], e)
    ensures Displaces(states[i], ops[i], states[j], ops[j]) <==> d.digest == e.digest && d != e
  {
    hide Run, Kept, Decide, DigestTree, WellFormed, CollisionFree, CanonicalEncode, RulesFiled, RulesFor, RuleResolved,
         ActiveProfile, Quieter, DecisionId, Undecided, Ruled, Faithful;
    var s, t := states[i], states[j];
    RunKeeps(env, states, ops, i);
    RunKeeps(env, states, ops, j);
    if Displaces(s, ops[i], t, ops[j]) {
      SameGeneration(env, states, ops, i, j);
      DisplacingDecides(env, s, ops[i], d, t, ops[j], e);
      if ops[i].requirement != ops[j].requirement {
        ScopesHaveOwnIds(env, texts, s, ops[i], t, ops[j]);
      }
    } else if d.digest == e.digest {
      SameDigestSameCall(env, states, ops, texts, i, d, j, e);
      SameGeneration(env, states, ops, i, j);
      if Quieter(s, t) {
        NotDisplaced(env, s, ops[i], d, t, ops[j], e);
      } else {
        NotDisplaced(env, t, ops[j], e, s, ops[i], d);
      }
    }
  }

  lemma ScopesHaveOwnIds(env: Env, texts: set<Text>, s: State, op: Op, t: State, op': Op)
    requires CollisionFree(env, texts) && op.Evaluate? && op'.Evaluate? && RulesFiled(s.rules) && RulesFiled(t.rules)
    requires Faithful(env, s, op.left, op.right, op.requirement, texts)
    requires Faithful(env, t, op'.left, op'.right, op'.requirement, texts)
    requires op.left == op'.left && op.right == op'.right && s.gen == t.gen && s.policy == t.policy
    requires op.requirement != op'.requirement
    ensures IdOf(env, s, op) != IdOf(env, t, op')
  {
    hide RulesFiled, CollisionFree, Faithful, DecisionId;
    if IdOf(env, s, op) == IdOf(env, t, op') {
      SameIdSameCall(env, texts, s, op.left, op.right, op.requirement, t, op'.left, op'.right, op'.requirement);
    }
  }

  lemma NotDisplaced(env: Env, s: State, op: Op, d: Decision, t: State, op': Op, e: Decision)
    requires Kept(env, s) && Kept(env, t) && Quieter(s, t) && Made(env, s, op, d) && Made(env, t, op', e)
    requires op.left == op'.left && op.right == op'.right && !Displaces(s, op, t, op')
    requires Ruled(s, op) == Ruled(t, op') && Undecided(s, op) == Undecided(t, op')
    requires Ruled(s, op) ==> op.requirement == op'.requirement
    ensures d == e
  {
    hide Kept, Decide, RulesFor, ActiveProfile, DecisionId, DigestTree;
    KeptFiles(env, s);
    KeptFiles(env, t);
    if ActiveProfile(t, op.left).Some? && ActiveProfile(t, op.right).Some? {
      DecideQuieter(env, s, t, op.left, op.right, op.requirement);
      if op.requirement != op'.requirement {
        IdenticalIsExact(env, t, op.left, op.right, op.requirement);
      }
    } else {
      UndecidedIsBlank(env, s, op, d);
      UndecidedIsBlank(env, t, op', e);
    }
  }

  /** The k-th call made the decision, not before the i-th, and none since has taken its place. */
  ghost predicate LastsFrom(env: Env, states: seq<State>, ops: seq<Op>, i: nat, d: Decision, k: nat, j: nat)
    requires |states| == |ops| + 1 && j < |states|
  {
    && i <= k < j && Made(env, states[k], ops[k], d)
    && forall m :: k < m < j ==> !Displaces(states[k], ops[k], states[m], ops[m])
  }

  predicate Cached(s: State, d: Decision) {
    d.digest in s.decisions && s.decisions[d.digest] == d
  }

  lemma DisplacingReturns(env: Env, s: State, op: Op, t: State, op': Op) returns (e: Decision)
    requires Kept(env, t) && Displaces(s, op, t, op')
    ensures Made(env, t, op', e)
  {
    hide Kept, Decide, RulesFor, ActiveProfile;
    KeptFiles(env, t);
    if RuleResolved(t, op'.left, op'.right) {
      NoRulesReturn(env, t, op'.left, op'.right, op'.requirement);
    } else {
      AbsentIsBlank(env, t, op'.left, op'.right, op'.requirement);
    }
    e := Decide(env, t, op'.left, op'.right, op'.requirement).value;
  }

  /** What a call that does not make the decision again does to it in the cache. */
  lemma CacheStep(env: Env, states: seq<State>, ops: seq<Op>, texts: set<Text>, k: nat, d: Decision, m: nat)
    requires Run(env, states, ops) && AllFaithful(env, states, ops, texts)
    requires k < |ops| && m < |ops| && Made(env, states[k], ops[k], d) && !Made(env, states[m], ops[m], d)
    ensures Displaces(states[k], ops[k], states[m], ops[m]) ==> !Cached(states[m + 1], d)
    ensures !Displaces(states[k], ops[k], states[m], ops[m]) ==> Cached(states[m + 1], d) == Cached(states[m], d)
  {
    hide Step, AllFaithful, Made, Displaces, Kept;
    RunStep(env, states, ops, m);
    RunKeeps(env, states, ops, m);
    StepCaches(env, states[m], ops[m], states[m + 1]);
    if Displaces(states[k], ops[k], states[m], ops[m]) {
      var e := DisplacingReturns(env, states[k], ops[k], states[m], ops[m]);
      SameDigestSameDecision(env, states, ops, texts, k, d, m, e);
    } else if states[m + 1].decisions != states[m].decisions {
      var e :| Made(env, states[m], ops[m], e) && states[m + 1].decisions == states[m].decisions[e.digest := e];
      SameDigestSameDecision(env, states, ops, texts, k, d, m, e);
    }
  }

  lemma LastsLonger(env: Env, states: seq<State>, ops: seq<Op>, i: nat, d: Decision, k: nat, j: nat)
    requires |states| == |ops| + 1 && j + 1 < |states| && !Made(env, states[j], ops[j], d)
    ensures LastsFrom(env, states, ops, i, d, k, j) ==> k < |ops| && Made(env, states[k], ops[k], d)
    ensures LastsFrom(env, states, ops, i, d, k, j + 1) <==>
              LastsFrom(env, states, ops, i, d, k, j) && !Displaces(states[k], ops[k], states[j], ops[j])
  {
    hide Made, Displaces;
  }

  /** A decision is cached exactly if none has taken its place since it was made, or last made again. */
  lemma {:induction false} CachedExactly(env: Env, states: seq<State>, ops: seq<Op>, texts: set<Text>, i: nat, d: Decision,
                                         j: nat)
    requires Run(env, states, ops) && AllFaithful(env, states, ops, texts)
    requires i < j < |states| && Made(env, states[i], ops[i], d)
    ensures Cached(states[j], d) <==> exists k :: LastsFrom(env, states, ops, i, d, k, j)
    decreases j
  {
    hide Step, AllFaithful, Made, Displaces;
    if Made(env, states[j - 1], ops[j - 1], d) {
      RunStep(env, states, ops, j - 1);
      StepCaches(env, states[j - 1], ops[j - 1], states[j]);
      assert LastsFrom(env, states, ops, i, d, j - 1, j);
    } else {
      hide LastsFrom;
      CachedExactly(env, states, ops, texts, i, d, j - 1);
      CacheStep(env, states, ops, texts, i, d, j - 1);
      forall k: nat
        ensures LastsFrom(env, states, ops, i, d, k, j) <==> LastsFrom(env, states, ops, i, d, k, j - 1) && Cached(states[j], d)
      {
        LastsLonger(env, states, ops, i, d, k, j - 1);
        if LastsFrom(env, states, ops, i, d, k, j - 1) {
          CacheStep(env, states, ops, texts, k, d, j - 1);
        }
      }
      if Cached(states[j], d) {
        var k :| LastsFrom(env, states, ops, i, d, k, j - 1);
        assert LastsFrom(env, states, ops, i, d, k, j);
      }
    }
  }

  /** A decision to which some rule applied is in the cache ever after. */
  lemma RuledDecisionsStay(env: Env, states: seq<State>, ops: seq<Op>, texts: set<Text>, i: nat, d: Decision, j: nat)
    requires Run(env, states, ops) && AllFaithful(env, states, ops, texts)
    requires i < j < |states| && Made(env, states[i], ops[i], d)
    requires Ruled(states[i], ops[i]) || d.ruleId != ZERO_UUID
    ensures Cached(states[j], d)
  {
    hide Step, AllFaithful, RuleResolved, RulesFor, Kept;
    RunKeeps(env, states, ops, i);
    RuleOfDecision(env, states[i], ops[i], d);
    CachedExactly(env, states, ops, texts, i, d, j);
    assert LastsFrom(env, states, ops, i, d, i, j);
  }

  /** What is in the cache was returned by some evaluation of the run. */
  lemma {:induction false} CachedWasMade(env: Env, states: seq<State>, ops: seq<Op>, j: nat, e: Decision)
    returns (k: nat)
    requires Run(env, states, ops) && j < |states| && e in states[j].decisions.Values
    ensures k < j && Made(env, states[k], ops[k], e)
    decreases j
  {
    hide Step, Made;
    if j > 0 {
      RunStep(env, states, ops, j - 1);
      StepCaches(env, states[j - 1], ops[j - 1], states[j]);
      if e in states[j - 1].decisions.Values {
        k := CachedWasMade(env, states, ops, j - 1, e);
      } else {
        k := j - 1;
      }
    }
  }

  lemma CachedIsValue(env: Env, s: State, d: Decision)
    requires Kept(env, s)
    ensures d in s.decisions.Values <==> Cached(s, d)
  {
    hide KeptHistories, KeptEdges, Sealed;
  }

  /**
    * Replaying: a cached decision with the id of a decision made earlier is that decision, whichever entry
    * is come upon first; and there is one exactly if the decision has lasted, as it has if some rule applied.
    */
  lemma ReplayReturnsDecision(env: Env, states: seq<State>, ops: seq<Op>, texts: set<Text>, i: nat, d: Decision, j: nat)
    requires Run(env, states, ops) && AllFaithful(env, states, ops, texts)
    requires i < j < |states| && Made(env, states[i], ops[i], d) && d.decisionId != ZERO_UUID
    ensures forall e :: e in states[j].decisions.Values && e.decisionId == d.decisionId ==> e == d
    ensures d in states[j].decisions.Values <==> exists k :: LastsFrom(env, states, ops, i, d, k, j)
    ensures Ruled(states[i], ops[i]) ==> d in states[j].decisions.Values
  {
    hide Run, Decide, Faithful, CollisionFree, RulesFiled, Kept, RuleResolved, RulesFor, LastsFrom, Cached;
    RunKeeps(env, states, ops, j);
    CachedExactly(env, states, ops, texts, i, d, j);
    CachedIsValue(env, states[j], d);
    if Ruled(states[i], ops[i]) {
      RuledDecisionsStay(env, states, ops, texts, i, d, j);
    }
    forall e | e in states[j].decisions.Values && e.decisionId == d.decisionId ensures e == d {
      var k := CachedWasMade(env, states, ops, j, e);
      EqualIdsEqualDecisions(env, states, ops, texts, i, ops[i].left, ops[i].right, ops[i].requirement,
                             k, ops[k].left, ops[k].right, ops[k].requirement);
    }
  }

  // ---- What it takes to lose one ----

  lemma {:induction false} RunKeepsActive(env: Env, states: seq<State>, ops: seq<Op>, i: nat, j: nat, id: Uuid)
    requires Run(env, states, ops) && i <= j < |states| && states[i].gen == states[j].gen
    requires forall k :: i <= k < j && Refused(states[k], ops[k], env) ==> Subject(ops[k]) != id
    ensures ActiveProfile(states[i], id) == ActiveProfile(states[j], id)
    decreases j
  {
    hide Run, Step, Refused, NewestActive;
    if i < j {
      RunQuiets(env, states, ops, i, j - 1);
      RunQuiets(env, states, ops, j - 1, j);
      RunKeepsActive(env, states, ops, i, j - 1, id);
      RunStep(env, states, ops, j - 1);
      if Refused(states[j - 1], ops[j - 1], env) {
        RefusedRetires(env, states[j - 1], ops[j - 1], states[j]);
      } else {
        StepSettles(env, states[j - 1], ops[j - 1], states[j]);
      }
    }
  }

  /** No decision loses its place but to one of the other scope, or after a refused call on one of its profiles. */
  lemma DisplacedByRefusalOrScope(env: Env, states: seq<State>, ops: seq<Op>, i: nat, j: nat)
    requires Run(env, states, ops) && i <= j < |ops| && Displaces(states[i], ops[i], states[j], ops[j])
    ensures ops[i].requirement != ops[j].requirement
            || exists k :: i <= k < j && Refused(states[k], ops[k], env)
                           && (Subject(ops[k]) == ops[i].left || Subject(ops[k]) == ops[i].right)
  {
    hide Step, RegisterProfile, SupersedeProfile, ActiveProfile, RulesFor;
    if forall k :: i <= k < j && Refused(states[k], ops[k], env) ==>
         Subject(ops[k]) != ops[i].left && Subject(ops[k]) != ops[i].right
    {
      RunKeepsActive(env, states, ops, i, j, ops[i].left);
      RunKeepsActive(env, states, ops, i, j, ops[i].right);
    }
  }
}
