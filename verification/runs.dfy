/** Everything a registry can be put through, refused calls included, and what holds throughout. */
module Runs {
  import opened Prelude
  import opened Canonical
  import opened Rules
  import opened Graphs
  import opened States
  import opened Decisions

  datatype Op =
    | Register(given: Profile)
    | Supersede(kind: ProfileKind, id: Uuid, payload: Canon, deps: seq<Uuid>, provenance: Text)
    | Invalidate(id: Uuid, reason: Text)
    | Propagate(id: Uuid)
    | AddRule(rule: Rule)
    | ReplaceRule(id: Uuid, rule: Rule)
    | Disable(id: Uuid)
    | AddEvidence(evidence: Evidence)
    | ChangePolicy(id: Uuid)
    | Evaluate(left: Uuid, right: Uuid, requirement: bool)

  ghost predicate Step(env: Env, s: State, op: Op, t: State) {
    && RulesFiled(s.rules)
    && match op
       case Register(p) => t == RegisterProfile(env, s, p).0
       case Supersede(kind, id, payload, deps, provenance) =>
         t == SupersedeProfile(env, s, kind, id, payload, deps, provenance).0
       case Invalidate(id, reason) => t == InvalidateProfile(s, id, reason).0
       case Propagate(id) => exists targets :: PropagatesInvalidation(s, id, t, targets)
       case AddRule(rule) => t == RegisterRule(s, rule)
       case ReplaceRule(id, rule) => t == SupersedeRule(s, id, rule).0
       case Disable(id) => t == DisableRule(s, id).0
       case AddEvidence(e) => t == RegisterEvidence(s, e)
       case ChangePolicy(id) => t == SetPolicy(s, id)
       case Evaluate(l, r, requirement) => t == Evaluated(env, s, l, r, requirement).0
  }

  /** The call throws because it would close a cycle. */
  ghost predicate Refused(s: State, op: Op, env: Env) {
    match op
    case Register(p) => RegisterProfile(env, s, p).1.Err?
    case Supersede(kind, id, payload, deps, provenance) =>
      id in s.profiles && SupersedeProfile(env, s, kind, id, payload, deps, provenance).1.Err?
    case _ => false
  }

  function Subject(op: Op): Uuid
    requires op.Register? || op.Supersede?
  {
    if op.Register? then op.given.id else op.id
  }

  ghost predicate Run(env: Env, states: seq<State>, ops: seq<Op>) {
    && |states| == |ops| + 1 && states[0] == INITIAL
    && forall i :: 0 <= i < |ops| ==> Step(env, states[i], ops[i], states[i + 1])
  }

  lemma RunStep(env: Env, states: seq<State>, ops: seq<Op>, i: nat)
    requires Run(env, states, ops) && i + 1 < |states|
    ensures |states| == |ops| + 1 && Step(env, states[i], ops[i], states[i + 1])
  {
    hide Step;
  }

  // ---- What holds in every reachable state ----

  /** Generations 1, 2, 3 and so on under one id; only the newest record can be active. */
  ghost predicate KeptHistory(env: Env, id: Uuid, h: seq<Profile>) {
    && h != []
    && forall i {:trigger h[i]} :: 0 <= i < |h| ==>
         && h[i].id == id && h[i].generation == i + 1
         && h[i].fingerprint == FingerprintHex(env, h[i].payload)
         && (h[i].active ==> i == |h| - 1)
  }

  /** The edges of a node are those of its newest record, or were dropped by a refused replacement. */
  ghost predicate KeptEdges(s: State) {
    && (forall id :: id !in s.profiles ==> Out(s.deps, id) == [])
    && (forall id :: id in s.profiles ==>
          s.profiles[id] != [] &&
          var latest := Last(s.profiles[id]);
          && (Out(s.deps, id) == [] || Out(s.deps, id) == Without(latest.deps, id))
          && (latest.active ==> Out(s.deps, id) == Without(latest.deps, id)))
  }

  ghost predicate Filed(env: Env, s: State) {
    && RulesFiled(s.rules)
    && (forall id :: id in s.evidence ==> s.evidence[id].id == id)
    && (forall k :: k in s.decisions ==> s.decisions[k].digest == k && Sealed(env, s.decisions[k]) == s.decisions[k])
  }

  ghost predicate KeptHistories(env: Env, s: State) {
    forall id :: id in s.profiles ==> KeptHistory(env, id, s.profiles[id])
  }

  ghost predicate Kept(env: Env, s: State) {
    KeptHistories(env, s) && KeptEdges(s) && !Cyclic(s.deps) && Filed(env, s)
  }

  lemma InitialKept(env: Env)
    ensures Kept(env, INITIAL)
  {
    AllDoneIsAcyclic<Uuid>(map[], []);
  }

  lemma RetiredKept(env: Env, id: Uuid, h: seq<Profile>)
    requires KeptHistory(env, id, h)
    ensures KeptHistory(env, id, RetireAll(h)) && KeptHistory(env, id, KillAll(h))
    ensures forall i :: 0 <= i < |h| ==> !RetireAll(h)[i].active && !KillAll(h)[i].active
    ensures Last(RetireAll(h)).deps == Last(KillAll(h)).deps == Last(h).deps
  {
    hide FingerprintHex;
  }

  lemma AppendedKept(env: Env, id: Uuid, h: seq<Profile>, p: Profile)
    requires h == [] || KeptHistory(env, id, h)
    requires forall i :: 0 <= i < |h| ==> !h[i].active
    requires p.id == id && p.generation == |h| + 1 && p.fingerprint == FingerprintHex(env, p.payload)
    ensures KeptHistory(env, id, h + [p])
  {
    hide FingerprintHex;
  }

  lemma RelinkOut(deps: Graph<Uuid>, id: Uuid, ds: seq<Uuid>)
    ensures forall x :: Out(Relink(deps, id, ds), x) == if x == id then Without(ds, id) else Out(deps, x)
    ensures !ClosesCycle(deps, id, ds) ==> !Cyclic(Relink(deps, id, ds))
  {
    if Cyclic(Relink(deps, id, ds)) {
      SubgraphCycles(Relink(deps, id, ds), deps[id := Without(ds, id)]);
    }
  }

  lemma FiledSame(env: Env, s: State, t: State)
    requires Filed(env, s) && t.rules == s.rules && t.evidence == s.evidence && t.decisions == s.decisions
    ensures Filed(env, t)
  {
  }

  lemma RetiredKeepsEdges(s: State, id: Uuid)
    requires KeptEdges(s)
    ensures KeptEdges(Retired(s, id))
  {
  }

  lemma NextAfter(env: Env, id: Uuid, h: seq<Profile>)
    requires KeptHistory(env, id, h)
    ensures h != [] && Last(h).generation == |h|
    ensures !Last(RetireAll(h)).active
  {
    hide FingerprintHex;
  }

  lemma RetiringKeeps(env: Env, s: State, id: Uuid)
    requires Kept(env, s)
    ensures Kept(env, Retired(s, id))
    ensures NextGeneration(s, id) == if id in s.profiles then |s.profiles[id]| + 1 else 1
    ensures id in s.profiles ==>
              Retired(s, id).profiles[id] == RetireAll(s.profiles[id]) && !Last(Retired(s, id).profiles[id]).active
  {
    hide FingerprintHex, Cyclic, Filed, KeptEdges, KeptHistory;
    FiledSame(env, s, Retired(s, id));
    RetiredKeepsEdges(s, id);
    if id in s.profiles {
      RetiredKept(env, id, s.profiles[id]);
      NextAfter(env, id, s.profiles[id]);
    }
  }

  lemma DroppingKeeps(env: Env, s: State, id: Uuid)
    requires Kept(env, s) && id in s.profiles && !Last(s.profiles[id]).active
    ensures Kept(env, s.(deps := s.deps - {id}))
  {
    hide KeptHistory, Filed, Last, Without;
    FiledSame(env, s, s.(deps := s.deps - {id}));
    OutAfter(s.deps, id, []);
    if Cyclic(s.deps - {id}) {
      SubgraphCycles(s.deps - {id}, s.deps);
    }
  }

  lemma AppendingKeeps(env: Env, s: State, p: Profile)
    requires Kept(env, s) && !ClosesCycle(s.deps, p.id, p.deps)
    requires p.fingerprint == FingerprintHex(env, p.payload)
    requires p.id in s.profiles ==>
               p.generation == |s.profiles[p.id]| + 1
               && forall i :: 0 <= i < |s.profiles[p.id]| ==> !s.profiles[p.id][i].active
    requires p.id !in s.profiles ==> p.generation == 1
    ensures Kept(env, Appended(s, p))
  {
    hide FingerprintHex, Cyclic, KeptHistory, Relink, KeptEdges, Filed;
    RelinkOut(s.deps, p.id, p.deps);
    AppendedKept(env, p.id, if p.id in s.profiles then s.profiles[p.id] else [], p);
    FiledSame(env, s, Appended(s, p));
    AppendedKeepsEdges(s, p);
  }

  lemma AppendedKeepsEdges(s: State, p: Profile)
    requires KeptEdges(s)
    ensures KeptEdges(Appended(s, p))
  {
    hide Relink, Without;
    RelinkOut(s.deps, p.id, p.deps);
    forall id | id in s.profiles && id != p.id ensures Appended(s, p).profiles[id] == s.profiles[id] {
    }
  }

  lemma RegisterKeeps(env: Env, s: State, p: Profile)
    requires Kept(env, s)
    ensures Kept(env, RegisterProfile(env, s, p).0)
  {
    hide FingerprintHex, Kept, Relink, ClosesCycle;
    RetiringKeeps(env, s, p.id);
    var q := p.(fingerprint := FingerprintHex(env, p.payload), generation := NextGeneration(s, p.id));
    if !ClosesCycle(s.deps, p.id, p.deps) {
      if p.id in s.profiles {
        KeptGives(env, s, p.id);
        RetiredKept(env, p.id, s.profiles[p.id]);
      }
      AppendingKeeps(env, Retired(s, p.id), q);
    }
  }

  lemma KeptGives(env: Env, s: State, id: Uuid)
    requires Kept(env, s) && id in s.profiles
    ensures KeptHistory(env, id, s.profiles[id])
  {
  }

  lemma SupersedeKeeps(env: Env, s: State, kind: ProfileKind, id: Uuid, payload: Canon, deps: seq<Uuid>,
                       provenance: Text)
    requires Kept(env, s)
    ensures Kept(env, SupersedeProfile(env, s, kind, id, payload, deps, provenance).0)
  {
    hide FingerprintHex, Kept, Relink, Cyclic;
    if id in s.profiles {
      KeptGives(env, s, id);
      RetiringKeeps(env, s, id);
      RetiredKept(env, id, s.profiles[id]);
      DroppingKeeps(env, Retired(s, id), id);
      var p := Profile(kind, id, NextGeneration(s, id), payload, deps, true, false, provenance, FingerprintHex(env, payload));
      assert (s.deps - {id})[id := Without(deps, id)] == s.deps[id := Without(deps, id)];
      if !ClosesCycle(s.deps, id, deps) {
        AppendingKeeps(env, Retired(s, id).(deps := s.deps - {id}), p);
      }
    }
  }

  lemma KillingKeeps(env: Env, s: State, t: State, targets: set<Uuid>)
    requires Kept(env, s) && t.profiles.Keys == s.profiles.Keys
    requires forall x :: x in s.profiles ==>
               t.profiles[x] == if x in targets then KillAll(s.profiles[x]) else s.profiles[x]
    requires t == s.(profiles := t.profiles, invalidations := t.invalidations, gen := t.gen)
    ensures Kept(env, t)
  {
    hide FingerprintHex, Cyclic, Filed;
    FiledSame(env, s, t);
    forall id | id in t.profiles ensures KeptHistory(env, id, t.profiles[id]) && Last(t.profiles[id]).deps == Last(s.profiles[id]).deps
      ensures Last(t.profiles[id]).active ==> Last(s.profiles[id]).active
    {
      RetiredKept(env, id, s.profiles[id]);
    }
  }

  lemma EvaluatedKeeps(env: Env, s: State, left: Uuid, right: Uuid, requirement: bool)
    requires Kept(env, s)
    ensures Kept(env, Evaluated(env, s, left, right, requirement).0)
  {
    hide KeptHistories, KeptEdges, Cyclic, Decide, Sealed;
    if Decide(env, s, left, right, requirement).Ok? {
      DecideSealed(env, s, left, right, requirement);
      DigestOfSealed(env, Decide(env, s, left, right, requirement).value);
    }
    SameGraph(env, s, Evaluated(env, s, left, right, requirement).0);
  }

  lemma DigestOfSealed(env: Env, d: Decision)
    ensures Sealed(env, Sealed(env, d)) == Sealed(env, d)
  {
  }

  /** Acyclicity, histories, edges and filing survive every step, refused ones included. */
  lemma StepKeeps(env: Env, s: State, op: Op, t: State)
    requires Kept(env, s) && Step(env, s, op, t)
    ensures Kept(env, t)
  {
    hide KeptHistories, KeptEdges, Cyclic, Sealed, Evaluated, RegisterProfile, SupersedeProfile, InvalidateProfile,
         PropagatesInvalidation, RulesFiled;
    match op {
      case Register(p) => RegisterKeeps(env, s, p);
      case Supersede(kind, id, payload, deps, provenance) => SupersedeKeeps(env, s, kind, id, payload, deps, provenance);
      case Invalidate(id, reason) => InvalidateKeeps(env, s, id, reason);
      case Propagate(id) => PropagateKeeps(env, s, id, t);
      case Evaluate(l, r, requirement) => EvaluatedKeeps(env, s, l, r, requirement);
      case AddEvidence(e) => SameGraph(env, s, t);
      case ChangePolicy(id) => SameGraph(env, s, t);
      case _ =>
        RuleStepFiles(env, s, op, t);
        SameGraph(env, s, t);
    }
  }

  lemma RuleStepFiles(env: Env, s: State, op: Op, t: State)
    requires (op.AddRule? || op.ReplaceRule? || op.Disable?) && Step(env, s, op, t)
    ensures RulesFiled(t.rules) && t == s.(rules := t.rules, ruleGen := t.ruleGen, gen := t.gen)
  {
  }

  lemma SameGraph(env: Env, s: State, t: State)
    requires Kept(env, s) && t.profiles == s.profiles && t.deps == s.deps && Filed(env, t)
    ensures Kept(env, t)
  {
  }

  lemma InvalidateKeeps(env: Env, s: State, id: Uuid, reason: Text)
    requires Kept(env, s)
    ensures Kept(env, InvalidateProfile(s, id, reason).0)
  {
    hide Kept;
    if id in s.profiles {
      KillingKeeps(env, s, InvalidateProfile(s, id, reason).0, {id});
    }
  }

  lemma PropagateKeeps(env: Env, s: State, id: Uuid, t: State)
    requires Kept(env, s) && exists targets :: PropagatesInvalidation(s, id, t, targets)
    ensures Kept(env, t)
  {
    hide Kept;
    var targets :| PropagatesInvalidation(s, id, t, targets);
    KillingKeeps(env, s, t, set x | x in targets);
  }

  lemma DecideSealed(env: Env, s: State, left: Uuid, right: Uuid, requirement: bool)
    requires RulesFiled(s.rules) && Decide(env, s, left, right, requirement).Ok?
    ensures var d := Decide(env, s, left, right, requirement).value; Sealed(env, d) == d
  {
    hide EvalAll, Resolve, Candidates;
  }

  lemma {:induction false} RunKeeps(env: Env, states: seq<State>, ops: seq<Op>, i: nat)
    requires Run(env, states, ops) && i < |states|
    ensures Kept(env, states[i])
    decreases i
  {
    hide Kept, Step;
    if i == 0 {
      InitialKept(env);
    } else {
      RunKeeps(env, states, ops, i - 1);
      RunStep(env, states, ops, i - 1);
      StepKeeps(env, states[i - 1], ops[i - 1], states[i]);
    }
  }

  // ---- What a run never takes back ----

  /** A record may lose its activity and be marked superseded; nothing else about it changes. */
  predicate Ages(p: Profile, q: Profile) {
    && q == p.(active := q.active, superseded := q.superseded)
    && (q.active ==> p.active) && (p.superseded ==> q.superseded)
  }

  ghost predicate HistoryGrows(h: seq<Profile>, k: seq<Profile>) {
    |h| <= |k| && forall i :: 0 <= i < |h| ==> Ages(h[i], k[i])
  }

  ghost predicate Grows(s: State, t: State) {
    && (forall id :: id in s.profiles ==> id in t.profiles && HistoryGrows(s.profiles[id], t.profiles[id]))
    && s.invalidations <= t.invalidations
    && s.gen <= t.gen
  }

  lemma GrowsTransitive(s: State, t: State, u: State)
    requires Grows(s, t) && Grows(t, u)
    ensures Grows(s, u)
  {
    forall id | id in s.profiles ensures HistoryGrows(s.profiles[id], u.profiles[id]) {
      var h, k, m := s.profiles[id], t.profiles[id], u.profiles[id];
      forall i | 0 <= i < |h| ensures Ages(h[i], m[i]) {
        assert Ages(h[i], k[i]) && Ages(k[i], m[i]);
      }
    }
  }

  lemma RetiringGrows(h: seq<Profile>, p: Profile)
    ensures HistoryGrows(h, h) && HistoryGrows(h, KillAll(h))
    ensures HistoryGrows(h, RetireAll(h)) && HistoryGrows(h, RetireAll(h) + [p])
  {
  }

  /** What registering and replacing leave: as before but for one history, which was retired, and perhaps continued. */
  lemma RecordingGrows(s: State, t: State, id: Uuid, p: Profile)
    requires t == s.(profiles := t.profiles, deps := t.deps, gen := t.gen) && s.gen <= t.gen
    requires t.profiles == s.profiles || t.profiles == Retired(s, id).profiles
             || (p.id == id && t.profiles == Appended(Retired(s, id), p).profiles)
    ensures Grows(s, t)
  {
    hide HistoryGrows, Relink;
    forall x | x in s.profiles ensures HistoryGrows(s.profiles[x], t.profiles[x]) {
      RetiringGrows(s.profiles[x], p);
    }
  }

  lemma KillingGrows(s: State, t: State, targets: set<Uuid>)
    requires s.profiles.Keys <= t.profiles.Keys && s.invalidations <= t.invalidations && s.gen <= t.gen
    requires forall x :: x in s.profiles ==>
               t.profiles[x] == if x in targets then KillAll(s.profiles[x]) else s.profiles[x]
    ensures Grows(s, t)
  {
    hide HistoryGrows;
    forall x | x in s.profiles ensures HistoryGrows(s.profiles[x], t.profiles[x]) {
      if s.profiles[x] != [] {
        RetiringGrows(s.profiles[x], s.profiles[x][0]);
      }
      assert s.profiles[x] == [] ==> HistoryGrows(s.profiles[x], s.profiles[x]) by { EmptyGrows(); }
    }
  }

  lemma EmptyGrows()
    ensures HistoryGrows([], []) && KillAll([]) == []
  {
  }

  lemma RegisterGrows(env: Env, s: State, given: Profile)
    ensures Grows(s, RegisterProfile(env, s, given).0)
  {
    hide FingerprintHex, ClosesCycle, Relink, Grows, IsCurrent;
    var p := given.(fingerprint := FingerprintHex(env, given.payload), generation := NextGeneration(s, given.id));
    RecordingGrows(s, RegisterProfile(env, s, given).0, given.id, p);
  }

  lemma SupersedeGrows(env: Env, s: State, kind: ProfileKind, id: Uuid, payload: Canon, deps: seq<Uuid>,
                       provenance: Text)
    ensures Grows(s, SupersedeProfile(env, s, kind, id, payload, deps, provenance).0)
  {
    hide FingerprintHex, ClosesCycle, Relink, Grows, IsCurrent;
    var p := Profile(kind, id, NextGeneration(s, id), payload, deps, true, false, provenance, FingerprintHex(env, payload));
    RecordingGrows(s, SupersedeProfile(env, s, kind, id, payload, deps, provenance).0, id, p);
  }

  lemma PropagateGrows(s: State, id: Uuid, t: State, targets: seq<Uuid>)
    requires PropagatesInvalidation(s, id, t, targets)
    ensures Grows(s, t)
  {
    hide Grows, Affected;
    KillingGrows(s, t, set x | x in targets);
  }

  lemma StepGrows(env: Env, s: State, op: Op, t: State)
    requires Step(env, s, op, t)
    ensures Grows(s, t)
  {
    hide Grows, RegisterProfile, SupersedeProfile, PropagatesInvalidation, Decide, RulesFiled, KillAll;
    match op {
      case Register(p) => RegisterGrows(env, s, p);
      case Supersede(kind, id, payload, deps, provenance) => SupersedeGrows(env, s, kind, id, payload, deps, provenance);
      case Propagate(id) =>
        var targets :| PropagatesInvalidation(s, id, t, targets);
        PropagateGrows(s, id, t, targets);
      case Invalidate(id, reason) => KillingGrows(s, t, if t == s then {} else {id});
      case _ => KillingGrows(s, t, {});
    }
  }

  lemma {:induction false} RunGrows(env: Env, states: seq<State>, ops: seq<Op>, i: nat, j: nat)
    requires Run(env, states, ops) && i <= j < |states|
    ensures Grows(states[i], states[j])
    decreases j
  {
    hide Run, Step, Grows;
    if i == j {
      KillingGrows(states[i], states[j], {});
    } else {
      RunGrows(env, states, ops, i, j - 1);
      RunStep(env, states, ops, j - 1);
      StepGrows(env, states[j - 1], ops[j - 1], states[j]);
      GrowsTransitive(states[i], states[j - 1], states[j]);
    }
  }

  // ---- Edges without refused replacements ----

  ghost predicate EdgesCurrent(s: State) {
    forall id :: id in s.profiles ==> s.profiles[id] != [] && Out(s.deps, id) == Without(Last(s.profiles[id]).deps, id)
  }

  lemma SameLast(h: seq<Profile>)
    requires h != []
    ensures RetireAll(h) != [] && Last(RetireAll(h)).deps == Last(h).deps
    ensures KillAll(h) != [] && Last(KillAll(h)).deps == Last(h).deps
  {
  }

  lemma SameLastEdges(s: State, t: State)
    requires EdgesCurrent(s) && t.deps == s.deps && t.profiles.Keys == s.profiles.Keys
    requires forall x :: x in s.profiles ==>
               t.profiles[x] == s.profiles[x] || t.profiles[x] == RetireAll(s.profiles[x]) || t.profiles[x] == KillAll(s.profiles[x])
    ensures EdgesCurrent(t)
  {
    hide Last, RetireAll, KillAll, Without;
    forall x | x in t.profiles ensures t.profiles[x] != [] && Last(t.profiles[x]).deps == Last(s.profiles[x]).deps {
      SameLast(s.profiles[x]);
    }
  }

  lemma AppendedEdges(s: State, p: Profile, t: State)
    requires forall x :: x in s.profiles && x != p.id ==> s.profiles[x] != [] && Out(s.deps, x) == Without(Last(s.profiles[x]).deps, x)
    requires t.profiles == Appended(s, p).profiles && t.deps == Relink(s.deps, p.id, p.deps)
    ensures EdgesCurrent(t)
  {
    hide Relink;
    RelinkOut(s.deps, p.id, p.deps);
    forall x | x in t.profiles ensures t.profiles[x] != [] && Out(t.deps, x) == Without(Last(t.profiles[x]).deps, x) {
    }
  }

  lemma RegisterEdges(env: Env, s: State, given: Profile)
    requires EdgesCurrent(s)
    ensures EdgesCurrent(RegisterProfile(env, s, given).0)
  {
    hide FingerprintHex, ClosesCycle, Relink, IsCurrent, EdgesCurrent;
    var p := given.(fingerprint := FingerprintHex(env, given.payload), generation := NextGeneration(s, given.id));
    var retired, t := Retired(s, p.id), RegisterProfile(env, s, given).0;
    SameLastEdges(s, retired);
    if t != s && t != retired {
      assert EdgesCurrent(retired) ==> (forall x :: x in retired.profiles ==>
        retired.profiles[x] != [] && Out(retired.deps, x) == Without(Last(retired.profiles[x]).deps, x)) by { EdgesGive(retired); }
      AppendedEdges(retired, p, t);
    }
  }

  lemma EdgesGive(s: State)
    ensures EdgesCurrent(s) ==> forall x :: x in s.profiles ==>
              s.profiles[x] != [] && Out(s.deps, x) == Without(Last(s.profiles[x]).deps, x)
  {
  }

  lemma SupersedeEdges(env: Env, s: State, op: Op)
    requires op.Supersede? && EdgesCurrent(s) && !Refused(s, op, env)
    ensures EdgesCurrent(SupersedeProfile(env, s, op.kind, op.id, op.payload, op.deps, op.provenance).0)
  {
    hide FingerprintHex, ClosesCycle, Relink, IsCurrent, EdgesCurrent;
    var fingerprint := FingerprintHex(env, op.payload);
    var p := Profile(op.kind, op.id, NextGeneration(s, op.id), op.payload, op.deps, true, false, op.provenance, fingerprint);
    var t := SupersedeProfile(env, s, op.kind, op.id, op.payload, op.deps, op.provenance).0;
    var retired := Retired(s, op.id);
    if t != s {
      SameLastEdges(s, retired);
      EdgesGive(retired);
      OutAfter(s.deps, op.id, []);
      AppendedEdges(retired.(deps := s.deps - {op.id}), p, t);
    }
  }

  /** Only a refused replacement parts the edges of a node from its newest record. */
  lemma StepEdgesCurrent(env: Env, s: State, op: Op, t: State)
    requires EdgesCurrent(s) && Step(env, s, op, t)
    requires op.Supersede? ==> !Refused(s, op, env)
    ensures EdgesCurrent(t)
  {
    hide EdgesCurrent, RegisterProfile, SupersedeProfile, Decide, Affected, RulesFiled, KillAll, RetireAll, Refused;
    match op {
      case Register(p) => RegisterEdges(env, s, p);
      case Supersede(kind, id, payload, deps, provenance) => SupersedeEdges(env, s, op);
      case Propagate(id) =>
        var targets :| PropagatesInvalidation(s, id, t, targets);
        SameLastEdges(s, t);
      case _ => SameLastEdges(s, t);
    }
  }

  lemma NoneActive(h: seq<Profile>)
    ensures NewestActive(RetireAll(h)) == None
  {
  }

  /** A refused replacement of a profile that has dependencies does part them. */
  lemma RefusedSupersedeDropsEdges(env: Env, s: State, op: Op, t: State)
    requires Kept(env, s) && op.Supersede? && Refused(s, op, env) && Step(env, s, op, t)
    ensures EdgesCurrent(t) ==> Without(Last(s.profiles[op.id]).deps, op.id) == []
    ensures Out(t.deps, op.id) == [] && ActiveProfile(t, op.id) == None && t.gen == s.gen
  {
    hide FingerprintHex, ClosesCycle, Cyclic, Filed, Without, Last, IsCurrent, Appended, NextGeneration, RetireAll,
         KeptHistory, EdgesCurrent, KeptEdges, RulesFiled, NewestActive;
    OutAfter(s.deps, op.id, []);
    RetiredKept(env, op.id, s.profiles[op.id]);
    NoneActive(s.profiles[op.id]);
    assert t == s.(profiles := s.profiles[op.id := RetireAll(s.profiles[op.id])], deps := s.deps - {op.id});
    EdgesGive(t);
    assert op.id in t.profiles && t.profiles[op.id] == RetireAll(s.profiles[op.id]);
  }

  lemma RetiringChanges(h: seq<Profile>)
    ensures RetireAll(h) == h <==> NewestActive(h) == None
  {
    if NewestActive(h).Some? {
      var i :| 0 <= i < |h| && h[i] == NewestActive(h).value;
      assert RetireAll(h)[i] != h[i];
    } else {
      forall i | 0 <= i < |h| ensures RetireAll(h)[i] == h[i] {
        IsMember(h, i);
      }
    }
  }

  /**
    * A refused call leaves everything as it was exactly if there was no active record to retire and, for
    * a replacement, no entry of edges to drop.
    */
  lemma RefusedWithoutEffect(env: Env, s: State, op: Op, t: State)
    requires Refused(s, op, env) && Step(env, s, op, t)
    ensures t == s <==> ActiveProfile(s, Subject(op)) == None && (op.Supersede? ==> Subject(op) !in s.deps)
  {
    hide FingerprintHex, ClosesCycle, IsCurrent, Appended, NewestActive, RulesFiled, RetireAll;
    var id := Subject(op);
    if id in s.profiles {
      RetiringChanges(s.profiles[id]);
      assert t.profiles[id] == RetireAll(s.profiles[id]);
      assert RetireAll(s.profiles[id]) == s.profiles[id] ==> t.profiles == s.profiles;
    }
    assert op.Supersede? && id !in s.deps ==> s.deps - {id} == s.deps;
    assert op.Supersede? ==> id !in t.deps;
  }

  lemma {:induction false} RunEdgesCurrent(env: Env, states: seq<State>, ops: seq<Op>, i: nat)
    requires Run(env, states, ops) && i < |states|
    requires forall k :: 0 <= k < i && ops[k].Supersede? ==> !Refused(states[k], ops[k], env)
    ensures EdgesCurrent(states[i])
    decreases i
  {
    if i > 0 {
      hide Step, Kept, EdgesCurrent, Refused;
      RunEdgesCurrent(env, states, ops, i - 1);
      RunKeeps(env, states, ops, i - 1);
      StepEdgesCurrent(env, states[i - 1], ops[i - 1], states[i]);
    }
  }
}
