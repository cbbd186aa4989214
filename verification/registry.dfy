/** The registry object: its fields, updated in place, against the mutations of States and the decisions of Decisions. */
module Registries {
  import opened Prelude
  import opened Canonical
  import opened Rules
  import opened Graphs
  import opened States
  import opened Decisions
  import opened Counterfactuals
  import opened Uuids

  /** How often b is listed under a. */
  ghost function Edges(g: Graph<Uuid>, a: Uuid, b: Uuid): nat {
    multiset(Out(g, a))[b]
  }

  /** Edge for edge, with repetitions, one graph is the other turned round. */
  ghost predicate Transposed(deps: Graph<Uuid>, reverse: Graph<Uuid>) {
    forall a: Uuid, b: Uuid :: Edges(deps, a, b) == Edges(reverse, b, a)
  }

  ghost predicate NoSelfEdges(deps: Graph<Uuid>) {
    forall a: Uuid :: a !in Out(deps, a)
  }

  ghost predicate NoEmptyLists(reverse: Graph<Uuid>) {
    forall b :: b in reverse ==> reverse[b] != []
  }

  lemma WithoutCount(s: seq<Uuid>, id: Uuid, x: Uuid)
    ensures multiset(Without(s, id))[x] == if x == id then 0 else multiset(s)[x]
  {
    if s != [] {
      WithoutCount(s[1..], id, x);
      assert s == [s[0]] + s[1..];
    }
  }

  lemma WithoutSnoc(s: seq<Uuid>, d: Uuid, id: Uuid)
    ensures Without(s + [d], id) == if d == id then Without(s, id) else Without(s, id) + [d]
  {
    if s == [] {
      assert [] + [d] == [d];
    } else {
      WithoutSnoc(s[1..], d, id);
      assert (s + [d])[1..] == s[1..] + [d];
    }
  }

  lemma AddedEdge(deps: Graph<Uuid>, reverse: Graph<Uuid>, id: Uuid, d: Uuid)
    requires Transposed(deps, reverse) && NoSelfEdges(deps) && NoEmptyLists(reverse) && d != id
    ensures Transposed(deps[id := Out(deps, id) + [d]], reverse[d := Out(reverse, d) + [id]])
    ensures NoSelfEdges(deps[id := Out(deps, id) + [d]]) && NoEmptyLists(reverse[d := Out(reverse, d) + [id]])
  {
    var deps', reverse' := deps[id := Out(deps, id) + [d]], reverse[d := Out(reverse, d) + [id]];
    forall a: Uuid, b: Uuid ensures Edges(deps', a, b) == Edges(reverse', b, a) {
      OneMore(deps, id, d, a, b);
      OneMore(reverse, d, id, b, a);
      assert Edges(deps, a, b) == Edges(reverse, b, a);
    }
    forall a: Uuid ensures a !in Out(deps', a) {
      assert a !in Out(deps, a);
    }
  }

  lemma OneMore(g: Graph<Uuid>, from: Uuid, to: Uuid, a: Uuid, b: Uuid)
    ensures Edges(g[from := Out(g, from) + [to]], a, b) == Edges(g, a, b) + if a == from && b == to then 1 else 0
  {
  }

  /** Dropping id from the reverse lists of its successors leaves no trace of it. */
  lemma DroppedEdges(deps: Graph<Uuid>, reverse: Graph<Uuid>, dropped: Graph<Uuid>, id: Uuid)
    requires Transposed(deps, reverse) && NoSelfEdges(deps)
    requires forall b :: Out(dropped, b) == if b in Out(deps, id) then Without(Out(reverse, b), id) else Out(reverse, b)
    ensures Transposed(deps - {id}, dropped) && NoSelfEdges(deps - {id})
    ensures Transposed(deps[id := []], dropped) && NoSelfEdges(deps[id := []])
  {
    hide Without;
    forall a: Uuid, b: Uuid
      ensures Edges(dropped, b, a) == Edges(deps - {id}, a, b) == Edges(deps[id := []], a, b)
    {
      WithoutCount(Out(reverse, b), id, a);
      WithoutEdges(deps, id, a, b);
      assert Edges(deps, a, b) == Edges(reverse, b, a) && Edges(deps, id, b) == Edges(reverse, b, id);
    }
    OutAfter(deps, id, []);
    forall a: Uuid ensures a !in Out(deps - {id}, a) && a !in Out(deps[id := []], a) {
      assert a !in Out(deps, a);
    }
  }

  lemma WithoutEdges(deps: Graph<Uuid>, id: Uuid, a: Uuid, b: Uuid)
    ensures Edges(deps - {id}, a, b) == Edges(deps[id := []], a, b) == if a == id then 0 else Edges(deps, a, b)
  {
    OutAfter(deps, id, []);
  }

  class Registry {
    const env: Env
    var profiles: map<Uuid, seq<Profile>>
    var rules: map<Uuid, RuleRecord>
    var evidence: map<Uuid, Evidence>
    var decisions: map<Digest, Decision>
    var invalidations: seq<Invalidation>
    var deps: Graph<Uuid>
    var reverse: Graph<Uuid>
    var gen: nat
    var policy: Uuid
    var ruleGen: nat
    var evidenceGen: nat

    function Contents(): State
      reads this
    {
      State(profiles, rules, evidence, decisions, invalidations, deps, gen, policy, ruleGen, evidenceGen)
    }

    /** The two edge tables agree. */
    ghost predicate Linked()
      reads this
    {
      Transposed(deps, reverse) && NoSelfEdges(deps) && NoEmptyLists(reverse)
    }

    ghost predicate Valid()
      reads this
    {
      Linked() && !Cyclic(deps) && Histories(profiles) && RulesFiled(rules)
    }

    constructor (env: Env)
      ensures Valid() && this.env == env && Contents() == INITIAL
    {
      this.env := env;
      profiles, rules, evidence, decisions := map[], map[], map[], map[];
      invalidations, deps, reverse := [], map[], map[];
      gen, policy, ruleGen, evidenceGen := 0, ZERO_UUID, 0, 0;
      new;
      assert !Cyclic(deps) by { AllDoneIsAcyclic(deps, []); }
    }

    // ---- Edges ----

    /** The loop that add_dependency and remove_dependency share. */
    method UnlinkReverse(id: Uuid, edges: seq<Uuid>)
      requires NoEmptyLists(reverse)
      modifies this`reverse
      ensures NoEmptyLists(reverse)
      ensures forall b :: Out(reverse, b) ==
                if b in edges then Without(old(Out(reverse, b)), id) else old(Out(reverse, b))
    {
      var i := 0;
      while i < |edges|
        invariant 0 <= i <= |edges|
        invariant NoEmptyLists(reverse)
        invariant forall b :: Out(reverse, b) ==
                    if b in edges[..i] then Without(old(Out(reverse, b)), id) else old(Out(reverse, b))
      {
        var d := edges[i];
        assert forall b :: b in edges[..i + 1] <==> b in edges[..i] || b == d;
        WithoutTwice(old(Out(reverse, d)), id);
        if d in reverse {
          var v := Without(reverse[d], id);
          reverse := if v == [] then reverse - {d} else reverse[d := v];
        }
        i := i + 1;
      }
      assert edges[..i] == edges;
    }

    static lemma WithoutTwice(s: seq<Uuid>, id: Uuid)
      ensures Without(Without(s, id), id) == Without(s, id)
    {
    }

    method AddDependency(id: Uuid, ds: seq<Uuid>)
      requires Linked()
      modifies this`deps, this`reverse
      ensures Linked() && deps == Relink(old(deps), id, ds)
    {
      hide Transposed, NoSelfEdges, NoEmptyLists;
      if id in deps {
        UnlinkReverse(id, deps[id]);
        DroppedEdges(old(deps), old(reverse), reverse, id);
        deps := deps[id := []];
      }
      assert Linked();
      var i := 0;
      while i < |ds|
        invariant 0 <= i <= |ds|
        invariant Linked() && deps == Relink(old(deps), id, ds[..i])
      {
        var d := ds[i];
        WithoutSnoc(ds[..i], d, id);
        assert ds[..i + 1] == ds[..i] + [d];
        if d != id {
          AddedEdge(deps, reverse, id, d);
          deps := deps[id := Out(deps, id) + [d]];
          reverse := reverse[d := Out(reverse, d) + [id]];
        }
        i := i + 1;
      }
      assert ds[..i] == ds;
    }

    method RemoveDependency(id: Uuid)
      requires Linked()
      modifies this`deps, this`reverse
      ensures Linked() && deps == old(deps) - {id}
    {
      if id in deps {
        UnlinkReverse(id, deps[id]);
        DroppedEdges(old(deps), old(reverse), reverse, id);
        deps := deps - {id};
      }
    }

    method HasCycle() returns (found: bool)
      ensures found <==> Cyclic(deps)
    {
      found := FindCycle(deps);
    }

    /** Looks at old and new edges of the node together, and still answers for the new ones alone. */
    method CreateCycle(from: Uuid, to: seq<Uuid>) returns (found: bool)
      ensures !Cyclic(deps) ==> (found <==> ClosesCycle(deps, from, to))
      ensures Cyclic(deps) ==> found
    {
      var both := SortUnique(Out(deps, from) + Without(to, from));
      SortUniqueSorts(Out(deps, from) + Without(to, from));
      if Cyclic(deps) {
        SubgraphCycles(deps, deps[from := both]);
      } else {
        UnionFindsReplacement(deps, from, Without(to, from), both);
      }
      found := FindCycle(deps[from := both]);
    }

    /** Each dependency as often as the other table lists this node under it, and never the node itself. */
    method DependenciesOf(id: Uuid) returns (r: seq<Uuid>)
      requires Linked()
      ensures r == Out(deps, id)
      ensures id !in r && forall d: Uuid :: multiset(r)[d] == multiset(Out(reverse, d))[id]
    {
      r := Out(deps, id);
      forall d: Uuid ensures multiset(r)[d] == multiset(Out(reverse, d))[id] {
        assert Edges(deps, id, d) == Edges(reverse, d, id);
      }
    }

    /** Every id that has this one among its dependencies, in order and once. */
    method DependentsOf(id: Uuid) returns (r: seq<Uuid>)
      requires Linked()
      ensures Increasing(r) && forall x :: x in r <==> id in Out(deps, x)
    {
      r := SortUnique(Out(reverse, id));
      SortUniqueSorts(Out(reverse, id));
      forall x: Uuid ensures x in r <==> id in Out(deps, x) {
        assert Edges(deps, x, id) == Edges(reverse, id, x);
      }
    }

    // ---- Profiles ----

    method RetireActive(id: Uuid)
      requires id in profiles
      modifies this`profiles
      ensures profiles == old(profiles)[id := RetireAll(old(profiles)[id])]
    {
      var hist := profiles[id];
      var i := 0;
      while i < |hist|
        invariant 0 <= i <= |hist| == |old(profiles)[id]|
        invariant forall j :: 0 <= j < |hist| ==>
                    hist[j] == if j < i then Retire(old(profiles)[id][j]) else old(profiles)[id][j]
      {
        if hist[i].active {
          hist := hist[i := hist[i].(active := false, superseded := true)];
        }
        i := i + 1;
      }
      assert hist == RetireAll(old(profiles)[id]);
      profiles := profiles[id := hist];
    }

    method KillHistory(id: Uuid)
      requires id in profiles
      modifies this`profiles
      ensures profiles == old(profiles)[id := KillAll(old(profiles)[id])]
    {
      var hist := profiles[id];
      var i := 0;
      while i < |hist|
        invariant 0 <= i <= |hist| == |old(profiles)[id]|
        invariant forall j :: 0 <= j < |hist| ==>
                    hist[j] == if j < i then Kill(old(profiles)[id][j]) else old(profiles)[id][j]
      {
        hist := hist[i := hist[i].(active := false, superseded := true)];
        i := i + 1;
      }
      assert hist == KillAll(old(profiles)[id]);
      profiles := profiles[id := hist];
    }

    method Append(p: Profile)
      requires Linked() && Histories(profiles) && RulesFiled(rules)
      requires !ClosesCycle(deps, p.id, p.deps)
      modifies this
      ensures Valid() && Contents() == Appended(old(Contents()), p)
    {
      hide Transposed, NoSelfEdges, NoEmptyLists, Cyclic, Relink, ClosesCycle;
      var before := if p.id in profiles then profiles[p.id] else [];
      profiles := profiles[p.id := before + [p]];
      AddDependency(p.id, p.deps);
      RelinkAcyclic(old(deps), p.id, p.deps);
      gen := gen + 1;
    }

    static lemma DropAcyclic(deps: Graph<Uuid>, id: Uuid)
      requires !Cyclic(deps)
      ensures !Cyclic(deps - {id})
    {
      if Cyclic(deps - {id}) {
        SubgraphCycles(deps - {id}, deps);
        assert false;
      }
    }

    static lemma RelinkAcyclic(deps: Graph<Uuid>, id: Uuid, ds: seq<Uuid>)
      requires !ClosesCycle(deps, id, ds)
      ensures !Cyclic(Relink(deps, id, ds))
    {
      if Cyclic(Relink(deps, id, ds)) {
        SubgraphCycles(Relink(deps, id, ds), deps[id := Without(ds, id)]);
        assert false;
      }
    }

    method RegisterRecord(given: Profile) returns (r: Result<Uuid>)
      requires Valid()
      modifies this
      ensures Valid() && (Contents(), r) == RegisterProfile(env, old(Contents()), given)
    {
      hide Transposed, NoSelfEdges, NoEmptyLists, Cyclic, Relink, FingerprintHex, RulesFiled;
      var p := given.(fingerprint := FingerprintHex(env, given.payload));
      if p.id in profiles {
        var latest := Last(profiles[p.id]);
        if latest.active && latest.fingerprint == p.fingerprint && latest.deps == p.deps && latest.kind == p.kind {
          return Ok(p.id);
        }
        RetireActive(p.id);
      }
      var g := 1;
      if p.id in profiles {
        g := Last(profiles[p.id]).generation + 1;
      }
      p := p.(generation := g);
      var cycle := CreateCycle(p.id, p.deps);
      if cycle {
        return Err;
      }
      Append(p);
      r := Ok(p.id);
    }

    /** Registers new content under an id drawn for it. */
    method RegisterNew(kind: ProfileKind, payload: Canon, ds: seq<Uuid>, provenance: Text, drawn: Uuid)
      returns (r: Result<Uuid>)
      requires Valid()
      modifies this
      ensures Valid()
      ensures (Contents(), r) == RegisterProfile(env, old(Contents()), FreshProfile(kind, payload, ds, provenance, drawn))
    {
      r := RegisterRecord(FreshProfile(kind, payload, ds, provenance, drawn));
    }

    method Supersede(kind: ProfileKind, id: Uuid, payload: Canon, ds: seq<Uuid>, provenance: Text)
      returns (r: Result<Uuid>)
      requires Valid()
      modifies this
      ensures Valid() && (Contents(), r) == SupersedeProfile(env, old(Contents()), kind, id, payload, ds, provenance)
    {
      hide Transposed, NoSelfEdges, NoEmptyLists, Cyclic, Relink, FingerprintHex, RulesFiled;
      if id !in profiles {
        return Err;
      }
      var fingerprint := FingerprintHex(env, payload);
      var latest := Last(profiles[id]);
      if latest.active && latest.fingerprint == fingerprint && latest.deps == ds {
        return Ok(id);
      }
      RetireActive(id);
      var p := Profile(kind, id, latest.generation + 1, payload, ds, true, false, provenance, fingerprint);
      RemoveDependency(id);
      DropAcyclic(old(deps), id);
      var cycle := CreateCycle(id, ds);
      assert (old(deps) - {id})[id := Without(ds, id)] == old(deps)[id := Without(ds, id)];
      if cycle {
        return Err;
      }
      Append(p);
      r := Ok(id);
    }

    method RecordInvalidation(id: Uuid, reason: Text)
      requires id in profiles && profiles[id] != []
      modifies this`profiles, this`invalidations
      ensures invalidations == old(invalidations) + [InvalidationOf(old(Contents()), id, reason)]
      ensures profiles == old(profiles)[id := KillAll(old(profiles)[id])]
    {
      var latest := Last(profiles[id]);
      invalidations := invalidations + [Invalidation(id, latest.generation, reason, latest.fingerprint)];
      KillHistory(id);
    }

    method Invalidate(id: Uuid, reason: Text) returns (done: bool)
      requires Valid()
      modifies this
      ensures Valid() && (Contents(), done) == InvalidateProfile(old(Contents()), id, reason)
    {
      if id !in profiles {
        return false;
      }
      RecordInvalidation(id, reason);
      gen := gen + 1;
      done := true;
    }

    /** Appends to both lists what is not seen yet. */
    static method PushNew(list: seq<Uuid>, seen0: seq<Uuid>, stack0: seq<Uuid>)
      returns (seen: seq<Uuid>, stack: seq<Uuid>, ghost added: seq<Uuid>)
      ensures seen == seen0 + added && stack == stack0 + added
      ensures forall x :: x in added <==> x in list && x !in seen0
      ensures forall i, j :: 0 <= i < j < |added| ==> added[i] != added[j]
    {
      seen, stack, added := seen0, stack0, [];
      var i := 0;
      while i < |list|
        invariant 0 <= i <= |list|
        invariant seen == seen0 + added && stack == stack0 + added
        invariant forall x :: x in added <==> x in list[..i] && x !in seen0
        invariant forall i, j :: 0 <= i < j < |added| ==> added[i] != added[j]
      {
        var n := list[i];
        assert forall x :: x in list[..i + 1] <==> x in list[..i] || x == n;
        if n !in seen {
          seen, stack := seen + [n], stack + [n];
          added := added + [n];
        }
        i := i + 1;
      }
      assert list[..i] == list;
    }

    method InvalidateVisited(id: Uuid, ghost s: State, ghost targets0: seq<Uuid>) returns (ghost targets: seq<Uuid>)
      requires Marked(s, profiles, invalidations, targets0) && id !in targets0
      modifies this`profiles, this`invalidations
      ensures Marked(s, profiles, invalidations, targets)
      ensures forall x :: x in targets <==> x in targets0 || (x == id && x in s.profiles)
    {
      hide Marked;
      targets := targets0;
      MarkedKeys(s, profiles, invalidations, targets);
      if id in profiles {
        MarkedStep(s, profiles, invalidations, targets, id);
        RecordInvalidation(id, PROPAGATED);
        targets := targets + [id];
      }
    }

    /** Invalidates a profile and everything that depends on it, each once. */
    method PropagateInvalidation(id: Uuid) returns (ghost targets: seq<Uuid>)
      requires Valid()
      modifies this
      ensures Valid() && PropagatesInvalidation(old(Contents()), id, Contents(), targets)
    {
      hide Cyclic, RulesFiled, Transposed, NoSelfEdges, NoEmptyLists, Reaches, Frontier, Marked, Histories, Distinct,
           Affected;
      ghost var s := Contents();
      var stack, seen := [id], [];
      ghost var popped: set<Uuid>, all := {}, {id} + deps.Keys;
      targets := [];
      FrontierStart(deps, id);
      MarkedStart(s);
      while stack != []
        invariant Linked() && deps == s.deps && reverse == old(reverse)
        invariant Frontier(s.deps, id, popped, stack, seen)
        invariant popped <= all
        invariant Marked(s, profiles, invalidations, targets)
        invariant forall x :: x in targets <==> x in s.profiles && x in popped
        invariant Contents() == s.(profiles := profiles, invalidations := invalidations)
        decreases all - popped
      {
        var cur := stack[|stack| - 1];
        assert stack == stack[..|stack| - 1] + [cur];
        FrontierTop(s.deps, id, popped, stack, seen, all);
        stack := stack[..|stack| - 1];
        ghost var rest, seen0 := stack, seen;
        targets := InvalidateVisited(cur, s, targets);
        TransposedMembers(deps, reverse, cur);
        ghost var added: seq<Uuid> := [];
        if cur in reverse {
          seen, stack, added := PushNew(reverse[cur], seen, stack);
        }
        assert stack == rest + added && seen == seen0 + added;
        FrontierStep(s.deps, id, popped, rest, seen0, cur, Out(reverse, cur), added);
        popped := popped + {cur};
      }
      ClosureIsAffected(s, id, popped, seen);
      MarkedKeys(s, profiles, invalidations, targets);
      gen := gen + 1;
    }

    // ---- Rules, evidence, policy ----

    method AddRule(given: Rule)
      requires Valid()
      modifies this
      ensures Valid() && Contents() == RegisterRule(old(Contents()), given)
    {
      hide Transposed, NoSelfEdges, NoEmptyLists, Cyclic, Histories;
      var rule := given;
      if rule.generation == 0 {
        if rule.ruleId in rules && rules[rule.ruleId].active {
          rule := rule.(generation := rules[rule.ruleId].rule.generation + 1);
        } else {
          ruleGen := ruleGen + 1;
          rule := rule.(generation := ruleGen);
        }
      }
      rules := rules[rule.ruleId := RuleRecord(rule, true, false)];
      gen := gen + 1;
    }

    method ReplaceRule(id: Uuid, given: Rule) returns (done: bool)
      requires Valid()
      modifies this
      ensures Valid() && (Contents(), done) == SupersedeRule(old(Contents()), id, given)
    {
      if id !in rules {
        return false;
      }
      var rule := given.(ruleId := id, generation := rules[id].rule.generation + 1);
      rules := rules[id := RuleRecord(rule, true, false)];
      gen := gen + 1;
      done := true;
    }

    method Disable(id: Uuid) returns (done: bool)
      requires Valid()
      modifies this
      ensures Valid() && (Contents(), done) == DisableRule(old(Contents()), id)
    {
      if id !in rules {
        return false;
      }
      rules := rules[id := rules[id].(active := false, superseded := true)];
      gen := gen + 1;
      done := true;
    }

    method AddEvidence(e: Evidence)
      requires Valid()
      modifies this
      ensures Valid() && Contents() == RegisterEvidence(old(Contents()), e)
    {
      evidence := evidence[e.id := e];
      evidenceGen := evidenceGen + 1;
      gen := gen + 1;
    }

    method ChangePolicy(id: Uuid)
      requires Valid()
      modifies this
      ensures Valid() && Contents() == SetPolicy(old(Contents()), id)
    {
      policy := id;
      gen := gen + 1;
    }

    // ---- Decisions ----

    /** Collects the applicable rules in whatever order the table yields them, then sorts. */
    method Gather(scopes: set<Text>, l: ProfileKind, r: ProfileKind) returns (cand: seq<Rule>)
      requires RulesFiled(rules)
      ensures cand == Candidates(rules, scopes, l, r)
    {
      var collected: seq<Rule> := [];
      var rest := rules.Keys;
      while rest != {}
        invariant rest <= rules.Keys
        invariant forall o :: o in collected <==>
                    exists id :: id in rules && id !in rest && Applies(rules[id], scopes, l, r) && rules[id].rule == o
        invariant forall i :: 0 <= i < |collected| ==> collected[i].ruleId in rules && collected[i].ruleId !in rest
        invariant forall i, j :: 0 <= i < j < |collected| ==> collected[i].ruleId != collected[j].ruleId
        decreases rest
      {
        var id :| id in rest;
        rest := rest - {id};
        if Applies(rules[id], scopes, l, r) {
          collected := collected + [rules[id].rule];
        }
      }
      ApplicableDistinct(rules, scopes, l, r);
      var applicable := Applicable(rules, scopes, l, r);
      assert forall o :: o in collected <==> o in applicable;
      cand := SortByRank(collected);
      RankingUnique(cand, Ranking(applicable), applicable);
    }

    /** The candidates' evaluations that decide, and whether any lacked evidence; Err if one throws. */
    method EvaluateCandidates(cand: seq<Rule>, l: Side, r: Side) returns (res: Result<(seq<RuleEval>, bool)>)
      ensures var evals := EvalAll(env, cand, l, r);
              if evals.Ok? then res == Ok((Deciding(evals.value), AnyMissing(evals.value))) else res == Err
    {
      hide EvalRule;
      var definite: seq<RuleEval> := [];
      var missing := false;
      ghost var evals: seq<RuleEval> := [];
      var i := 0;
      while i < |cand|
        invariant 0 <= i == |evals| <= |cand|
        invariant forall j :: 0 <= j < i ==> EvalRule(env, cand[j], l, r) == Ok(evals[j])
        invariant definite == Deciding(evals) && missing == AnyMissing(evals)
      {
        var e := EvalRule(env, cand[i], l, r);
        if e.Err? {
          EvalAllThrows(env, cand, l, r, i);
          return Err;
        }
        DecidingSnoc(evals, e.value);
        evals := evals + [e.value];
        missing := missing || e.value.missing;
        if e.value.definite && e.value.outcome != UNKNOWN {
          definite := definite + [e.value];
        }
        i := i + 1;
      }
      EvalAllReturns(env, cand, l, r, evals);
      res := Ok((definite, missing));
    }

    method NewestActiveOf(id: Uuid) returns (p: Option<Profile>)
      ensures p == ActiveProfile(Contents(), id)
    {
      if id !in profiles {
        return None;
      }
      var h := profiles[id];
      var i := |h|;
      assert h[..i] == h;
      while i > 0
        invariant 0 <= i <= |h|
        invariant NewestActive(h[..i]) == NewestActive(h)
      {
        i := i - 1;
        assert h[..i + 1][..i] == h[..i];
        if h[i].active {
          return Some(h[i]);
        }
      }
      p := None;
    }

    method EvaluateLocked(left: Uuid, right: Uuid, requirement: bool) returns (res: Result<Decision>)
      requires RulesFiled(rules)
      ensures res == Decide(env, Contents(), left, right, requirement)
    {
      hide DigestTree, ResolveByRules;
      var d := Blank(Contents(), left, right, [env.wording(RuleResolution)], false);
      var l := NewestActiveOf(left);
      var r := NewestActiveOf(right);
      if l.None? || r.None? {
        return Ok(Sealed(env, d));
      }
      d := d.(left := l.value.id, right := r.value.id);
      if l.value.fingerprint == r.value.fingerprint {
        return Ok(Sealed(env, ExactDecision(env, d, l.value, r.value)));
      }
      res := ResolvePair(l.value, r.value, requirement, d);
    }

    method ResolvePair(l: Profile, r: Profile, requirement: bool, blank: Decision) returns (res: Result<Decision>)
      requires RulesFiled(rules)
      ensures res == ResolveByRules(env, Contents(), l, r, requirement, blank)
    {
      hide EvalRule, EvalAll, DigestTree, IdTree, Resolve, Deciding;
      var cand := Gather({ScopeOf(requirement)}, l.kind, r.kind);
      var found := EvaluateCandidates(cand, SideOf(l), SideOf(r));
      if found.Err? {
        return Err;
      }
      var (definite, missing) := found.value;
      ghost var evals := EvalAll(env, cand, SideOf(l), SideOf(r)).value;
      res := Settle(blank, cand, definite, missing, evals);
      if res.Ok? {
        var id := DecisionId(env, blank.left, blank.right, gen, requirement, policy);
        res := Ok(Sealed(env, res.value.(decisionId := id)));
      }
    }

    /** Fills in the winner's results, or who was asked in vain. */
    method Settle(blank: Decision, cand: seq<Rule>, definite: seq<RuleEval>, missing: bool, ghost evals: seq<RuleEval>)
      returns (res: Result<Decision>)
      requires definite == Deciding(evals) && missing == AnyMissing(evals)
      ensures if OutcomesNamed(evals) then res == Ok(Resolve(env, blank, cand, evals)) else res == Err
    {
      hide ConflictNotes, AnyMissing;
      var d := blank;
      if definite != [] {
        var best := definite[0];
        var notes := SurfaceConflicts(definite);
        if notes.Err? || best.outcome > INSUFFICIENT_EVIDENCE {
          return Err;
        }
        d := d.(outcome := best.outcome, ruleId := best.rule.ruleId, ruleGeneration := best.rule.generation,
                satisfied := best.satisfied, failed := best.failed,
                adaptations := best.adaptations, missingEvidence := best.missingEvidence,
                provenance := d.provenance + [env.wording(ResolvedBy(best.rule.ruleId, best.rule.priority))] + notes.value);
      } else {
        if cand != [] {
          var note := env.wording(Authoritative(cand[0].ruleId, cand[0].generation));
          d := d.(ruleId := cand[0].ruleId, ruleGeneration := cand[0].generation, provenance := d.provenance + [note]);
        }
        var note := env.wording(if missing then EvidenceNotPresent else NothingEstablished);
        d := d.(outcome := if missing then INSUFFICIENT_EVIDENCE else UNKNOWN, provenance := d.provenance + [note]);
      }
      res := Ok(d);
    }

    static lemma NextNote(env: Env, others: seq<RuleEval>, outcome: byte, out: seq<Text>)
      requires others != []
      ensures out + ConflictNotes(env, others, outcome)
              == (if others[0].outcome != outcome then out + [env.wording(Conflict(others[0].rule.ruleId, others[0].outcome))] else out)
                 + ConflictNotes(env, others[1..], outcome)
    {
    }

    static lemma NoNote(env: Env, outcome: byte, out: seq<Text>)
      ensures out + ConflictNotes(env, [], outcome) == out
    {
    }

    /** One note for each later definite result with another outcome; outcome_name throws on one that has no name. */
    method SurfaceConflicts(definite: seq<RuleEval>) returns (notes: Result<seq<Text>>)
      requires definite != []
      ensures var best := definite[0].outcome;
              if forall e :: e in definite && e.outcome != best ==> e.outcome <= INSUFFICIENT_EVIDENCE
              then notes == Ok(ConflictNotes(env, definite[1..], best)) else notes == Err
    {
      hide ConflictNotes;
      var best := definite[0].outcome;
      var out: seq<Text> := [];
      var i := 1;
      while i < |definite|
        invariant 1 <= i <= |definite|
        invariant forall j :: 0 <= j < i && definite[j].outcome != best ==> definite[j].outcome <= INSUFFICIENT_EVIDENCE
        invariant ConflictNotes(env, definite[1..], best) == out + ConflictNotes(env, definite[i..], best)
      {
        var other := definite[i];
        NextNote(env, definite[i..], best, out);
        assert definite[i..][1..] == definite[i + 1..];
        if other.outcome != best {
          if other.outcome > INSUFFICIENT_EVIDENCE {
            IsMember(definite, i);
            return Err;
          }
          out := out + [env.wording(Conflict(other.rule.ruleId, other.outcome))];
        }
        i := i + 1;
      }
      assert definite[i..] == [];
      NoNote(env, best, out);
      forall e | e in definite && e.outcome != best ensures e.outcome <= INSUFFICIENT_EVIDENCE {
        var j :| 0 <= j < |definite| && definite[j] == e;
      }
      notes := Ok(out);
    }

    method EvaluatePair(left: Uuid, right: Uuid) returns (res: Result<Decision>)
      requires Valid()
      modifies this`decisions
      ensures Valid() && (Contents(), res) == Evaluated(env, old(Contents()), left, right, false)
    {
      res := EvaluateLocked(left, right, false);
      if res.Ok? {
        decisions := decisions[res.value.digest := res.value];
      }
    }

    method EvaluateRequirement(candidate: Uuid, requirement: Uuid) returns (res: Result<Decision>)
      requires Valid()
      modifies this`decisions
      ensures Valid() && (Contents(), res) == Evaluated(env, old(Contents()), candidate, requirement, true)
    {
      res := EvaluateLocked(candidate, requirement, true);
      if res.Ok? {
        decisions := decisions[res.value.digest := res.value];
      }
    }

    /** Some cached decision with this id, if there is one. */
    method ReplayDecision(id: Uuid) returns (d: Option<Decision>)
      ensures d.Some? ==> d.value in decisions.Values && d.value.decisionId == id
      ensures d.None? ==> forall e :: e in decisions.Values ==> e.decisionId != id
    {
      var rest := decisions.Keys;
      while rest != {}
        invariant rest <= decisions.Keys
        invariant forall k :: k in decisions && k !in rest ==> decisions[k].decisionId != id
        decreases rest
      {
        var k :| k in rest;
        rest := rest - {k};
        if decisions[k].decisionId == id {
          return Some(decisions[k]);
        }
      }
      d := None;
    }

    method CounterfactualPair(left: Uuid, right: Uuid, edits: seq<Edit>) returns (res: Result<Decision>)
      requires RulesFiled(rules)
      ensures res == DecideCounterfactual(env, Contents(), left, right, edits)
    {
      hide EvalRule, EvalAll, DigestTree, ResolveField, EditProfile, Candidates, AnyMissing, NewestActive;
      var l := NewestActiveOf(left);
      var r := NewestActiveOf(right);
      if l.None? || r.None? {
        return Ok(Sealed(env, Blank(Contents(), left, right, [env.wording(ProfileAbsent)], true)));
      }
      var l2, r2 := l.value, r.value;
      var i := 0;
      while i < |edits|
        invariant 0 <= i <= |edits|
        invariant ApplyEdits(env, SideOf(r.value), l2, r2, edits[i..]) == ApplyEdits(env, SideOf(r.value), l.value, r.value, edits)
      {
        assert edits[i..][1..] == edits[i + 1..];
        if ResolveField(env, SideOf(r.value), edits[i].field).Some? {
          var edited := EditProfile(env, r2, edits[i]);
          if edited.Err? {
            return Err;
          }
          r2 := edited.value;
        } else {
          var edited := EditProfile(env, l2, edits[i]);
          if edited.Err? {
            return Err;
          }
          l2 := edited.value;
        }
        i := i + 1;
      }
      var cand := Gather(DERIVED_SCOPES, l2.kind, r2.kind);
      var found := EvaluateCandidates(cand, SideOf(l2), SideOf(r2));
      if found.Err? {
        return Err;
      }
      var (definite, missing) := found.value;
      var d := Blank(Contents(), left, right, [env.wording(Derived)], true);
      if definite != [] {
        var best := definite[0];
        d := d.(outcome := best.outcome, ruleId := best.rule.ruleId, ruleGeneration := best.rule.generation,
                satisfied := best.satisfied, failed := best.failed,
                adaptations := best.adaptations, missingEvidence := best.missingEvidence);
      } else {
        d := d.(outcome := if missing then INSUFFICIENT_EVIDENCE else UNKNOWN);
      }
      res := if d.outcome <= INSUFFICIENT_EVIDENCE then Ok(Sealed(env, d)) else Err;
    }
  }

  // ---- Propagation ----

  lemma TransposedMembers(deps: Graph<Uuid>, reverse: Graph<Uuid>, b: Uuid)
    requires Transposed(deps, reverse)
    ensures forall a :: a in Out(reverse, b) <==> b in Out(deps, a)
  {
    forall a: Uuid ensures a in Out(reverse, b) <==> b in Out(deps, a) {
      assert Edges(deps, a, b) == Edges(reverse, b, a);
    }
  }

  lemma StepReaches(deps: Graph<Uuid>, a: Uuid, b: Uuid, id: Uuid)
    requires b in Out(deps, a) && Reaches(deps, b, id)
    ensures Reaches(deps, a, id)
    ensures !Cyclic(deps) ==> a != id
  {
    var p :| Path(deps, p) && p[0] == b && p[|p| - 1] == id;
    var q := [a] + p;
    assert Path(deps, q) && q[0] == a && q[|q| - 1] == id;
    if a == id {
      assert Cycle(deps, q);
    }
  }

  lemma MarkedStart(s: State)
    requires Histories(s.profiles)
    ensures Marked(s, s.profiles, s.invalidations, [])
  {
  }

  lemma MarkedKeys(s: State, profiles: map<Uuid, seq<Profile>>, invalidations: seq<Invalidation>, targets: seq<Uuid>)
    requires Marked(s, profiles, invalidations, targets)
    ensures profiles.Keys == s.profiles.Keys && Histories(profiles)
    ensures forall x :: x in profiles ==> profiles[x] != []
  {
  }

  lemma MarkedStep(s: State, profiles: map<Uuid, seq<Profile>>, invalidations: seq<Invalidation>, targets: seq<Uuid>,
                   id: Uuid)
    requires Marked(s, profiles, invalidations, targets) && id in profiles && id !in targets && profiles[id] != []
    ensures var now := s.(profiles := profiles, invalidations := invalidations);
            Marked(s, profiles[id := KillAll(profiles[id])], invalidations + [InvalidationOf(now, id, PROPAGATED)], targets + [id])
  {
    hide KillAll, InvalidationOf;
    assert forall x :: x in targets + [id] <==> x in targets || x == id;
    assert profiles[id] == s.profiles[id];
    var now := s.(profiles := profiles, invalidations := invalidations);
    SameInvalidation(s, now, id);
  }

  lemma SameInvalidation(s: State, t: State, id: Uuid)
    requires id in s.profiles && s.profiles[id] != [] && id in t.profiles && t.profiles[id] == s.profiles[id]
    ensures InvalidationOf(t, id, PROPAGATED) == InvalidationOf(s, id, PROPAGATED)
  {
  }

  /** What the work list has reached depends on id, and what was popped has had its dependents reached. */
  ghost predicate Frontier(deps: Graph<Uuid>, id: Uuid, popped: set<Uuid>, stack: seq<Uuid>, seen: seq<Uuid>) {
    && id !in seen && Distinct(stack)
    && (forall x :: x in stack ==> x !in popped)
    && (forall x :: x in popped || x in stack <==> x == id || x in seen)
    && (forall x :: x == id || x in seen ==> Reaches(deps, x, id))
    && (forall x :: x in seen ==> x in deps)
    && (forall x, y :: x in popped && x in Out(deps, y) ==> y in seen)
  }

  lemma FrontierStep(deps: Graph<Uuid>, id: Uuid, popped: set<Uuid>, rest: seq<Uuid>, seen: seq<Uuid>,
                     cur: Uuid, dependents: seq<Uuid>, added: seq<Uuid>)
    requires !Cyclic(deps) && Frontier(deps, id, popped, rest + [cur], seen)
    requires forall a :: a in dependents <==> cur in Out(deps, a)
    requires Distinct(added) && forall x :: x in added <==> x in dependents && x !in seen
    ensures Frontier(deps, id, popped + {cur}, rest + added, seen + added)
  {
    DistinctSnoc(rest, cur);
    forall x | x in dependents ensures Reaches(deps, x, id) && x != id && x in deps {
      StepReaches(deps, x, cur, id);
    }
    DistinctAppend(rest, added);
  }

  lemma DistinctSnoc(s: seq<Uuid>, x: Uuid)
    requires Distinct(s + [x])
    ensures Distinct(s) && x !in s && forall y :: y in s + [x] <==> y in s || y == x
  {
    var t := s + [x];
    assert forall i :: 0 <= i < |s| ==> s[i] == t[i] && t[i] != t[|s|];
  }

  lemma DistinctAppend(a: seq<Uuid>, b: seq<Uuid>)
    requires Distinct(a) && Distinct(b) && forall x :: x in b ==> x !in a
    ensures Distinct(a + b) && forall x :: x in a + b <==> x in a || x in b
  {
    var s := a + b;
    forall i, j | 0 <= i < j < |s| ensures s[i] != s[j] {
      if i < |a| && |a| <= j {
        assert s[i] in a && s[j] in b;
      }
    }
  }

  lemma FrontierStart(deps: Graph<Uuid>, id: Uuid)
    ensures Frontier(deps, id, {}, [id], [])
  {
    assert Path(deps, [id]);
  }

  lemma FrontierTop(deps: Graph<Uuid>, id: Uuid, popped: set<Uuid>, stack: seq<Uuid>, seen: seq<Uuid>, all: set<Uuid>)
    requires Frontier(deps, id, popped, stack, seen) && stack != [] && all == {id} + deps.Keys
    ensures stack[|stack| - 1] in all && stack[|stack| - 1] !in popped
  {
    IsMember(stack, |stack| - 1);
  }

  lemma {:induction false} PathIsPopped(deps: Graph<Uuid>, id: Uuid, popped: set<Uuid>, seen: seq<Uuid>, p: seq<Uuid>)
    requires Frontier(deps, id, popped, [], seen) && Path(deps, p) && p[|p| - 1] == id
    ensures p[0] in popped
    decreases |p|
  {
    if |p| > 1 {
      PathIsPopped(deps, id, popped, seen, p[1..]);
      assert p[1] in Out(deps, p[0]);
    }
  }

  lemma ClosureIsAffected(s: State, id: Uuid, popped: set<Uuid>, seen: seq<Uuid>)
    requires Frontier(s.deps, id, popped, [], seen)
    ensures forall x :: x in popped <==> Affected(s, id, x)
  {
    forall x ensures Affected(s, id, x) ==> x in popped {
      if Affected(s, id, x) {
        var p :| Path(s.deps, p) && p[0] == x && p[|p| - 1] == id;
        PathIsPopped(s.deps, id, popped, seen, p);
      }
    }
  }

  function FreshProfile(kind: ProfileKind, payload: Canon, ds: seq<Uuid>, provenance: Text, drawn: Uuid): Profile {
    Profile(kind, drawn, 0, payload, ds, true, false, provenance, [])
  }

  // ---- Sorting and evaluating candidates ----

  method InsertByRank(cand: seq<Rule>, rule: Rule) returns (r: seq<Rule>)
    requires Ranked(cand) && forall j :: 0 <= j < |cand| ==> cand[j].ruleId != rule.ruleId
    ensures Ranked(r) && forall o :: o in r <==> o in cand || o == rule
  {
    var k := 0;
    while k < |cand| && Before(cand[k], rule)
      invariant 0 <= k <= |cand|
      invariant forall j :: 0 <= j < k ==> Before(cand[j], rule)
    {
      k := k + 1;
    }
    forall j | k <= j < |cand| ensures Before(rule, cand[j]) {
      BeforeIsStrict(rule, cand[k], cand[j]);
    }
    assert cand == cand[..k] + cand[k..];
    assert forall o :: o in cand <==> o in cand[..k] || o in cand[k..];
    r := cand[..k] + [rule] + cand[k..];
  }

  /** std::sort by rank, on rules of different ids. */
  method SortByRank(rules: seq<Rule>) returns (cand: seq<Rule>)
    requires forall i, j :: 0 <= i < j < |rules| ==> rules[i].ruleId != rules[j].ruleId
    ensures Ranked(cand) && forall o :: o in cand <==> o in rules
  {
    hide Before;
    cand := [];
    var i := 0;
    while i < |rules|
      invariant 0 <= i <= |rules|
      invariant Ranked(cand) && forall o :: o in cand <==> o in rules[..i]
    {
      forall j | 0 <= j < |cand| ensures cand[j].ruleId != rules[i].ruleId {
        assert cand[j] in rules[..i];
      }
      cand := InsertByRank(cand, rules[i]);
      assert forall o :: o in rules[..i + 1] <==> o in rules[..i] || o == rules[i];
      i := i + 1;
    }
    assert rules[..i] == rules;
  }

  lemma {:induction false} EvalAllReturns(env: Env, cand: seq<Rule>, l: Side, r: Side, evals: seq<RuleEval>)
    requires |evals| == |cand| && forall j :: 0 <= j < |cand| ==> EvalRule(env, cand[j], l, r) == Ok(evals[j])
    ensures EvalAll(env, cand, l, r) == Ok(evals)
  {
    hide EvalRule;
    if cand != [] {
      EvalAllReturns(env, cand[1..], l, r, evals[1..]);
      assert evals == [evals[0]] + evals[1..];
    }
  }

  lemma {:induction false} EvalAllThrows(env: Env, cand: seq<Rule>, l: Side, r: Side, i: nat)
    requires i < |cand| && EvalRule(env, cand[i], l, r).Err?
    ensures EvalAll(env, cand, l, r).Err?
  {
    hide EvalRule;
    if i > 0 {
      EvalAllThrows(env, cand[1..], l, r, i - 1);
    }
  }

  lemma {:induction false} DecidingSnoc(evals: seq<RuleEval>, e: RuleEval)
    ensures Deciding(evals + [e]) == if Decides(e) then Deciding(evals) + [e] else Deciding(evals)
    ensures AnyMissing(evals + [e]) <==> AnyMissing(evals) || e.missing
  {
    if evals == [] {
      assert [] + [e] == [e];
      assert [e][1..] == [];
    } else {
      DecidingSnoc(evals[1..], e);
      assert (evals + [e])[1..] == evals[1..] + [e];
    }
    assert forall f :: f in evals + [e] <==> f in evals || f == e;
  }
}
