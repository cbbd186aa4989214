/** Registry objects go through runs, so what is proved of runs holds of them. */
module Sessions {
  import opened Prelude
  import opened Canonical
  import opened Rules
  import opened Graphs
  import opened States
  import opened Decisions
  import opened Snapshots
  import opened Runs
  import opened Recovery
  import opened Continuity
  import opened Registries
  import opened Persistence
  import opened Uuids

  /** Each call of the object is a step, and changes nothing that the step does not. */
  method Perform(reg: Registry, op: Op) returns (refused: bool)
    requires reg.Valid()
    modifies reg
    ensures reg.Valid() && Step(reg.env, old(reg.Contents()), op, reg.Contents())
    ensures refused <==> Refused(old(reg.Contents()), op, reg.env)
  {
    hide RegisterProfile, SupersedeProfile, PropagatesInvalidation, Decide, InvalidateProfile, RegisterRule,
         SupersedeRule, DisableRule, Cyclic, Transposed, NoSelfEdges, NoEmptyLists;
    refused := false;
    match op {
      case Register(given) =>
        var r := reg.RegisterRecord(given);
        refused := r.Err?;
      case Supersede(kind, id, payload, deps, provenance) =>
        var known := id in reg.profiles;
        var r := reg.Supersede(kind, id, payload, deps, provenance);
        refused := known && r.Err?;
      case Invalidate(id, reason) =>
        var _ := reg.Invalidate(id, reason);
      case Propagate(id) =>
        ghost var _ := reg.PropagateInvalidation(id);
      case AddRule(rule) =>
        reg.AddRule(rule);
      case ReplaceRule(id, rule) =>
        var _ := reg.ReplaceRule(id, rule);
      case Disable(id) =>
        var _ := reg.Disable(id);
      case AddEvidence(e) =>
        reg.AddEvidence(e);
      case ChangePolicy(id) =>
        reg.ChangePolicy(id);
      case Evaluate(left, right, requirement) =>
        if requirement {
          var _ := reg.EvaluateRequirement(left, right);
        } else {
          var _ := reg.EvaluatePair(left, right);
        }
    }
  }

  /** A new registry put through any calls has gone through a run. */
  method Drive(env: Env, ops: seq<Op>) returns (reg: Registry, ghost states: seq<State>)
    ensures fresh(reg) && reg.env == env && reg.Valid()
    ensures Run(env, states, ops) && reg.Contents() == states[|ops|] && Kept(env, reg.Contents())
  {
    hide Step, Kept;
    reg := new Registry(env);
    states := [reg.Contents()];
    var i := 0;
    while i < |ops|
      invariant 0 <= i <= |ops| && |states| == i + 1
      invariant fresh(reg) && reg.env == env && reg.Valid()
      invariant states[0] == INITIAL && states[i] == reg.Contents()
      invariant forall j :: 0 <= j < i ==> Step(env, states[j], ops[j], states[j + 1])
    {
      var _ := Perform(reg, ops[i]);
      states := states + [reg.Contents()];
      i := i + 1;
    }
    RunKeeps(env, states, ops, |ops|);
  }

  /** The sorted dependents of an id are determined by the edges out of all ids. */
  lemma SameDependents(g: Graph<Uuid>, h: Graph<Uuid>, id: Uuid, a: seq<Uuid>, b: seq<Uuid>)
    requires SameOut(g, h) && Increasing(a) && Increasing(b)
    requires (forall x :: x in a <==> id in Out(g, x)) && (forall x :: x in b <==> id in Out(h, x))
    ensures a == b
  {
    forall x: Uuid ensures x in a <==> x in b {
      assert Out(g, x) == Out(h, x);
    }
    IncreasingUnique(a, b);
  }

  /** Written out and read back, a registry continues as the object it came from, with the same dependents. */
  method Restart(reg: Registry, id: Uuid) returns (copy: Registry, before: seq<Uuid>, after: seq<Uuid>)
    requires reg.Valid() && Kept(reg.env, reg.Contents()) && EdgesCurrent(reg.Contents())
    requires Bounded(reg.Contents()) && OnlyRecords(reg.Contents())
    requires forall order :: IsOrder(reg.Contents(), order) ==> WellFormed(Document(reg.Contents(), order))
    ensures fresh(copy) && copy.Valid() && copy.env == reg.env && Continues(reg.Contents(), copy.Contents())
    ensures before == after
  {
    hide Kept, EdgesCurrent, Bounded, OnlyRecords, WellFormed, Document, Contained, CanonicalEncode, Recovered,
         IsOrder, Cyclic, Transposed, NoSelfEdges, NoEmptyLists, RulesFiled, Histories;
    var bytes, order := TakeSnapshot(reg);
    RecoverSnapshot(reg.env, reg.Contents(), order);
    var r, past := Recover(reg.env, bytes);
    copy := r.value;
    before := reg.DependentsOf(id);
    after := copy.DependentsOf(id);
    SameDependents(reg.deps, copy.deps, id, before, after);
  }
}
