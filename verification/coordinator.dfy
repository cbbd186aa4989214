/** The coordinator object: its table of sources and its registry, updated request by request. */
module Coordinators {
  import opened Prelude
  import opened Canonical
  import opened States
  import opened Decisions
  import opened Documents
  import opened Snapshots
  import opened Registries
  import opened Persistence
  import C = Coordination

  class CoordinatorServer {
    const explain: Decision -> Text
    const registry: Registry
    const epoch: nat
    var sources: map<Text, C.Source>

    ghost function Contents(): C.Coordinator
      reads this, registry
    {
      C.Coordinator(epoch, sources, registry.Contents())
    }

    ghost predicate Valid()
      reads this, registry
    {
      registry.Valid()
    }

    /** Seeded with a registry, which may be new. */
    constructor (seed: Registry, explain: Decision -> Text)
      requires seed.Valid()
      ensures registry == seed && this.explain == explain && Valid()
      ensures Contents() == C.Coordinator(1, map[], seed.Contents())
    {
      registry, epoch, sources := seed, 1, map[];
      this.explain := explain;
    }

    method HandleRequest(m: C.Request, drawn: Uuid) returns (res: Result<C.Reply>)
      requires Valid()
      modifies this, registry
      ensures Valid() && C.Handles(registry.env, explain, old(Contents()), m, drawn, Contents(), res)
    {
      hide Filled, Evaluated, RegisterProfile, InvalidateProfile, RegisterRule, RegisterEvidence, C.WireRule,
           C.WireEvidence, C.Refusal, C.ProfileRefusal, CanonicalEncode, Document, Registry.Valid;
      ValidFiles();
      if m.kind == C.REGISTER_SOURCE {
        res := RegisterSource(m, drawn);
      } else if m.kind == C.REGISTER_PROFILE {
        res := PublishProfile(m, drawn);
      } else if m.kind == C.REGISTER_RULE || m.kind == C.REGISTER_EVIDENCE || m.kind == C.INVALIDATE {
        res := Change(m, drawn);
      } else if m.kind == C.QUERY_PAIR || m.kind == C.QUERY_REQUIREMENT {
        res := Query(m);
      } else if m.kind == C.SNAPSHOT {
        var bytes, order := TakeSnapshot(registry);
        res := Ok(C.Reply(true, C.ACK, Filled([Bytes(bytes)])));
        assert res == Ok(C.SnapshotReply(registry.env, registry.Contents(), order));
      } else if m.kind == C.SHUTDOWN {
        res := Ok(C.DONE);
      } else {
        res := Ok(C.Failure("unknown message type"));
      }
    }

    lemma ValidFiles()
      requires Valid()
      ensures RulesFiled(registry.rules)
    {
    }

    method RegisterSource(m: C.Request, boot: Uuid) returns (res: Result<C.Reply>)
      requires Valid() && m.kind == C.REGISTER_SOURCE
      modifies this
      ensures Valid() && C.Handles(registry.env, explain, old(Contents()), m, boot, Contents(), res)
    {
      hide Filled, C.HandlesProfile, C.HandlesChange, C.HandlesQuery;
      ValidFiles();
      var name := C.SourceName(m);
      if name == [] {
        return Ok(C.Failure("missing source name"));
      }
      sources := sources[name := C.Source(boot, 1, TextAt(m.payload, 2))];
      res := Ok(C.Reply(true, C.ACK, Filled([Id(boot), Uint(Wrap(epoch)), Uint(1)])));
    }

    method PublishProfile(m: C.Request, drawn: Uuid) returns (res: Result<C.Reply>)
      requires Valid()
      modifies this, registry
      ensures Valid() && C.HandlesProfile(registry.env, old(Contents()), m, drawn, Contents(), res)
    {
      hide Filled, RegisterProfile, Registry.Valid;
      var why := C.ProfileRefusal(epoch, sources, m);
      if why.Some? {
        return Ok(C.Failure(why.value));
      }
      var kind := ByteAt(m.payload, 6, 0);
      var id := registry.RegisterNew(kind, ValueAt(m.payload, 5), [], [], drawn);
      if id.Err? {
        return Err;
      }
      var name := C.SourceName(m);
      if name in sources {
        sources := sources[name := sources[name].(generation := C.SourceGeneration(m))];
      }
      res := Ok(C.Reply(true, C.ACK, Filled([Id(id.value)])));
    }

    method Change(m: C.Request, drawn: Uuid) returns (res: Result<C.Reply>)
      requires Valid() && (m.kind == C.REGISTER_RULE || m.kind == C.REGISTER_EVIDENCE || m.kind == C.INVALIDATE)
      modifies this, registry
      ensures Valid() && C.Handles(registry.env, explain, old(Contents()), m, drawn, Contents(), res)
    {
      hide Filled, InvalidateProfile, RegisterRule, RegisterEvidence, Registry.Valid, C.WireRule, C.WireEvidence,
           C.HandlesProfile, C.HandlesQuery;
      ValidFiles();
      var why := C.Refusal(epoch, sources, m);
      if why.Some? {
        return Ok(C.Failure(why.value));
      }
      if m.kind == C.REGISTER_RULE {
        registry.AddRule(C.WireRule(m));
      } else if m.kind == C.REGISTER_EVIDENCE {
        registry.AddEvidence(C.WireEvidence(m, drawn));
      } else {
        var _ := registry.Invalidate(IdAt(m.payload, 4), TextAt(m.payload, 5));
      }
      res := Ok(C.DONE);
    }

    method Query(m: C.Request) returns (res: Result<C.Reply>)
      requires Valid() && RulesFiled(registry.rules) && (m.kind == C.QUERY_PAIR || m.kind == C.QUERY_REQUIREMENT)
      modifies registry`decisions
      ensures Valid() && C.HandlesQuery(registry.env, explain, old(Contents()), m, Contents(), res)
    {
      hide Filled, Evaluated, Registry.Valid;
      var left, right := IdAt(m.payload, 1), IdAt(m.payload, 2);
      var decision: Result<Decision>;
      if m.kind == C.QUERY_PAIR {
        decision := registry.EvaluatePair(left, right);
      } else {
        decision := registry.EvaluateRequirement(left, right);
      }
      res := if decision.Err? then Err else Ok(C.DecisionReply(explain, decision.value));
    }
  }
}
