/** A run with one refused replacement after which no snapshot can be recovered from. */
module Unrecoverable {
  import opened Prelude
  import opened Canonical
  import opened Rules
  import opened Graphs
  import opened States
  import opened Decisions
  import opened Documents
  import opened Sizes
  import opened Snapshots
  import opened Runs
  import opened Recovery

  const OLD: Canon := Record([])
  const NEW: Canon := Record([Field(1, Null)])

  function Rec(env: Env, id: Uuid, generation: nat, payload: Canon, deps: seq<Uuid>, active: bool): Profile {
    Profile(0, id, generation, payload, deps, active, !active, [], FingerprintHex(env, payload))
  }

  // a depends on b and b on c. Replacing b so that it depends on a is refused, and takes the edges of b
  // with it. Then c may come to depend on b, while the newest record of b still depends on c.

  function Calls(env: Env, a: Uuid, b: Uuid, c: Uuid): seq<Op> {
    [Register(Rec(env, c, 1, OLD, [], true)),
     Register(Rec(env, b, 1, OLD, [c], true)),
     Register(Rec(env, a, 1, OLD, [b], true)),
     Supersede(0, b, NEW, [a], []),
     Supersede(0, c, NEW, [b], [])]
  }

  function After(env: Env, a: Uuid, b: Uuid, c: Uuid): seq<State> {
    var c1, b1, a1 := [Rec(env, c, 1, OLD, [], true)], [Rec(env, b, 1, OLD, [c], true)], [Rec(env, a, 1, OLD, [b], true)];
    var b2 := [Rec(env, b, 1, OLD, [c], false)];
    var c2 := [Rec(env, c, 1, OLD, [], false), Rec(env, c, 2, NEW, [b], true)];
    [INITIAL,
     INITIAL.(profiles := map[c := c1], gen := 1),
     INITIAL.(profiles := map[c := c1, b := b1], deps := map[b := [c]], gen := 2),
     INITIAL.(profiles := map[c := c1, b := b1, a := a1], deps := map[b := [c], a := [b]], gen := 3),
     INITIAL.(profiles := map[c := c1, b := b2, a := a1], deps := map[a := [b]], gen := 3),
     INITIAL.(profiles := map[c := c2, b := b2, a := a1], deps := map[a := [b], c := [b]], gen := 4)]
  }

  /** Edges of a node that nothing leads to close no cycle. */
  lemma SourceClosesNothing(deps: Graph<Uuid>, id: Uuid, ds: seq<Uuid>)
    requires !Cyclic(deps) && forall x :: id !in Out(deps, x)
    ensures !ClosesCycle(deps, id, ds)
  {
    var edges := Without(ds, id);
    OutAfter(deps, id, edges);
    if Cyclic(deps[id := edges]) {
      var p :| Cycle(deps[id := edges], p);
      forall i | 1 <= i < |p| ensures p[i] != id {
        assert p[i - 1 + 1] in Out(deps[id := edges], p[i - 1]);
      }
      assert Cycle(deps, p);
    }
  }

  lemma NewRegistration(env: Env, s: State, p: Profile)
    requires !Cyclic(s.deps) && p.id !in s.profiles && p.id !in s.deps && forall x :: p.id !in Out(s.deps, x)
    requires p.generation == 1 && p.fingerprint == FingerprintHex(env, p.payload) && p.id !in p.deps
    ensures RegisterProfile(env, s, p).0
            == s.(profiles := s.profiles[p.id := [p]], deps := if p.deps == [] then s.deps else s.deps[p.id := p.deps], gen := s.gen + 1)
    ensures !Cyclic(RegisterProfile(env, s, p).0.deps) && RegisterProfile(env, s, p).1.Ok?
  {
    hide FingerprintHex, Cyclic, Relink;
    SourceClosesNothing(s.deps, p.id, p.deps);
    NothingWithout(p.deps, p.id);
    assert p.(fingerprint := FingerprintHex(env, p.payload), generation := 1) == p && [] + [p] == [p];
    RelinkOut(s.deps, p.id, p.deps);
    NewLinks(s.deps, p.id, p.deps);
  }

  lemma NewLinks(deps: Graph<Uuid>, id: Uuid, ds: seq<Uuid>)
    requires id !in deps && Without(ds, id) == ds
    ensures Relink(deps, id, ds) == if ds == [] then deps else deps[id := ds]
  {
  }

  lemma NothingWithout(ds: seq<Uuid>, id: Uuid)
    requires id !in ds
    ensures Without(ds, id) == ds
  {
  }

  lemma FirstCalls(env: Env, a: Uuid, b: Uuid, c: Uuid)
    requires a != b && b != c && a != c
    ensures var ops, ss := Calls(env, a, b, c), After(env, a, b, c);
            && Step(env, ss[0], ops[0], ss[1]) && Step(env, ss[1], ops[1], ss[2]) && Step(env, ss[2], ops[2], ss[3])
            && !Refused(ss[0], ops[0], env) && !Refused(ss[1], ops[1], env) && !Refused(ss[2], ops[2], env)
            && !Cyclic(ss[3].deps)
  {
    hide FingerprintHex, Cyclic, RegisterProfile;
    var ops, ss := Calls(env, a, b, c), After(env, a, b, c);
    AllDoneIsAcyclic(ss[0].deps, []);
    NewRegistration(env, ss[0], ops[0].given);
    NewRegistration(env, ss[1], ops[1].given);
    NewRegistration(env, ss[2], ops[2].given);
  }

  lemma RetireOne(env: Env, id: Uuid, deps: seq<Uuid>)
    ensures RetireAll([Rec(env, id, 1, OLD, deps, true)]) == [Rec(env, id, 1, OLD, deps, false)]
  {
    hide FingerprintHex;
  }

  lemma FourthCall(env: Env, a: Uuid, b: Uuid, c: Uuid)
    requires a != b && b != c && a != c && FingerprintHex(env, OLD) != FingerprintHex(env, NEW)
    ensures var ops, ss := Calls(env, a, b, c), After(env, a, b, c);
            Step(env, ss[3], ops[3], ss[4]) && Refused(ss[3], ops[3], env)
  {
    hide FingerprintHex, Cyclic, Relink, Appended;
    var ss := After(env, a, b, c);
    NothingWithout([a], b);
    var g := ss[3].deps[b := [a]];
    assert Cycle(g, [a, b, a]) by {
      assert b in Out(g, a) && a in Out(g, b);
    }
    CycleIsCyclic(g, [a, b, a]);
    RetireOne(env, b, [c]);
    assert Retired(ss[3], b).profiles == ss[4].profiles;
    assert ss[3].deps - {b} == ss[4].deps;
  }

  lemma CycleIsCyclic(g: Graph<Uuid>, p: seq<Uuid>)
    requires Cycle(g, p)
    ensures Cyclic(g)
  {
  }

  lemma FifthCall(env: Env, a: Uuid, b: Uuid, c: Uuid)
    requires a != b && b != c && a != c && FingerprintHex(env, OLD) != FingerprintHex(env, NEW)
    requires !Cyclic(After(env, a, b, c)[4].deps)
    ensures var ops, ss := Calls(env, a, b, c), After(env, a, b, c);
            Step(env, ss[4], ops[4], ss[5]) && !Refused(ss[4], ops[4], env)
  {
    hide FingerprintHex, Cyclic, Relink, RetireAll;
    var ss := After(env, a, b, c);
    NothingWithout([b], c);
    SourceClosesNothing(ss[4].deps, c, [b]);
    RetireOne(env, c, []);
    var retired := Retired(ss[4], c);
    var p := Rec(env, c, 2, NEW, [b], true);
    assert ss[4].deps - {c} == ss[4].deps;
    NewLinks(ss[4].deps, c, [b]);
    assert retired.profiles[c] + [p] == ss[5].profiles[c];
    assert Appended(retired.(deps := ss[4].deps), p) == ss[5];
  }

  lemma TwoOnRecord(profiles: map<Uuid, seq<Profile>>, b: Uuid, c: Uuid)
    requires forall id :: id in profiles ==> profiles[id] != []
    requires b != c && b in profiles && c in profiles
    requires Last(profiles[b]).deps == [c] && Last(profiles[c]).deps == [b]
    ensures Cyclic(Rebuilt(profiles))
  {
    hide Cyclic, Rebuilt;
    RebuiltOut(profiles);
    NothingWithout([c], b);
    NothingWithout([b], c);
    assert c in Out(Rebuilt(profiles), b) && b in Out(Rebuilt(profiles), c);
    assert Cycle(Rebuilt(profiles), [b, c, b]);
    CycleIsCyclic(Rebuilt(profiles), [b, c, b]);
  }

  lemma RecordedCycle(env: Env, a: Uuid, b: Uuid, c: Uuid)
    requires a != b && b != c && a != c
    ensures Cyclic(Rebuilt(After(env, a, b, c)[5].profiles))
  {
    hide FingerprintHex, Cyclic, Rebuilt;
    TwoOnRecord(After(env, a, b, c)[5].profiles, b, c);
  }

  lemma IsRun(env: Env, a: Uuid, b: Uuid, c: Uuid)
    requires a != b && b != c && a != c && FingerprintHex(env, OLD) != FingerprintHex(env, NEW)
    ensures Run(env, After(env, a, b, c), Calls(env, a, b, c))
    ensures forall i :: 0 <= i < 5 && Refused(After(env, a, b, c)[i], Calls(env, a, b, c)[i], env) ==> i == 3
  {
    hide FingerprintHex, Cyclic, Step, Refused, Rec;
    FirstCalls(env, a, b, c);
    FourthCall(env, a, b, c);
    var ss, ops := After(env, a, b, c), Calls(env, a, b, c);
    if Cyclic(ss[4].deps) {
      SubgraphCycles(ss[4].deps, ss[3].deps);
    }
    FifthCall(env, a, b, c);
    forall i | 0 <= i < |ops| ensures Step(env, ss[i], ops[i], ss[i + 1]) && (Refused(ss[i], ops[i], env) ==> i == 3) {
      assert i == 0 || i == 1 || i == 2 || i == 3 || i == 4;
    }
  }

  lemma EndIsBounded(env: Env, a: Uuid, b: Uuid, c: Uuid)
    ensures Bounded(After(env, a, b, c)[5])
  {
    hide FingerprintHex;
  }

  // ---- The document of the end is small ----

  lemma PayloadsSmall()
    ensures Small(OLD, 69) && Small(NEW, 69)
  {
    hide Small;
    ScalarsSmall(0, ZERO_UUID, false, []);
    RecordSmall([], 0, 69);
    RecordSmall([Field(1, Null)], 5, 69);
  }

  lemma DepsSmall(deps: seq<Uuid>)
    requires |deps| <= 1
    ensures Small(Sequence(IdTrees(deps)), 69)
  {
    hide Small;
    forall e | e in IdTrees(deps) ensures Small(e, 21) {
      var i :| 0 <= i < |deps| && IdTrees(deps)[i] == e;
      ScalarsSmall(0, deps[i], false, []);
    }
    SequenceSmall(IdTrees(deps), 21, 69);
  }

  /** A profile record of the size of those above. */
  predicate Slight(p: Profile) {
    && p.generation < TWO_64 && p.payload.Record? && Small(p.payload, 69)
    && |p.deps| <= 1 && |p.provenance| <= 64 && |p.fingerprint| <= 64
  }

  lemma ProfileSmall(p: Profile)
    requires Slight(p)
    ensures Small(ProfileTree(p), 700)
  {
    hide Small, Filled, IdTrees;
    ScalarsSmall(p.kind, p.id, p.active, p.provenance);
    ScalarsSmall(p.generation, p.id, p.superseded, p.fingerprint);
    DepsSmall(p.deps);
    FilledSmall([Id(p.id), Uint(p.kind), Uint(Wrap(p.generation)), Record(FieldsOf(p.payload)), Sequence(IdTrees(p.deps)),
                 Bool(p.active), Bool(p.superseded), Str(p.provenance), Str(p.fingerprint)], 69, 700);
  }

  lemma {:induction false} RecordsCount(profiles: map<Uuid, seq<Profile>>, ids: seq<Uuid>)
    requires forall id :: id in ids ==> id in profiles && |profiles[id]| <= 2
    ensures |Snapshots.Records(profiles, ids)| <= 2 * |ids|
  {
    if ids != [] {
      IsMember(ids, 0);
      RecordsCount(profiles, ids[1..]);
    }
  }

  lemma ProfilesSmall(profiles: map<Uuid, seq<Profile>>, ids: seq<Uuid>)
    requires Enumerates(ids, profiles.Keys) && |profiles.Keys| <= 3
    requires forall id, p :: id in profiles && p in profiles[id] ==> |profiles[id]| <= 2 && Slight(p)
    requires forall id :: id in profiles ==> |profiles[id]| <= 2
    ensures Small(Sequence(Mapped(ProfileTree, Snapshots.Records(profiles, ids))), 4300)
  {
    hide Small, Slight, ProfileTree;
    EnumerationSize(ids, profiles.Keys);
    RecordsCount(profiles, ids);
    var ps := Snapshots.Records(profiles, ids);
    var ts := Mapped(ProfileTree, ps);
    forall t | t in ts ensures Small(t, 700) {
      var i :| 0 <= i < |ts| && ts[i] == t;
      IsMember(ps, i);
      RecordsMembers(profiles, ids, ps[i]);
      ProfileSmall(ps[i]);
    }
    SequenceSmall(ts, 700, 4300);
  }

  lemma NothingListed<K(!new), V(!new)>(tree: V -> Canon, table: map<K, V>, keys: seq<K>)
    requires table == map[] && Enumerates(keys, table.Keys)
    ensures Small(Sequence(Mapped(tree, Listed(table, keys))), 4300)
  {
    hide Small;
    NoMembers(keys);
    assert Mapped(tree, Listed(table, keys)) == [];
    SequenceSmall([], 0, 4300);
  }

  /** A state that holds no more than a few slight profiles. */
  ghost predicate SlightState(s: State) {
    && |s.profiles.Keys| <= 3 && s.rules == map[] && s.evidence == map[] && s.decisions == map[] && s.invalidations == []
    && s.gen < TWO_64
    && (forall id :: id in s.profiles ==> |s.profiles[id]| <= 2)
    && (forall id, p :: id in s.profiles && p in s.profiles[id] ==> Slight(p))
  }

  lemma SlightDocument(s: State, order: Order)
    requires SlightState(s) && IsOrder(s, order)
    ensures WellFormed(Document(s, order))
  {
    hide Small, Filled, Slight, ProfileTree, RuleTree, EvidenceTree, DecisionTree, InvalidationTree, Mapped;
    ProfilesSmall(s.profiles, order.profiles);
    NothingListed(RuleTree, s.rules, order.rules);
    NothingListed(EvidenceTree, s.evidence, order.evidence);
    NothingListed(DecisionTree, s.decisions, order.decisions);
    InvalidationsSmall();
    SmallLater(s.gen, s.policy);
    FilledSmall(DocumentValues(s, order), 4300, 31000);
    SmallIsWellFormed(Document(s, order), 31000);
  }

  lemma InvalidationsSmall()
    ensures Small(Sequence(Mapped(InvalidationTree, [])), 4300)
  {
    hide Small;
    SequenceSmall([], 0, 4300);
  }

  lemma SmallLater(gen: nat, id: Uuid)
    requires gen < TWO_64
    ensures Small(Uint(Wrap(gen)), 4300) && Small(Id(id), 4300)
  {
    ScalarsSmall(gen, id, false, []);
  }

  lemma SmallIsWellFormed(c: Canon, n: nat)
    requires Small(c, n)
    ensures WellFormed(c)
  {
  }

  lemma EndIsSlight(env: Env, a: Uuid, b: Uuid, c: Uuid)
    requires a != b && b != c && a != c
    ensures SlightState(After(env, a, b, c)[5])
  {
    hide Slight, Rec;
    RecSlight(env, a, 1, OLD, [b], true);
    RecSlight(env, b, 1, OLD, [c], false);
    RecSlight(env, c, 1, OLD, [], false);
    RecSlight(env, c, 2, NEW, [b], true);
    assert After(env, a, b, c)[5].profiles.Keys == {c, b, a};
    ThreeKeys(a, b, c);
  }

  lemma RecSlight(env: Env, id: Uuid, generation: nat, payload: Canon, deps: seq<Uuid>, active: bool)
    requires generation < TWO_64 && (payload == OLD || payload == NEW) && |deps| <= 1
    ensures Slight(Rec(env, id, generation, payload, deps, active))
  {
    hide Small, FingerprintHex;
    PayloadsSmall();
    assert |FingerprintHex(env, payload)| == 64;
  }

  lemma ThreeKeys(a: Uuid, b: Uuid, c: Uuid)
    ensures |{c, b, a}| <= 3
  {
  }

  /** The run is one a registry can go through, and from no snapshot of its end is anything recovered. */
  lemma NothingIsRecovered(env: Env, a: Uuid, b: Uuid, c: Uuid, order: Order)
    requires a != b && b != c && a != c && FingerprintHex(env, OLD) != FingerprintHex(env, NEW)
    requires IsOrder(After(env, a, b, c)[5], order)
    ensures Run(env, After(env, a, b, c), Calls(env, a, b, c))
    ensures forall i :: 0 <= i < 5 && Refused(After(env, a, b, c)[i], Calls(env, a, b, c)[i], env) ==> i == 3
    ensures Recovered(env, Contained(env, CanonicalEncode(Document(After(env, a, b, c)[5], order)))).Err?
  {
    hide FingerprintHex, Cyclic, Step, Run, Refused, WellFormed, Document, Contained, CanonicalEncode, Recovered,
         Kept, Rebuilt, Bounded, IsOrder, PayloadsSurvive;
    IsRun(env, a, b, c);
    RunKeeps(env, After(env, a, b, c), Calls(env, a, b, c), 5);
    EndIsBounded(env, a, b, c);
    EndIsSlight(env, a, b, c);
    SlightDocument(After(env, a, b, c)[5], order);
    RecoveredIsStored(env, After(env, a, b, c)[5], order);
    RecordedCycle(env, a, b, c);
  }
}
