/** Writing a registry object out, and building one from what was written. */
module Persistence {
  import opened Prelude
  import opened Canonical
  import Codec
  import opened Rules
  import opened Graphs
  import opened States
  import opened Decisions
  import opened Documents
  import opened Snapshots
  import opened Recovery
  import opened Registries

  // ---- Writing ----

  /** One tree for each entry of a hash table, in whatever order it is walked. */
  method WriteTable<K(==, !new), V>(table: map<K, V>, tree: V -> Canon) returns (trees: seq<Canon>, ghost keys: seq<K>)
    ensures Enumerates(keys, table.Keys) && trees == Mapped(tree, Listed(table, keys))
  {
    trees, keys := [], [];
    var rest := table.Keys;
    while rest != {}
      invariant rest <= table.Keys
      invariant Enumerates(keys, table.Keys - rest) && trees == Mapped(tree, Listed(table, keys))
      decreases rest
    {
      var k :| k in rest;
      rest := rest - {k};
      trees := trees + [tree(table[k])];
      keys := keys + [k];
    }
  }

  lemma {:induction false} RecordsSnoc(profiles: map<Uuid, seq<Profile>>, ids: seq<Uuid>, id: Uuid)
    requires id in profiles && forall x :: x in ids ==> x in profiles
    ensures Snapshots.Records(profiles, ids + [id]) == Snapshots.Records(profiles, ids) + profiles[id]
  {
    if ids == [] {
      assert [id][1..] == [];
    } else {
      RecordsSnoc(profiles, ids[1..], id);
      assert (ids + [id])[1..] == ids[1..] + [id];
    }
  }

  method WriteProfiles(profiles: map<Uuid, seq<Profile>>) returns (trees: seq<Canon>, ghost ids: seq<Uuid>)
    ensures Enumerates(ids, profiles.Keys) && trees == Mapped(ProfileTree, Snapshots.Records(profiles, ids))
  {
    hide ProfileTree;
    trees, ids := [], [];
    var rest := profiles.Keys;
    while rest != {}
      invariant rest <= profiles.Keys
      invariant Enumerates(ids, profiles.Keys - rest) && trees == Mapped(ProfileTree, Snapshots.Records(profiles, ids))
      decreases rest
    {
      var id :| id in rest;
      rest := rest - {id};
      var h := profiles[id];
      var i := 0;
      ghost var before := trees;
      while i < |h|
        invariant 0 <= i <= |h| && trees == before + Mapped(ProfileTree, h[..i])
      {
        trees := trees + [ProfileTree(h[i])];
        i := i + 1;
      }
      assert h[..i] == h;
      RecordsSnoc(profiles, ids, id);
      ids := ids + [id];
    }
  }

  /** snapshot. */
  method TakeSnapshot(reg: Registry) returns (bytes: Text, ghost order: Order)
    ensures IsOrder(reg.Contents(), order)
    ensures bytes == Contained(reg.env, CanonicalEncode(Document(reg.Contents(), order)))
  {
    hide Enumerates, ProfileTree, RuleTree, EvidenceTree, InvalidationTree, DecisionTree, Filled, CanonicalEncode,
         Contained;
    ghost var ps: seq<Uuid>, rs: seq<Uuid>, es: seq<Uuid>, ds: seq<Digest>;
    var profiles: seq<Canon>, rules: seq<Canon>, evidence: seq<Canon>, decisions: seq<Canon>;
    profiles, ps := WriteProfiles(reg.profiles);
    rules, rs := WriteTable(reg.rules, RuleTree);
    evidence, es := WriteTable(reg.evidence, EvidenceTree);
    decisions, ds := WriteTable(reg.decisions, DecisionTree);
    order := Order(ps, rs, es, ds);
    var doc := Filled([Uint(Wrap(reg.gen)), Id(reg.policy), Sequence(profiles), Sequence(rules), Sequence(evidence),
                       Sequence(Mapped(InvalidationTree, reg.invalidations)), Sequence(decisions)]);
    bytes := Contained(reg.env, CanonicalEncode(doc));
  }

  // ---- Reading ----

  method ReadTable<K(==), V>(key: V -> K, value: Canon -> V, trees: seq<Canon>) returns (table: map<K, V>)
    ensures table == Keyed(key, Mapped(value, trees))
  {
    table := map[];
    var i := 0;
    while i < |trees|
      invariant 0 <= i <= |trees| && table == Keyed(key, Mapped(value, trees[..i]))
    {
      var v := value(trees[i]);
      table := table[key(v) := v];
      assert Mapped(value, trees[..i + 1])[..i] == Mapped(value, trees[..i]);
      i := i + 1;
    }
    assert trees[..i] == trees;
  }

  lemma {:induction false} JoinedSnoc(start: map<Uuid, seq<Profile>>, ps: seq<Profile>, p: Profile)
    ensures Joined(start, ps + [p])
            == var m := Joined(start, ps); m[p.id := (if p.id in m then m[p.id] else []) + [p]]
    decreases |ps|
  {
    if ps == [] {
      assert [p][1..] == [];
    } else {
      var before := if ps[0].id in start then start[ps[0].id] else [];
      JoinedSnoc(start[ps[0].id := before + [ps[0]]], ps[1..], p);
      assert (ps + [p])[1..] == ps[1..] + [p];
    }
  }

  /** The histories, unless a record does not have the fingerprint it claims. */
  method ReadProfiles(env: Env, trees: seq<Canon>) returns (profiles: Result<map<Uuid, seq<Profile>>>)
    ensures profiles.Err? <==> exists t :: t in trees && !Intact(env, ProfileOf(t))
    ensures profiles.Ok? ==> profiles.value == Joined(map[], Mapped(ProfileOf, trees))
  {
    hide ProfileOf, Intact;
    var table: map<Uuid, seq<Profile>> := map[];
    var i := 0;
    while i < |trees|
      invariant 0 <= i <= |trees|
      invariant forall j :: 0 <= j < i ==> Intact(env, ProfileOf(trees[j]))
      invariant table == Joined(map[], Mapped(ProfileOf, trees[..i]))
    {
      var p := ProfileOf(trees[i]);
      if !Intact(env, p) {
        return Err;
      }
      JoinedSnoc(map[], Mapped(ProfileOf, trees[..i]), p);
      assert Mapped(ProfileOf, trees[..i + 1]) == Mapped(ProfileOf, trees[..i]) + [p];
      table := table[p.id := (if p.id in table then table[p.id] else []) + [p]];
      i := i + 1;
    }
    assert trees[..i] == trees;
    profiles := Ok(table);
  }

  // ---- Rebuilding the edges ----

  /** The edges after the records of one more history have been entered. */
  function Entered(deps: Graph<Uuid>, id: Uuid, h: seq<Profile>): Graph<Uuid> {
    if HasEdges(id, h) then deps[id := Without(Last(h).deps, id)] else deps
  }

  lemma EnteredSnoc(deps: Graph<Uuid>, id: Uuid, h: seq<Profile>, p: Profile)
    requires id !in deps
    ensures Entered(deps, id, h + [p]) == Relink(Entered(deps, id, h), id, p.deps)
  {
    hide Without;
    var k := h + [p];
    assert forall q :: q in k <==> q in h || q == p;
    assert HasEdges(id, k) <==> HasEdges(id, h) || Without(p.deps, id) != [];
  }

  ghost function RebuiltOf(profiles: map<Uuid, seq<Profile>>, ids: set<Uuid>): Graph<Uuid>
    requires forall id :: id in profiles ==> profiles[id] != []
  {
    map id | id in ids && id in profiles && HasEdges(id, profiles[id]) :: Without(Last(profiles[id]).deps, id)
  }

  lemma RebuiltOneMore(profiles: map<Uuid, seq<Profile>>, ids: set<Uuid>, id: Uuid)
    requires forall x :: x in profiles ==> profiles[x] != []
    requires id in profiles && id !in ids
    ensures RebuiltOf(profiles, ids + {id}) == Entered(RebuiltOf(profiles, ids), id, profiles[id])
  {
    hide Without, HasEdges;
  }

  lemma RebuiltAll(profiles: map<Uuid, seq<Profile>>)
    requires forall x :: x in profiles ==> profiles[x] != []
    ensures RebuiltOf(profiles, {}) == map[] && RebuiltOf(profiles, profiles.Keys) == Rebuilt(profiles)
  {
    hide Without, HasEdges;
  }

  /** Enters the dependencies of every record, each replacing those of the one before it. */
  method EnterEdges(reg: Registry)
    requires reg.Linked() && reg.deps == map[] && forall id :: id in reg.profiles ==> reg.profiles[id] != []
    modifies reg`deps, reg`reverse
    ensures reg.Linked() && reg.deps == Rebuilt(reg.profiles)
  {
    hide Transposed, NoSelfEdges, NoEmptyLists, HasEdges, Without, Relink, Entered, RebuiltOf, Rebuilt;
    RebuiltAll(reg.profiles);
    var rest := reg.profiles.Keys;
    ghost var done := {};
    while rest != {}
      invariant rest <= reg.profiles.Keys && done == reg.profiles.Keys - rest
      invariant reg.Linked() && reg.deps == RebuiltOf(reg.profiles, done)
      decreases rest
    {
      var id :| id in rest;
      rest := rest - {id};
      RebuiltOneMore(reg.profiles, done, id);
      NotEntered(reg.profiles, done, id);
      EnterHistory(reg, id, reg.profiles[id]);
      done := done + {id};
    }
    assert done == reg.profiles.Keys;
  }

  lemma NotEntered(profiles: map<Uuid, seq<Profile>>, ids: set<Uuid>, id: Uuid)
    requires forall x :: x in profiles ==> profiles[x] != []
    requires id !in ids
    ensures id !in RebuiltOf(profiles, ids)
  {
  }

  method EnterHistory(reg: Registry, id: Uuid, h: seq<Profile>)
    requires reg.Linked() && id !in reg.deps
    modifies reg`deps, reg`reverse
    ensures reg.Linked() && reg.deps == Entered(old(reg.deps), id, h)
  {
    hide Transposed, NoSelfEdges, NoEmptyLists, Without, Relink, Entered;
    NothingEntered(reg.deps, id);
    var i := 0;
    while i < |h|
      invariant 0 <= i <= |h|
      invariant reg.Linked() && reg.deps == Entered(old(reg.deps), id, h[..i])
    {
      EnteredSnoc(old(reg.deps), id, h[..i], h[i]);
      assert h[..i + 1] == h[..i] + [h[i]];
      reg.AddDependency(id, h[i].deps);
      i := i + 1;
    }
    assert h[..i] == h;
  }

  lemma NothingEntered(deps: Graph<Uuid>, id: Uuid)
    ensures Entered(deps, id, []) == deps
  {
  }

  method ReadTables(reg: Registry, doc: Canon)
    modifies reg`rules, reg`evidence, reg`invalidations, reg`decisions
    ensures RulesFiled(reg.rules)
    ensures reg.rules == Keyed(RuleKey, Mapped(RuleOf, ElemsAt(doc, 4)))
    ensures reg.evidence == Keyed(EvidenceKey, Mapped(EvidenceOf, ElemsAt(doc, 5)))
    ensures reg.invalidations == Mapped(InvalidationOfTree, ElemsAt(doc, 6))
    ensures reg.decisions == Keyed(DecisionKey, Mapped(DecisionOf, ElemsAt(doc, 7)))
  {
    hide Keyed, Mapped, ElemsAt;
    reg.rules := ReadTable(RuleKey, RuleOf, ElemsAt(doc, 4));
    KeyedUnderKey(RuleKey, Mapped(RuleOf, ElemsAt(doc, 4)));
    reg.evidence := ReadTable(EvidenceKey, EvidenceOf, ElemsAt(doc, 5));
    reg.invalidations := Mapped(InvalidationOfTree, ElemsAt(doc, 6));
    reg.decisions := ReadTable(DecisionKey, DecisionOf, ElemsAt(doc, 7));
  }

  /** Everything of the document is in its place; what is left is the cycle check. */
  method Load(env: Env, doc: Canon, profiles: map<Uuid, seq<Profile>>) returns (reg: Registry)
    requires profiles == Joined(map[], Mapped(ProfileOf, ElemsAt(doc, 3)))
    ensures fresh(reg) && reg.env == env && reg.Contents() == Described(doc)
    ensures reg.Linked() && Histories(reg.profiles) && RulesFiled(reg.rules)
  {
    hide Transposed, NoSelfEdges, NoEmptyLists, Cyclic, Rebuilt, Keyed, Mapped, Joined, ElemsAt, UintAt, IdAt,
         ProfileOf, RulesFiled;
    reg := new Registry(env);
    reg.gen, reg.policy, reg.profiles := UintAt(doc, 1), IdAt(doc, 2), profiles;
    JoinedHistories(map[], Mapped(ProfileOf, ElemsAt(doc, 3)));
    EnterEdges(reg);
    ReadTables(reg, doc);
  }

  method RecoverRegistry(env: Env, doc: Canon) returns (r: Result<Registry>)
    ensures var spec := RecoverDocument(env, doc);
            && (r.Ok? <==> spec.Ok?)
            && (r.Ok? ==> fresh(r.value) && r.value.Valid() && r.value.env == env && r.value.Contents() == spec.value)
  {
    hide Transposed, NoSelfEdges, NoEmptyLists, Cyclic, Described, Mapped, Joined, ElemsAt, Intact, ProfileOf,
         RulesFiled;
    if !doc.Record? {
      return Err;
    }
    var profiles := ReadProfiles(env, ElemsAt(doc, 3));
    if profiles.Err? {
      return Err;
    }
    var reg := Load(env, doc, profiles.value);
    var cycle := reg.HasCycle();
    if cycle {
      return Err;
    }
    r := Ok(reg);
  }

  /** The container and its checksum are right, but decoding the document copies from beyond it. */
  ghost predicate DocumentReadsPast(env: Env, bytes: Text) {
    && |bytes| >= 38 && bytes[..6] == CONTAINER
    && env.sha(bytes[6..|bytes| - 32]) == bytes[|bytes| - 32..] && Codec.ReadsPast(bytes[6..|bytes| - 32])
  }

  /** The payload of a container, if its head and its checksum are right. */
  method OpenContainer(env: Env, bytes: Text) returns (payload: Result<Text>)
    ensures payload.Ok? <==> |bytes| >= 38 && bytes[..6] == CONTAINER && env.sha(bytes[6..|bytes| - 32]) == bytes[|bytes| - 32..]
    ensures payload.Ok? ==> payload.value == bytes[6..|bytes| - 32]
  {
    if |bytes| < 38 || bytes[..5] != CONTAINER[..5] || bytes[5] != CONTAINER[5] {
      assert |bytes| >= 38 ==> bytes[..6] != CONTAINER;
      return Err;
    }
    assert bytes[..6] == CONTAINER;
    var size := |bytes| - 38;
    if env.sha(bytes[6..6 + size]) != bytes[6 + size..] {
      return Err;
    }
    payload := Ok(bytes[6..6 + size]);
  }

  /** recover. */
  method Recover(env: Env, bytes: Text) returns (r: Result<Registry>, past: bool)
    ensures var spec := Recovered(env, bytes);
            && (r.Ok? <==> spec.Ok?)
            && (r.Ok? ==> fresh(r.value) && r.value.Valid() && r.value.env == env && r.value.Contents() == spec.value)
    ensures past <==> DocumentReadsPast(env, bytes)
    ensures past ==> r.Err?
  {
    hide RecoverDocument, Registry.Valid, Registry.Contents, Codec.ReadsPast;
    var payload := OpenContainer(env, bytes);
    if payload.Err? {
      return Err, false;
    }
    var doc: Result<Canon>;
    doc, past := Codec.CanonicalDecode(payload.value);
    if doc.Err? {
      return Err, past;
    }
    r := RecoverRegistry(env, doc.value);
  }
}
