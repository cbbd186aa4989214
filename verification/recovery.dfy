/** What recovering from a snapshot gives back. */
module Recovery {
  import opened Prelude
  import opened Canonical
  import opened Records
  import opened Rules
  import opened Graphs
  import opened States
  import opened Decisions
  import opened Documents
  import opened Snapshots
  import opened Runs

  // ---- Lists and tables come back ----

  lemma ValuesBack<T(!new)>(value: Canon -> T, tree: T -> Canon, vs: seq<T>, ws: seq<T>)
    requires |ws| == |vs| && forall i :: 0 <= i < |vs| ==> value(tree(vs[i])) == ws[i]
    ensures Mapped(value, Mapped(tree, vs)) == ws
  {
  }

  lemma {:induction false} KeyedBack<K(!new), V(!new)>(key: V -> K, m: map<K, V>, keys: seq<K>)
    requires forall k :: k in keys ==> k in m && key(m[k]) == k
    requires forall i, j :: 0 <= i < j < |keys| ==> keys[i] != keys[j]
    ensures Keyed(key, Listed(m, keys)) == map k | k in keys :: m[k]
  {
    if keys != [] {
      var front, last := keys[..|keys| - 1], keys[|keys| - 1];
      KeyedBack(key, m, front);
      assert Listed(m, keys)[..|keys| - 1] == Listed(m, front);
      assert forall k :: k in keys <==> k in front || k == last;
    }
  }

  lemma KeyedTable<K(!new), V(!new)>(key: V -> K, m: map<K, V>, keys: seq<K>)
    requires Enumerates(keys, m.Keys) && forall k :: k in m ==> key(m[k]) == k
    ensures Keyed(key, Listed(m, keys)) == m
  {
    KeyedBack(key, m, keys);
  }

  lemma {:induction false} JoinedHistory(profiles: map<Uuid, seq<Profile>>, id: Uuid, h: seq<Profile>,
                                         rest: seq<Profile>)
    requires h != [] && forall i :: 0 <= i < |h| ==> h[i].id == id
    ensures Joined(profiles, h + rest)
            == Joined(profiles[id := (if id in profiles then profiles[id] else []) + h], rest)
    decreases |h|
  {
    var before := if id in profiles then profiles[id] else [];
    var next := profiles[id := before + [h[0]]];
    assert (h + rest)[1..] == h[1..] + rest;
    assert h == [h[0]] + h[1..];
    if |h| == 1 {
      assert h[1..] + rest == rest && [h[0]] == h;
    } else {
      JoinedHistory(next, id, h[1..], rest);
      assert before + [h[0]] + h[1..] == before + h;
      assert next[id := before + [h[0]] + h[1..]] == profiles[id := before + h];
    }
  }

  ghost predicate OwnHistories(profiles: map<Uuid, seq<Profile>>) {
    forall id :: id in profiles ==> profiles[id] != [] && forall i :: 0 <= i < |profiles[id]| ==> profiles[id][i].id == id
  }

  function Restricted<K, V>(m: map<K, V>, keys: seq<K>): map<K, V> {
    map k | k in keys && k in m :: m[k]
  }

  lemma RestrictedFirst<K(!new), V(!new)>(start: map<K, V>, m: map<K, V>, keys: seq<K>)
    requires keys != [] && keys[0] in m
    ensures start[keys[0] := m[keys[0]]] + Restricted(m, keys[1..]) == start + Restricted(m, keys)
  {
    assert keys == [keys[0]] + keys[1..];
  }

  lemma DistinctTail(ids: seq<Uuid>)
    requires Distinct(ids) && ids != []
    ensures Distinct(ids[1..]) && ids[0] !in ids[1..] && forall x :: x in ids[1..] ==> x in ids
  {
  }

  lemma {:induction false} JoinedRecords(start: map<Uuid, seq<Profile>>, profiles: map<Uuid, seq<Profile>>,
                                         ids: seq<Uuid>)
    requires OwnHistories(profiles) && Distinct(ids)
    requires forall id :: id in ids ==> id in profiles && id !in start
    ensures Joined(start, Snapshots.Records(profiles, ids)) == start + Restricted(profiles, ids)
    decreases |ids|
  {
    hide Joined, Restricted, Distinct;
    if ids == [] {
      NothingJoined(start, profiles);
    } else {
      var id, rest := ids[0], ids[1..];
      IsMember(ids, 0);
      DistinctTail(ids);
      JoinedHistory(start, id, profiles[id], Snapshots.Records(profiles, rest));
      assert [] + profiles[id] == profiles[id];
      JoinedRecords(start[id := profiles[id]], profiles, rest);
      RestrictedFirst(start, profiles, ids);
    }
  }

  lemma NothingJoined(start: map<Uuid, seq<Profile>>, profiles: map<Uuid, seq<Profile>>)
    ensures Joined(start, []) == start == start + Restricted(profiles, [])
  {
  }

  lemma JoinedTable(profiles: map<Uuid, seq<Profile>>, ids: seq<Uuid>)
    requires OwnHistories(profiles) && Enumerates(ids, profiles.Keys)
    ensures Joined(map[], Snapshots.Records(profiles, ids)) == profiles
  {
    JoinedRecords(map[], profiles, ids);
  }

  // ---- What is stored of a state ----

  /** As a document holds it: of a payload only its fields as a record. */
  function Reduced(c: Canon): Canon { Record(FieldsOf(c)) }

  function ReducedProfile(p: Profile): Profile { p.(payload := Reduced(p.payload)) }

  function ReducedHistory(h: seq<Profile>): (r: seq<Profile>)
    ensures |r| == |h|
  {
    seq(|h|, i requires 0 <= i < |h| => ReducedProfile(h[i]))
  }

  function ReducedHistories(profiles: map<Uuid, seq<Profile>>): map<Uuid, seq<Profile>> {
    map id | id in profiles :: ReducedHistory(profiles[id])
  }

  function ReducedEvidence(evidence: map<Uuid, Evidence>): map<Uuid, Evidence> {
    map id | id in evidence :: evidence[id].(value := Reduced(evidence[id].value))
  }

  function FreshRules(rules: map<Uuid, RuleRecord>): map<Uuid, RuleRecord> {
    map id | id in rules :: rules[id].(superseded := false)
  }

  function Stored(s: State): State
    requires forall id :: id in s.profiles ==> s.profiles[id] != []
  {
    State(ReducedHistories(s.profiles), FreshRules(s.rules), ReducedEvidence(s.evidence), s.decisions, s.invalidations,
          Rebuilt(s.profiles), s.gen, s.policy, 0, 0)
  }

  /** No counter has outgrown its 64 bits. */
  ghost predicate Bounded(s: State) {
    && s.gen < TWO_64
    && (forall id, i :: id in s.profiles && 0 <= i < |s.profiles[id]| ==> s.profiles[id][i].generation < TWO_64)
    && (forall id :: id in s.rules ==> s.rules[id].rule.generation < TWO_64)
    && (forall id :: id in s.evidence ==> s.evidence[id].sourceGeneration < TWO_64)
    && (forall i :: 0 <= i < |s.invalidations| ==> s.invalidations[i].generation < TWO_64)
    && (forall k :: k in s.decisions ==>
          && s.decisions[k].ruleGeneration < TWO_64 && s.decisions[k].policyGeneration < TWO_64
          && s.decisions[k].registryGeneration < TWO_64)
  }

  // ---- The document of a state describes what is stored of it ----

  lemma {:induction false} RecordsReduced(profiles: map<Uuid, seq<Profile>>, ids: seq<Uuid>)
    requires forall id :: id in ids ==> id in profiles
    ensures var ps, rs := Snapshots.Records(profiles, ids), Snapshots.Records(ReducedHistories(profiles), ids);
            |rs| == |ps| && forall i :: 0 <= i < |ps| ==> rs[i] == ReducedProfile(ps[i])
  {
    if ids != [] {
      RecordsReduced(profiles, ids[1..]);
      IsMember(ids, 0);
    }
  }

  lemma {:induction false} RecordsMembers(profiles: map<Uuid, seq<Profile>>, ids: seq<Uuid>, p: Profile)
    requires forall id :: id in ids ==> id in profiles
    ensures p in Snapshots.Records(profiles, ids) <==> exists id :: id in ids && p in profiles[id]
  {
    if ids != [] {
      RecordsMembers(profiles, ids[1..], p);
      IsMember(ids, 0);
      assert forall id :: id in ids <==> id == ids[0] || id in ids[1..];
    }
  }

  lemma ProfilesBack(s: State, order: Order)
    requires IsOrder(s, order) && Bounded(s) && OwnHistories(s.profiles)
    ensures Mapped(ProfileOf, Mapped(ProfileTree, Snapshots.Records(s.profiles, order.profiles)))
            == Snapshots.Records(ReducedHistories(s.profiles), order.profiles)
    ensures Joined(map[], Snapshots.Records(ReducedHistories(s.profiles), order.profiles)) == ReducedHistories(s.profiles)
  {
    hide ProfileOf, ProfileTree;
    var ps, rs := Snapshots.Records(s.profiles, order.profiles), Snapshots.Records(ReducedHistories(s.profiles), order.profiles);
    RecordsReduced(s.profiles, order.profiles);
    forall i | 0 <= i < |ps| ensures ProfileOf(ProfileTree(ps[i])) == rs[i] {
      IsMember(ps, i);
      RecordsMembers(s.profiles, order.profiles, ps[i]);
      ProfileBack(ps[i]);
    }
    ValuesBack(ProfileOf, ProfileTree, ps, rs);
    JoinedTable(ReducedHistories(s.profiles), order.profiles);
  }

  lemma RulesBack(s: State, order: Order)
    requires IsOrder(s, order) && Bounded(s) && RulesFiled(s.rules)
    ensures Keyed(RuleKey, Mapped(RuleOf, Mapped(RuleTree, Listed(s.rules, order.rules)))) == FreshRules(s.rules)
  {
    hide RuleOf, RuleTree;
    var vs, ws := Listed(s.rules, order.rules), Listed(FreshRules(s.rules), order.rules);
    forall i | 0 <= i < |vs| ensures RuleOf(RuleTree(vs[i])) == ws[i] {
      IsMember(order.rules, i);
      RuleBack(vs[i]);
    }
    ValuesBack(RuleOf, RuleTree, vs, ws);
    KeyedTable(RuleKey, FreshRules(s.rules), order.rules);
  }

  lemma EvidenceTableBack(s: State, order: Order)
    requires IsOrder(s, order) && Bounded(s) && forall id :: id in s.evidence ==> s.evidence[id].id == id
    ensures Keyed(EvidenceKey, Mapped(EvidenceOf, Mapped(EvidenceTree, Listed(s.evidence, order.evidence)))) == ReducedEvidence(s.evidence)
  {
    hide EvidenceOf, EvidenceTree;
    var vs, ws := Listed(s.evidence, order.evidence), Listed(ReducedEvidence(s.evidence), order.evidence);
    forall i | 0 <= i < |vs| ensures EvidenceOf(EvidenceTree(vs[i])) == ws[i] {
      IsMember(order.evidence, i);
      EvidenceBack(vs[i]);
    }
    ValuesBack(EvidenceOf, EvidenceTree, vs, ws);
    KeyedTable(EvidenceKey, ReducedEvidence(s.evidence), order.evidence);
  }

  lemma DecisionsBack(s: State, order: Order)
    requires IsOrder(s, order) && Bounded(s) && forall k :: k in s.decisions ==> s.decisions[k].digest == k
    ensures Keyed(DecisionKey, Mapped(DecisionOf, Mapped(DecisionTree, Listed(s.decisions, order.decisions)))) == s.decisions
  {
    hide DecisionOf, DecisionTree;
    var vs := Listed(s.decisions, order.decisions);
    forall i | 0 <= i < |vs| ensures DecisionOf(DecisionTree(vs[i])) == vs[i] {
      IsMember(order.decisions, i);
      DecisionBack(vs[i]);
    }
    ValuesBack(DecisionOf, DecisionTree, vs, vs);
    KeyedTable(DecisionKey, s.decisions, order.decisions);
  }

  lemma InvalidationsBack(s: State)
    requires Bounded(s)
    ensures Mapped(InvalidationOfTree, Mapped(InvalidationTree, s.invalidations)) == s.invalidations
  {
    hide InvalidationOfTree, InvalidationTree;
    forall i | 0 <= i < |s.invalidations|
      ensures InvalidationOfTree(InvalidationTree(s.invalidations[i])) == s.invalidations[i]
    {
      InvalidationBack(s.invalidations[i]);
    }
    ValuesBack(InvalidationOfTree, InvalidationTree, s.invalidations, s.invalidations);
  }

  lemma SameEdges(id: Uuid, h: seq<Profile>)
    requires h != []
    ensures HasEdges(id, ReducedHistory(h)) <==> HasEdges(id, h)
    ensures Last(ReducedHistory(h)).deps == Last(h).deps
  {
    hide Reduced;
    var k := ReducedHistory(h);
    assert forall i :: 0 <= i < |h| ==> k[i].deps == h[i].deps;
    if HasEdges(id, h) {
      var i :| 0 <= i < |h| && Without(h[i].deps, id) != [];
      IsMember(k, i);
    }
    if HasEdges(id, k) {
      var i :| 0 <= i < |k| && Without(k[i].deps, id) != [];
      IsMember(h, i);
    }
  }

  lemma RebuiltReduced(profiles: map<Uuid, seq<Profile>>)
    requires forall id :: id in profiles ==> profiles[id] != []
    ensures Rebuilt(ReducedHistories(profiles)) == Rebuilt(profiles)
  {
    hide HasEdges, ReducedHistory, Last;
    forall id | id in profiles
      ensures HasEdges(id, ReducedHistory(profiles[id])) <==> HasEdges(id, profiles[id])
      ensures ReducedHistory(profiles[id]) != [] && Last(ReducedHistory(profiles[id])).deps == Last(profiles[id]).deps
    {
      SameEdges(id, profiles[id]);
    }
  }

  lemma RebuiltOut(profiles: map<Uuid, seq<Profile>>)
    requires forall id :: id in profiles ==> profiles[id] != []
    ensures forall id :: Out(Rebuilt(profiles), id) == if id in profiles then Without(Last(profiles[id]).deps, id) else []
  {
    forall id | id in profiles
      ensures Out(Rebuilt(profiles), id) == Without(Last(profiles[id]).deps, id)
    {
      IsMember(profiles[id], |profiles[id]| - 1);
    }
  }

  lemma KeptOwns(env: Env, s: State)
    requires Kept(env, s)
    ensures OwnHistories(s.profiles) && RulesFiled(s.rules) && Filed(env, s)
    ensures forall id, i :: id in s.profiles && 0 <= i < |s.profiles[id]| ==>
              s.profiles[id][i].fingerprint == FingerprintHex(env, s.profiles[id][i].payload)
  {
    hide FingerprintHex;
  }

  lemma DocumentIsRecord(s: State, order: Order)
    requires IsOrder(s, order)
    ensures Document(s, order).Record?
  {
    hide Slots, Mapped, Listed, Snapshots.Records, IsOrder;
  }

  lemma DocumentValue(s: State, order: Order, t: nat)
    requires IsOrder(s, order) && 1 <= t <= 7
    ensures Lookup(Document(s, order), t) == Some(DocumentValues(s, order)[t - 1])
  {
    hide DocumentValues, Filled, Lookup, IsOrder;
    LookupFilled(DocumentValues(s, order));
  }

  lemma DocumentHead(s: State, order: Order)
    requires IsOrder(s, order)
    ensures var doc := Document(s, order);
            && UintAt(doc, 1) == Wrap(s.gen) && IdAt(doc, 2) == s.policy
            && ElemsAt(doc, 3) == Mapped(ProfileTree, Snapshots.Records(s.profiles, order.profiles))
            && ElemsAt(doc, 6) == Mapped(InvalidationTree, s.invalidations)
  {
    hide Wrap, Lookup, Document, Mapped, Listed, Snapshots.Records, IsOrder;
    DocumentValue(s, order, 1);
    DocumentValue(s, order, 2);
    DocumentValue(s, order, 3);
    DocumentValue(s, order, 6);
  }

  lemma DocumentTables(s: State, order: Order)
    requires IsOrder(s, order)
    ensures var doc := Document(s, order);
            && ElemsAt(doc, 4) == Mapped(RuleTree, Listed(s.rules, order.rules))
            && ElemsAt(doc, 5) == Mapped(EvidenceTree, Listed(s.evidence, order.evidence))
            && ElemsAt(doc, 7) == Mapped(DecisionTree, Listed(s.decisions, order.decisions))
  {
    hide Wrap, Lookup, Document, Mapped, Listed, Snapshots.Records, IsOrder;
    DocumentValue(s, order, 4);
    DocumentValue(s, order, 5);
    DocumentValue(s, order, 7);
  }

  lemma DocumentDescribes(env: Env, s: State, order: Order)
    requires Kept(env, s) && Bounded(s) && IsOrder(s, order)
    ensures Described(Document(s, order)) == Stored(s)
  {
    hide Kept, IsOrder, Document, Joined, Keyed, Mapped, Listed, Rebuilt, Snapshots.Records, ElemsAt, UintAt, IdAt,
         OwnHistories, ReducedHistories, FreshRules, ReducedEvidence;
    KeptOwns(env, s);
    DocumentHead(s, order);
    DocumentTables(s, order);
    ProfilesBack(s, order);
    RulesBack(s, order);
    EvidenceTableBack(s, order);
    DecisionsBack(s, order);
    InvalidationsBack(s);
    OwnNonEmpty(s.profiles);
    RebuiltReduced(s.profiles);
  }

  lemma OwnNonEmpty(profiles: map<Uuid, seq<Profile>>)
    requires OwnHistories(profiles)
    ensures forall id :: id in profiles ==> profiles[id] != []
  {
  }

  /** What a payload is reduced to still has the fingerprint on record. */
  ghost predicate PayloadsSurvive(env: Env, s: State) {
    forall id, i :: id in s.profiles && 0 <= i < |s.profiles[id]| ==>
      FingerprintHex(env, Reduced(s.profiles[id][i].payload)) == s.profiles[id][i].fingerprint
  }

  lemma IntactSurvive(env: Env, s: State, order: Order)
    requires Kept(env, s) && Bounded(s) && IsOrder(s, order)
    ensures (forall t :: t in ElemsAt(Document(s, order), 3) ==> Intact(env, ProfileOf(t))) <==> PayloadsSurvive(env, s)
  {
    hide FingerprintHex, Kept, ProfileOf, ProfileTree, ElemsAt, Document;
    KeptOwns(env, s);
    DocumentHead(s, order);
    var ps := Snapshots.Records(s.profiles, order.profiles);
    var ts := Mapped(ProfileTree, ps);
    forall i | 0 <= i < |ps|
      ensures ts[i] in ts && ProfileOf(ts[i]) == ReducedProfile(ps[i]) && ps[i].fingerprint != []
    {
      IsMember(ts, i);
      IsMember(ps, i);
      RecordsMembers(s.profiles, order.profiles, ps[i]);
      ProfileBack(ps[i]);
    }
    if forall t :: t in ts ==> Intact(env, ProfileOf(t)) {
      forall id, i | id in s.profiles && 0 <= i < |s.profiles[id]|
        ensures FingerprintHex(env, Reduced(s.profiles[id][i].payload)) == s.profiles[id][i].fingerprint
      {
        var p := s.profiles[id][i];
        RecordsMembers(s.profiles, order.profiles, p);
        var k :| 0 <= k < |ps| && ps[k] == p;
        assert Intact(env, ProfileOf(ts[k]));
      }
    }
    if PayloadsSurvive(env, s) {
      forall t | t in ts ensures Intact(env, ProfileOf(t)) {
        var k :| 0 <= k < |ts| && ts[k] == t;
        RecordsMembers(s.profiles, order.profiles, ps[k]);
        IsMember(ps, k);
      }
    }
  }

  lemma ContainerOpens(env: Env, payload: Text)
    ensures var bytes := Contained(env, payload);
            && |bytes| >= 38 && bytes[..6] == CONTAINER
            && bytes[6..|bytes| - 32] == payload && bytes[|bytes| - 32..] == env.sha(payload)
  {
    ThreeParts(Contained(env, payload), CONTAINER, payload, env.sha(payload));
  }

  /** What is made of the container of a document that fits its lengths. */
  lemma RecoveredFromContainer(env: Env, doc: Canon)
    requires WellFormed(doc)
    ensures Recovered(env, Contained(env, CanonicalEncode(doc))) == RecoverDocument(env, doc)
  {
    hide WellFormed, CanonicalEncode, Contained, RecoverDocument;
    ContainerOpens(env, CanonicalEncode(doc));
    DecodeEncode(doc);
  }

  /**
    * Recovering from a snapshot, written in whatever order, gives what is stored of the state; it throws
    * exactly if some payload, reduced to its fields as a record, no longer has the fingerprint on record,
    * or if the dependencies on record close a cycle.
    */
  lemma RecoveredIsStored(env: Env, s: State, order: Order)
    requires Kept(env, s) && Bounded(s) && IsOrder(s, order) && WellFormed(Document(s, order))
    ensures forall id :: id in s.profiles ==> s.profiles[id] != []
    ensures var r := Recovered(env, Contained(env, CanonicalEncode(Document(s, order))));
            && (r.Ok? <==> PayloadsSurvive(env, s) && !Cyclic(Rebuilt(s.profiles)))
            && (r.Ok? ==> r.value == Stored(s))
  {
    hide Kept, Document, WellFormed, CanonicalEncode, Described, Stored, Contained, PayloadsSurvive, Intact, IsOrder,
         Bounded, Rebuilt, OwnHistories, Recovered;
    KeptOwns(env, s);
    OwnNonEmpty(s.profiles);
    var doc := Document(s, order);
    RecoveredFromContainer(env, doc);
    DocumentIsRecord(s, order);
    DocumentDescribes(env, s, order);
    StoredDeps(s);
    IntactSurvive(env, s, order);
  }

  lemma StoredDeps(s: State)
    requires forall id :: id in s.profiles ==> s.profiles[id] != []
    ensures Stored(s).deps == Rebuilt(s.profiles)
  {
  }

  // ---- Payloads that are no records ----

  lemma {:induction false} HexInjective(a: Text, b: Text)
    requires Hex(a) == Hex(b)
    ensures a == b
  {
    if a != [] && b != [] {
      var x, y := Hex(a), Hex(b);
      assert x[0] == y[0] && x[1] == y[1] && x[2..] == Hex(a[1..]) && y[2..] == Hex(b[1..]);
      HexInjective(a[1..], b[1..]);
      assert a == [a[0]] + a[1..] && b == [b[0]] + b[1..];
    }
  }

  /** Hashing tells this payload from what it is reduced to, if they differ. */
  ghost predicate ToldApart(env: Env, c: Canon) {
    Fingerprint(env, c) == Fingerprint(env, Reduced(c)) ==> CanonicalEncode(c) == CanonicalEncode(Reduced(c))
  }

  lemma SurvivesIfRecord(env: Env, c: Canon)
    requires ToldApart(env, c)
    ensures FingerprintHex(env, Reduced(c)) == FingerprintHex(env, c) <==> c.Record?
  {
    hide Body;
    if FingerprintHex(env, Reduced(c)) == FingerprintHex(env, c) {
      HexInjective(Fingerprint(env, Reduced(c)), Fingerprint(env, c));
      assert CanonicalEncode(c)[5] == Tag(c) && CanonicalEncode(Reduced(c))[5] == Tag(Reduced(c));
    }
  }

  ghost predicate AllToldApart(env: Env, s: State) {
    forall id, i :: id in s.profiles && 0 <= i < |s.profiles[id]| ==> ToldApart(env, s.profiles[id][i].payload)
  }

  ghost predicate RecordPayloads(s: State) {
    forall id, i :: id in s.profiles && 0 <= i < |s.profiles[id]| ==> s.profiles[id][i].payload.Record?
  }

  lemma SurviveIfRecords(env: Env, s: State)
    requires Kept(env, s) && AllToldApart(env, s)
    ensures PayloadsSurvive(env, s) <==> RecordPayloads(s)
  {
    hide FingerprintHex, Kept, ToldApart;
    KeptOwns(env, s);
    forall id, i | id in s.profiles && 0 <= i < |s.profiles[id]|
      ensures FingerprintHex(env, Reduced(s.profiles[id][i].payload)) == s.profiles[id][i].fingerprint
              <==> s.profiles[id][i].payload.Record?
    {
      SurvivesIfRecord(env, s.profiles[id][i].payload);
    }
  }

  /** As far as hashing tells payloads apart, recovery succeeds exactly if all of them are records and no cycle is on record. */
  lemma RecoveryNeedsRecords(env: Env, s: State, order: Order)
    requires Kept(env, s) && Bounded(s) && IsOrder(s, order) && WellFormed(Document(s, order)) && AllToldApart(env, s)
    ensures forall id :: id in s.profiles ==> s.profiles[id] != []
    ensures Recovered(env, Contained(env, CanonicalEncode(Document(s, order)))).Ok?
            <==> RecordPayloads(s) && !Cyclic(Rebuilt(s.profiles))
  {
    hide Kept, Bounded, IsOrder, WellFormed, Document, AllToldApart, PayloadsSurvive, RecordPayloads, Recovered, Contained,
         CanonicalEncode, Rebuilt;
    RecoveredIsStored(env, s, order);
    SurviveIfRecords(env, s);
  }

  /** One registration of a payload that is no record, however long ago, makes every later snapshot unrecoverable. */
  lemma OneOddPayloadSpoilsAll(env: Env, states: seq<State>, ops: seq<Op>, i: nat, id: Uuid, k: nat, j: nat, order: Order)
    requires Run(env, states, ops) && i <= j < |states|
    requires id in states[i].profiles && k < |states[i].profiles[id]| && !states[i].profiles[id][k].payload.Record?
    requires Bounded(states[j]) && IsOrder(states[j], order) && WellFormed(Document(states[j], order))
    requires AllToldApart(env, states[j])
    ensures Recovered(env, Contained(env, CanonicalEncode(Document(states[j], order)))).Err?
  {
    hide Run, Kept, Bounded, IsOrder, WellFormed, Document, AllToldApart, Recovered, Contained, CanonicalEncode, Rebuilt;
    RunKeeps(env, states, ops, j);
    RunGrows(env, states, ops, i, j);
    assert HistoryGrows(states[i].profiles[id], states[j].profiles[id]);
    assert Ages(states[i].profiles[id][k], states[j].profiles[id][k]);
    RecoveryNeedsRecords(env, states[j], order);
  }

  // ---- What recovering does not check ----

  lemma {:induction false} KeyedUnderKey<K(!new), V(!new)>(key: V -> K, vs: seq<V>)
    ensures forall k :: k in Keyed(key, vs) ==> key(Keyed(key, vs)[k]) == k
  {
    if vs != [] {
      KeyedUnderKey(key, vs[..|vs| - 1]);
    }
  }

  ghost predicate JoinedFrom(profiles: map<Uuid, seq<Profile>>, ps: seq<Profile>) {
    forall id :: id in profiles ==> profiles[id] != [] && forall p :: p in profiles[id] ==> p.id == id && p in ps
  }

  lemma {:induction false} JoinedMembers(start: map<Uuid, seq<Profile>>, ps: seq<Profile>, all: seq<Profile>)
    requires JoinedFrom(start, all) && forall p :: p in ps ==> p in all
    ensures JoinedFrom(Joined(start, ps), all)
    decreases |ps|
  {
    if ps != [] {
      IsMember(ps, 0);
      var before := if ps[0].id in start then start[ps[0].id] else [];
      var next := start[ps[0].id := before + [ps[0]]];
      assert forall p :: p in before + [ps[0]] <==> p in before || p == ps[0];
      assert forall p :: p in ps[1..] ==> p in ps;
      JoinedMembers(next, ps[1..], all);
    }
  }

  /** Generations 1, 2, 3 and so on, at most the last record active, and every fingerprint present. */
  ghost predicate InOrder(profiles: map<Uuid, seq<Profile>>) {
    forall id, i :: id in profiles && 0 <= i < |profiles[id]| ==>
      && profiles[id][i].generation == i + 1
      && (profiles[id][i].active ==> i == |profiles[id]| - 1)
      && profiles[id][i].fingerprint != []
  }

  ghost predicate AllSealed(env: Env, decisions: map<Digest, Decision>) {
    forall k :: k in decisions ==> Sealed(env, decisions[k]) == decisions[k]
  }

  lemma DescribedIsFiled(env: Env, doc: Canon)
    ensures Filed(env, Described(doc)) <==> AllSealed(env, Described(doc).decisions)
  {
    hide Sealed, Keyed, Joined, RuleOf, EvidenceOf, DecisionOf;
    KeyedUnderKey(RuleKey, Mapped(RuleOf, ElemsAt(doc, 4)));
    KeyedUnderKey(EvidenceKey, Mapped(EvidenceOf, ElemsAt(doc, 5)));
    KeyedUnderKey(DecisionKey, Mapped(DecisionOf, ElemsAt(doc, 7)));
  }

  lemma DescribedHistories(env: Env, doc: Canon)
    requires forall t :: t in ElemsAt(doc, 3) ==> Intact(env, ProfileOf(t))
    ensures var profiles := Described(doc).profiles;
            forall id :: id in profiles ==>
              profiles[id] != [] && forall p :: p in profiles[id] ==> p.id == id && Intact(env, p)
  {
    hide Intact, ProfileOf, Joined, Keyed;
    var ts := ElemsAt(doc, 3);
    var ps := Mapped(ProfileOf, ts);
    JoinedMembers(map[], ps, ps);
    forall p | p in ps ensures Intact(env, p) {
      var i :| 0 <= i < |ps| && ps[i] == p;
      IsMember(ts, i);
    }
  }

  /**
    * Recovering checks neither generations nor activity nor enumerations. What it gives back is a state
    * that calls can lead to, as far as the invariants tell, exactly if the histories it read are numbered
    * in order with at most the last record active, no fingerprint is missing, and every decision has its
    * own digest.
    */
  lemma RecoveredIsKept(env: Env, doc: Canon)
    requires RecoverDocument(env, doc).Ok?
    ensures var t := RecoverDocument(env, doc).value;
            Kept(env, t) <==> InOrder(t.profiles) && AllSealed(env, t.decisions)
  {
    hide FingerprintHex, Joined, Keyed, AllSealed, Filed, Cyclic, ElemsAt, ProfileOf, Rebuilt;
    var t := Described(doc);
    DescribedHistories(env, doc);
    DescribedIsFiled(env, doc);
    RebuiltOut(t.profiles);
    forall id, i | id in t.profiles && 0 <= i < |t.profiles[id]|
      ensures t.profiles[id][i].id == id && Intact(env, t.profiles[id][i])
    {
      IsMember(t.profiles[id], i);
    }
    assert KeptEdges(t);
    HistoriesInOrder(env, t);
  }

  lemma HistoriesInOrder(env: Env, t: State)
    requires forall id :: id in t.profiles ==> t.profiles[id] != []
    requires forall id, i :: id in t.profiles && 0 <= i < |t.profiles[id]| ==>
               t.profiles[id][i].id == id && Intact(env, t.profiles[id][i])
    ensures KeptHistories(env, t) <==> InOrder(t.profiles)
  {
    hide FingerprintHex;
    if InOrder(t.profiles) {
      forall id | id in t.profiles ensures KeptHistory(env, id, t.profiles[id]) {
      }
    }
    if KeptHistories(env, t) {
      forall id, i | id in t.profiles && 0 <= i < |t.profiles[id]|
        ensures t.profiles[id][i].generation == i + 1 && (t.profiles[id][i].active ==> i == |t.profiles[id]| - 1)
        ensures t.profiles[id][i].fingerprint != []
      {
        assert KeptHistory(env, id, t.profiles[id]);
        assert |t.profiles[id][i].fingerprint| == 64;
      }
    }
  }
}
