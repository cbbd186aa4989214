/** A registry as a byte string, and what is read back from one. */
module Snapshots {
  import opened Prelude
  import opened Canonical
  import opened Rules
  import opened Graphs
  import opened States
  import opened Decisions
  import opened Documents

  // ---- Writing ----

  /** The orders in which the hash tables happen to be walked. */
  datatype Order = Order(profiles: seq<Uuid>, rules: seq<Uuid>, evidence: seq<Uuid>, decisions: seq<Digest>)

  ghost predicate Enumerates<K(!new)>(keys: seq<K>, all: set<K>) {
    && (forall i, j :: 0 <= i < j < |keys| ==> keys[i] != keys[j])
    && (forall k :: k in keys <==> k in all)
  }

  ghost predicate IsOrder(s: State, order: Order) {
    && Enumerates(order.profiles, s.profiles.Keys) && Enumerates(order.rules, s.rules.Keys)
    && Enumerates(order.evidence, s.evidence.Keys) && Enumerates(order.decisions, s.decisions.Keys)
  }

  /** All histories, one after the other. */
  function Records(profiles: map<Uuid, seq<Profile>>, ids: seq<Uuid>): seq<Profile>
    requires forall id :: id in ids ==> id in profiles
  {
    if ids == [] then [] else profiles[ids[0]] + Records(profiles, ids[1..])
  }

  function Listed<K, V>(m: map<K, V>, keys: seq<K>): (r: seq<V>)
    requires forall k :: k in keys ==> k in m
    ensures |r| == |keys|
  {
    seq(|keys|, i requires 0 <= i < |keys| => m[keys[i]])
  }

  function Mapped<A, B>(f: A -> B, s: seq<A>): (r: seq<B>)
    ensures |r| == |s|
  {
    seq(|s|, i requires 0 <= i < |s| => f(s[i]))
  }

  ghost function DocumentValues(s: State, order: Order): (vs: Short<Canon>)
    requires IsOrder(s, order)
    ensures |vs| == 7
  {
    [Uint(Wrap(s.gen)), Id(s.policy),
     Sequence(Mapped(ProfileTree, Records(s.profiles, order.profiles))),
     Sequence(Mapped(RuleTree, Listed(s.rules, order.rules))),
     Sequence(Mapped(EvidenceTree, Listed(s.evidence, order.evidence))),
     Sequence(Mapped(InvalidationTree, s.invalidations)),
     Sequence(Mapped(DecisionTree, Listed(s.decisions, order.decisions)))]
  }

  ghost function Document(s: State, order: Order): Canon
    requires IsOrder(s, order)
  {
    Filled(DocumentValues(s, order))
  }

  const CONTAINER: Text := [0x43, 0x52, 0x52, 0x45, 0x47, 1]  // "CRREG", version 1

  /** Magic, version, the encoded document, its checksum. */
  function Contained(env: Env, payload: Text): Text {
    CONTAINER + payload + env.sha(payload)
  }

  // ---- Reading ----

  /** Records join the histories of their ids in the order they come in. */
  function Joined(profiles: map<Uuid, seq<Profile>>, ps: seq<Profile>): map<Uuid, seq<Profile>>
    decreases |ps|
  {
    if ps == [] then profiles
    else
      var before := if ps[0].id in profiles then profiles[ps[0].id] else [];
      Joined(profiles[ps[0].id := before + [ps[0]]], ps[1..])
  }

  /** A later value of a key replaces an earlier one. */
  function Keyed<K, V>(key: V -> K, vs: seq<V>): map<K, V> {
    if vs == [] then map[] else Keyed(key, vs[..|vs| - 1])[key(vs[|vs| - 1]) := vs[|vs| - 1]]
  }

  predicate Intact(env: Env, p: Profile) {
    p.fingerprint == [] || FingerprintHex(env, p.payload) == p.fingerprint
  }

  predicate HasEdges(id: Uuid, h: seq<Profile>) {
    exists p :: p in h && Without(p.deps, id) != []
  }

  /** The edges of every id are those of its newest record; an id that never had any gets no entry. */
  function Rebuilt(profiles: map<Uuid, seq<Profile>>): Graph<Uuid>
    requires forall id :: id in profiles ==> profiles[id] != []
  {
    map id | id in profiles && HasEdges(id, profiles[id]) :: Without(Last(profiles[id]).deps, id)
  }

  function RuleKey(rr: RuleRecord): Uuid { rr.rule.ruleId }

  function EvidenceKey(e: Evidence): Uuid { e.id }

  function DecisionKey(d: Decision): Digest { d.digest }

  lemma {:induction false} JoinedHistories(profiles: map<Uuid, seq<Profile>>, ps: seq<Profile>)
    requires forall id :: id in profiles ==> profiles[id] != []
    ensures forall id :: id in Joined(profiles, ps) ==> Joined(profiles, ps)[id] != []
    decreases |ps|
  {
    if ps != [] {
      var before := if ps[0].id in profiles then profiles[ps[0].id] else [];
      JoinedHistories(profiles[ps[0].id := before + [ps[0]]], ps[1..]);
    }
  }

  /** What a document says, before the cycle check. */
  function Described(doc: Canon): State {
    var profiles := Joined(map[], Mapped(ProfileOf, ElemsAt(doc, 3)));
    JoinedHistories(map[], Mapped(ProfileOf, ElemsAt(doc, 3)));
    State(
      profiles,
      Keyed(RuleKey, Mapped(RuleOf, ElemsAt(doc, 4))),
      Keyed(EvidenceKey, Mapped(EvidenceOf, ElemsAt(doc, 5))),
      Keyed(DecisionKey, Mapped(DecisionOf, ElemsAt(doc, 7))),
      Mapped(InvalidationOfTree, ElemsAt(doc, 6)),
      Rebuilt(profiles),
      UintAt(doc, 1),
      IdAt(doc, 2),
      0,
      0)
  }

  ghost function RecoverDocument(env: Env, doc: Canon): Result<State> {
    if !doc.Record? then Err
    else if exists t :: t in ElemsAt(doc, 3) && !Intact(env, ProfileOf(t)) then Err
    else if Cyclic(Described(doc).deps) then Err
    else Ok(Described(doc))
  }

  /** recover. */
  ghost function Recovered(env: Env, bytes: Text): Result<State> {
    if |bytes| < 38 || bytes[..6] != CONTAINER then Err
    else
      var payload := bytes[6..|bytes| - 32];
      if env.sha(payload) != bytes[|bytes| - 32..] then Err
      else
        match Decode(payload)
        case Err => Err
        case Ok(doc) => RecoverDocument(env, doc)
  }
}
