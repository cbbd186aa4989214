/** What a registry holds, and what each of its mutations makes of it. */
module States {
  import opened Prelude
  import opened Canonical
  import opened Rules
  import opened Graphs

  datatype Profile = Profile(
    kind: ProfileKind,
    id: Uuid,
    generation: nat,
    payload: Canon,
    deps: seq<Uuid>,
    active: bool,
    superseded: bool,
    provenance: Text,
    fingerprint: Text)

  datatype RuleRecord = RuleRecord(rule: Rule, active: bool, superseded: bool)

  datatype Invalidation = Invalidation(target: Uuid, generation: nat, reason: Text, fingerprintBefore: Text)

  datatype Evidence = Evidence(
    id: Uuid,
    subject: Uuid,
    field: Text,
    value: Canon,
    provenance: Text,
    source: Text,
    sourceGeneration: nat,
    observed: Text,
    kind: byte,
    validated: bool,
    digestHex: Text)

  datatype Decision = Decision(
    decisionId: Uuid,
    left: Uuid,
    right: Uuid,
    outcome: byte,
    ruleId: Uuid,
    ruleGeneration: nat,
    policyId: Uuid,
    policyGeneration: nat,
    satisfied: seq<Item>,
    failed: seq<Item>,
    adaptations: seq<Text>,
    missingEvidence: seq<Text>,
    provenance: seq<Text>,
    registryGeneration: nat,
    counterfactual: bool,
    digest: Digest)

  /** The reverse edges are left to the class that keeps them. */
  datatype State = State(
    profiles: map<Uuid, seq<Profile>>,
    rules: map<Uuid, RuleRecord>,
    evidence: map<Uuid, Evidence>,
    decisions: map<Digest, Decision>,
    invalidations: seq<Invalidation>,
    deps: Graph<Uuid>,
    gen: nat,
    policy: Uuid,
    ruleGen: nat,
    evidenceGen: nat)

  const INITIAL: State := State(map[], map[], map[], map[], [], map[], 0, ZERO_UUID, 0, 0)

  // ---- Fingerprints ----

  function HexDigit(n: nat): byte
    requires n < 16
  {
    if n < 10 then 48 + n else 87 + n
  }

  function Hex(d: Text): (t: Text)
    ensures |t| == 2 * |d|
  {
    if d == [] then [] else [HexDigit(d[0] as int / 16), HexDigit(d[0] as int % 16)] + Hex(d[1..])
  }

  function FingerprintHex(env: Env, c: Canon): (t: Text)
    ensures |t| == 64
  {
    Hex(Fingerprint(env, c))
  }

  // ---- Histories ----

  function Last<T>(s: seq<T>): T
    requires s != []
  {
    s[|s| - 1]
  }

  function Retire(p: Profile): Profile {
    if p.active then p.(active := false, superseded := true) else p
  }

  function Kill(p: Profile): Profile {
    p.(active := false, superseded := true)
  }

  function RetireAll(h: seq<Profile>): (r: seq<Profile>)
    ensures |r| == |h|
  {
    seq(|h|, i requires 0 <= i < |h| => Retire(h[i]))
  }

  function KillAll(h: seq<Profile>): (r: seq<Profile>)
    ensures |r| == |h|
  {
    seq(|h|, i requires 0 <= i < |h| => Kill(h[i]))
  }

  /** The record, searched for from the newest, that is still active. */
  function NewestActive(h: seq<Profile>): (p: Option<Profile>)
    ensures p.Some? ==> p.value in h && p.value.active
    ensures p.None? ==> forall q :: q in h ==> !q.active
  {
    if h == [] then None
    else if Last(h).active then Some(Last(h))
    else NewestActive(h[..|h| - 1])
  }

  function ActiveProfile(s: State, id: Uuid): Option<Profile> {
    if id in s.profiles then NewestActive(s.profiles[id]) else None
  }

  // ---- Edges ----

  /** A dependency of a profile on itself is ignored. */
  function Without(ds: seq<Uuid>, id: Uuid): (r: seq<Uuid>)
    ensures id !in r && forall d :: d in r <==> d in ds && d != id
  {
    if ds == [] then []
    else if ds[0] == id then Without(ds[1..], id)
    else [ds[0]] + Without(ds[1..], id)
  }

  /** add_dependency: the old edges of id go, the new ones come; a node without edges is not entered. */
  function Relink(deps: Graph<Uuid>, id: Uuid, ds: seq<Uuid>): Graph<Uuid> {
    var edges := Without(ds, id);
    if id in deps || edges != [] then deps[id := edges] else deps
  }

  ghost predicate ClosesCycle(deps: Graph<Uuid>, id: Uuid, ds: seq<Uuid>) {
    Cyclic(deps[id := Without(ds, id)])
  }

  // ---- Profiles ----

  function NextGeneration(s: State, id: Uuid): nat {
    if id in s.profiles && s.profiles[id] != [] then Last(s.profiles[id]).generation + 1 else 1
  }

  function Retired(s: State, id: Uuid): State {
    if id in s.profiles then s.(profiles := s.profiles[id := RetireAll(s.profiles[id])]) else s
  }

  function Appended(s: State, p: Profile): State {
    var before := if p.id in s.profiles then s.profiles[p.id] else [];
    s.(profiles := s.profiles[p.id := before + [p]],
       deps := Relink(s.deps, p.id, p.deps),
       gen := s.gen + 1)
  }

  predicate IsCurrent(s: State, id: Uuid, fingerprint: Text, deps: seq<Uuid>) {
    && id in s.profiles && s.profiles[id] != []
    && var latest := Last(s.profiles[id]);
       latest.active && latest.fingerprint == fingerprint && latest.deps == deps
  }

  /** The old record is retired before the cycle check, so a refused registration still retires it. */
  ghost function RegisterProfile(env: Env, s: State, given: Profile): (State, Result<Uuid>) {
    var p := given.(fingerprint := FingerprintHex(env, given.payload), generation := NextGeneration(s, given.id));
    if IsCurrent(s, p.id, p.fingerprint, p.deps) && Last(s.profiles[p.id]).kind == p.kind then (s, Ok(p.id))
    else if ClosesCycle(s.deps, p.id, p.deps) then (Retired(s, p.id), Err)
    else (Appended(Retired(s, p.id), p), Ok(p.id))
  }

  /** A refused replacement still retires the old record and drops its edges. */
  ghost function SupersedeProfile(env: Env, s: State, kind: ProfileKind, id: Uuid, payload: Canon,
                                  deps: seq<Uuid>, provenance: Text): (State, Result<Uuid>)
  {
    var p := Profile(kind, id, NextGeneration(s, id), payload, deps, true, false, provenance, FingerprintHex(env, payload));
    if id !in s.profiles then (s, Err)
    else if IsCurrent(s, id, p.fingerprint, deps) then (s, Ok(id))
    else
      var dropped := Retired(s, id).(deps := s.deps - {id});
      if ClosesCycle(s.deps, id, deps) then (dropped, Err) else (Appended(dropped, p), Ok(id))
  }

  function InvalidationOf(s: State, id: Uuid, reason: Text): Invalidation
    requires id in s.profiles && s.profiles[id] != []
  {
    var latest := Last(s.profiles[id]);
    Invalidation(id, latest.generation, reason, latest.fingerprint)
  }

  function InvalidateProfile(s: State, id: Uuid, reason: Text): (State, bool) {
    if id !in s.profiles || s.profiles[id] == [] then (s, false)
    else
      (s.(invalidations := s.invalidations + [InvalidationOf(s, id, reason)],
          profiles := s.profiles[id := KillAll(s.profiles[id])],
          gen := s.gen + 1),
       true)
  }

  const PROPAGATED: Text := Ascii("propagated invalidation from dependency")

  /** x is root, or depends on it through others. */
  ghost predicate Affected(s: State, root: Uuid, x: Uuid) {
    Reaches(s.deps, x, root)
  }

  ghost predicate Histories(profiles: map<Uuid, seq<Profile>>) {
    forall id :: id in profiles ==> profiles[id] != []
  }

  predicate Distinct(s: seq<Uuid>) {
    forall i, j :: 0 <= i < j < |s| ==> s[i] != s[j]
  }

  /** The targets are dead, each with one invalidation in order, and no other profile has changed. */
  ghost predicate Marked(s: State, profiles: map<Uuid, seq<Profile>>, invalidations: seq<Invalidation>,
                         targets: seq<Uuid>) {
    && Histories(s.profiles) && profiles.Keys == s.profiles.Keys
    && Distinct(targets)
    && (forall x :: x in s.profiles ==> profiles[x] == if x in targets then KillAll(s.profiles[x]) else s.profiles[x])
    && (forall x :: x in targets ==> x in s.profiles)
    && |invalidations| == |s.invalidations| + |targets|
    && invalidations[..|s.invalidations|] == s.invalidations
    && forall i :: 0 <= i < |targets| ==>
         targets[i] in s.profiles &&
         invalidations[|s.invalidations| + i] == InvalidationOf(s, targets[i], PROPAGATED)
  }

  /** Everything registered that depends on root, root included, is invalidated once; in which order is left open. */
  ghost predicate PropagatesInvalidation(s: State, root: Uuid, t: State, targets: seq<Uuid>) {
    && Marked(s, t.profiles, t.invalidations, targets)
    && (forall x :: x in targets <==> x in s.profiles && Affected(s, root, x))
    && t == s.(profiles := t.profiles, invalidations := t.invalidations, gen := s.gen + 1)
  }

  // ---- Rules, evidence, policy ----

  function RegisterRule(s: State, given: Rule): State {
    var id := given.ruleId;
    var fresh_ := given.generation == 0 && !(id in s.rules && s.rules[id].active);
    var generation := if given.generation != 0 then given.generation
                      else if fresh_ then s.ruleGen + 1
                      else s.rules[id].rule.generation + 1;
    s.(rules := s.rules[id := RuleRecord(given.(generation := generation), true, false)],
       ruleGen := if fresh_ then s.ruleGen + 1 else s.ruleGen,
       gen := s.gen + 1)
  }

  function SupersedeRule(s: State, id: Uuid, given: Rule): (State, bool) {
    if id !in s.rules then (s, false)
    else
      var rule := given.(ruleId := id, generation := s.rules[id].rule.generation + 1);
      (s.(rules := s.rules[id := RuleRecord(rule, true, false)], gen := s.gen + 1), true)
  }

  function DisableRule(s: State, id: Uuid): (State, bool) {
    if id !in s.rules then (s, false)
    else (s.(rules := s.rules[id := s.rules[id].(active := false, superseded := true)], gen := s.gen + 1), true)
  }

  function RegisterEvidence(s: State, e: Evidence): State {
    s.(evidence := s.evidence[e.id := e], evidenceGen := s.evidenceGen + 1, gen := s.gen + 1)
  }

  function SetPolicy(s: State, policy: Uuid): State {
    s.(policy := policy, gen := s.gen + 1)
  }
}
