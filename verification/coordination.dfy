/** What the coordinator makes of a request, and what holds over all its requests. */
module Coordination {
  import opened Prelude
  import opened Canonical
  import opened Rules
  import opened Graphs
  import opened States
  import opened Decisions
  import opened Documents
  import opened Snapshots
  import opened Runs

  const REGISTER_SOURCE: byte := 1
  const REGISTER_PROFILE: byte := 2
  const REGISTER_RULE: byte := 3
  const REGISTER_EVIDENCE: byte := 4
  const QUERY_PAIR: byte := 5
  const QUERY_REQUIREMENT: byte := 6
  const DECISION: byte := 7
  const INVALIDATE: byte := 8
  const SNAPSHOT: byte := 9
  const ACK: byte := 10
  const SHUTDOWN: byte := 12

  datatype Request = Request(kind: byte, payload: Canon)

  // Whether the request succeeded, and the response with its type.
  datatype Reply = Reply(ok: bool, kind: byte, payload: Canon)

  datatype Source = Source(bootId: Uuid, generation: nat, scope: Text)

  datatype Coordinator = Coordinator(epoch: nat, sources: map<Text, Source>, registry: State)

  const EPOCH: nat := 100
  const ANY_DOMAIN: Text := Ascii("*")

  function SourceName(m: Request): Text { TextAt(m.payload, 1) }

  function BootId(m: Request): Uuid { IdAt(m.payload, 2) }

  function SourceGeneration(m: Request): u64 { UintAt(m.payload, 3) }

  function Domain(m: Request): Text { TextAt(m.payload, 4) }

  function Failure(why: string): Reply {
    Reply(false, ACK, Filled([Str(Ascii(why))]))
  }

  const DONE: Reply := Reply(true, ACK, Filled([]))

  // ---- Who may ---

  /** Why a rule, evidence or an invalidation is not taken from this source, if it is not. */
  function Refusal(epoch: nat, sources: map<Text, Source>, m: Request): Option<string> {
    if UintAt(m.payload, EPOCH) != epoch then Some("stale coordinator epoch")
    else if SourceName(m) !in sources || sources[SourceName(m)].bootId != BootId(m) then Some("stale SourceBootId")
    else None
  }

  function ProfileRefusal(epoch: nat, sources: map<Text, Source>, m: Request): Option<string> {
    if !ValueAt(m.payload, 5).Record? || !ValueAt(m.payload, 6).Uint? then Some("bad profile")
    else if UintAt(m.payload, EPOCH) != epoch then Some("stale coordinator epoch")
    else if SourceName(m) !in sources then Some("unknown source")
    else
      var source := sources[SourceName(m)];
      if source.bootId != BootId(m) then Some("stale SourceBootId")
      else if SourceGeneration(m) < source.generation then Some("stale source generation")
      else if source.scope != ANY_DOMAIN && source.scope != Domain(m) then Some("source not authorized for domain")
      else None
  }

  // ---- What is asked for ----

  function WireConstraint(t: Canon): Constraint {
    Constraint(ByteAt(t, 1, OP_EQ), TextAt(t, 2), TextAt(t, 3), ValueAt(t, 4), Null, [], [])
  }

  function WireConstraints(ts: seq<Canon>): (cs: seq<Constraint>)
    ensures |cs| == |ts|
  {
    seq(|ts|, i requires 0 <= i < |ts| => WireConstraint(ts[i]))
  }

  function WireProfile(m: Request, drawn: Uuid): Profile {
    Profile(ByteAt(m.payload, 6, 0), drawn, 0, ValueAt(m.payload, 5), [], true, false, [], [])
  }

  function WireRule(m: Request): Rule {
    var p := m.payload;
    Rule(IdAt(p, 4), 0, TextAt(p, 7), TextAt(p, 6), IntAt(p, 8), 0, OptionalByteAt(p, 12), OptionalByteAt(p, 13),
         WireConstraints(ElemsAt(p, 10)), [], WireConstraints(ElemsAt(p, 11)), [], [], ByteAt(p, 9, COMPATIBLE), [])
  }

  function WireEvidence(m: Request, drawn: Uuid): Evidence {
    Evidence(drawn, ZERO_UUID, TextAt(m.payload, 4), ValueAt(m.payload, 5), [], [], 0, [], REPORTED, false, [])
  }

  function DecisionReply(explain: Decision -> Text, d: Decision): Reply {
    Reply(true, DECISION, Filled([Uint(d.outcome), Id(d.decisionId), Id(d.ruleId), Str(explain(d))]))
  }

  ghost function SnapshotReply(env: Env, s: State, order: Order): Reply
    requires IsOrder(s, order)
  {
    Reply(true, ACK, Filled([Bytes(Contained(env, CanonicalEncode(Document(s, order))))]))
  }

  // ---- One request ----

  ghost predicate HandlesProfile(env: Env, c: Coordinator, m: Request, drawn: Uuid, d: Coordinator, res: Result<Reply>) {
    var why := ProfileRefusal(c.epoch, c.sources, m);
    if why.Some? then d == c && res == Ok(Failure(why.value))
    else
      var (registry, id) := RegisterProfile(env, c.registry, WireProfile(m, drawn));
      if id.Err? then d == c.(registry := registry) && res == Err
      else
        var source := c.sources[SourceName(m)].(generation := SourceGeneration(m));
        && d == c.(sources := c.sources[SourceName(m) := source], registry := registry)
        && res == Ok(Reply(true, ACK, Filled([Id(id.value)])))
  }

  ghost predicate HandlesQuery(env: Env, explain: Decision -> Text, c: Coordinator, m: Request, d: Coordinator,
                               res: Result<Reply>)
    requires RulesFiled(c.registry.rules)
  {
    var (registry, decision) := Evaluated(env, c.registry, IdAt(m.payload, 1), IdAt(m.payload, 2), m.kind == QUERY_REQUIREMENT);
    && d == c.(registry := registry)
    && res == if decision.Err? then Err else Ok(DecisionReply(explain, decision.value))
  }

  /** A change that only needs the source to be current. */
  ghost predicate HandlesChange(c: Coordinator, m: Request, changed: State, d: Coordinator, res: Result<Reply>) {
    var why := Refusal(c.epoch, c.sources, m);
    if why.Some? then d == c && res == Ok(Failure(why.value))
    else d == c.(registry := changed) && res == Ok(DONE)
  }

  /** handle_request; Err where it throws. An id it draws is given as drawn. */
  ghost predicate Handles(env: Env, explain: Decision -> Text, c: Coordinator, m: Request, drawn: Uuid,
                          d: Coordinator, res: Result<Reply>)
  {
    && RulesFiled(c.registry.rules)
    && if m.kind == REGISTER_SOURCE then
         if SourceName(m) == [] then d == c && res == Ok(Failure("missing source name"))
         else
           && d == c.(sources := c.sources[SourceName(m) := Source(drawn, 1, TextAt(m.payload, 2))])
           && res == Ok(Reply(true, ACK, Filled([Id(drawn), Uint(Wrap(c.epoch)), Uint(1)])))
       else if m.kind == REGISTER_PROFILE then HandlesProfile(env, c, m, drawn, d, res)
       else if m.kind == REGISTER_RULE then HandlesChange(c, m, RegisterRule(c.registry, WireRule(m)), d, res)
       else if m.kind == REGISTER_EVIDENCE then HandlesChange(c, m, RegisterEvidence(c.registry, WireEvidence(m, drawn)), d, res)
       else if m.kind == QUERY_PAIR || m.kind == QUERY_REQUIREMENT then HandlesQuery(env, explain, c, m, d, res)
       else if m.kind == INVALIDATE then
         HandlesChange(c, m, InvalidateProfile(c.registry, IdAt(m.payload, 4), TextAt(m.payload, 5)).0, d, res)
       else if m.kind == SNAPSHOT then
         d == c && (exists order :: IsOrder(c.registry, order) && res == Ok(SnapshotReply(env, c.registry, order)))
       else if m.kind == SHUTDOWN then d == c && res == Ok(DONE)
       else d == c && res == Ok(Failure("unknown message type"))
  }

  predicate Accepted(res: Result<Reply>) { res.Ok? && res.value.ok }

  /** A request that asks for a change on a source's authority. */
  predicate Changes(m: Request) {
    m.kind == REGISTER_PROFILE || m.kind == REGISTER_RULE || m.kind == REGISTER_EVIDENCE || m.kind == INVALIDATE
  }

  // ---- What one request can do ----

  lemma NewProfileClosesNothing(env: Env, s: State, given: Profile)
    requires Kept(env, s) && given.deps == []
    ensures RegisterProfile(env, s, given).1.Ok?
  {
    hide FingerprintHex, KeptHistories, KeptEdges, Filed, IsCurrent;
    if ClosesCycle(s.deps, given.id, given.deps) {
      SubgraphCycles(s.deps[given.id := Without(given.deps, given.id)], s.deps);
    }
  }

  /** Unless it is accepted, a request changes neither sources nor registry. */
  lemma RejectedChangesNothing(env: Env, explain: Decision -> Text, c: Coordinator, m: Request, drawn: Uuid,
                               d: Coordinator, res: Result<Reply>)
    requires Handles(env, explain, c, m, drawn, d, res) && Kept(env, c.registry) && !Accepted(res)
    ensures d == c
  {
    hide Filled, RegisterProfile, Kept, Decide, RegisterRule, RegisterEvidence, InvalidateProfile, WireProfile;
    if m.kind == REGISTER_PROFILE {
      WireProfileAlone(m, drawn);
      NewProfileClosesNothing(env, c.registry, WireProfile(m, drawn));
    }
  }

  lemma WireProfileAlone(m: Request, drawn: Uuid)
    ensures WireProfile(m, drawn).deps == [] && WireProfile(m, drawn).id == drawn
  {
  }

  /** An accepted change carried the epoch and its source's boot id, and a profile was in scope and not outdated. */
  lemma AcceptedIsCurrent(env: Env, explain: Decision -> Text, c: Coordinator, m: Request, drawn: Uuid,
                          d: Coordinator, res: Result<Reply>)
    requires Handles(env, explain, c, m, drawn, d, res) && Changes(m) && Accepted(res)
    ensures UintAt(m.payload, EPOCH) == c.epoch && SourceName(m) in c.sources
    ensures var source := c.sources[SourceName(m)];
            && source.bootId == BootId(m)
            && (m.kind == REGISTER_PROFILE ==>
                  && source.generation <= SourceGeneration(m)
                  && (source.scope == ANY_DOMAIN || source.scope == Domain(m))
                  && d.sources == c.sources[SourceName(m) := source.(generation := SourceGeneration(m))])
            && (m.kind != REGISTER_PROFILE ==> d.sources == c.sources)
  {
    hide Filled, RegisterProfile, RegisterRule, RegisterEvidence, InvalidateProfile, WireProfile, WireRule,
         WireEvidence;
  }

  /**
    * Exactly which changes are accepted. The source generation counts for profiles alone; of rules,
    * evidence and invalidations the field that carries it is not read.
    */
  lemma AcceptedExactly(env: Env, explain: Decision -> Text, c: Coordinator, m: Request, drawn: Uuid,
                        d: Coordinator, res: Result<Reply>)
    requires Handles(env, explain, c, m, drawn, d, res) && Kept(env, c.registry) && Changes(m)
    ensures Accepted(res) <==>
              && UintAt(m.payload, EPOCH) == c.epoch
              && SourceName(m) in c.sources && c.sources[SourceName(m)].bootId == BootId(m)
              && (m.kind == REGISTER_PROFILE ==>
                    && ValueAt(m.payload, 5).Record? && ValueAt(m.payload, 6).Uint?
                    && c.sources[SourceName(m)].generation <= SourceGeneration(m)
                    && (c.sources[SourceName(m)].scope == ANY_DOMAIN || c.sources[SourceName(m)].scope == Domain(m)))
  {
    hide Filled, RegisterProfile, RegisterRule, RegisterEvidence, InvalidateProfile, WireProfile, WireRule, WireEvidence, Kept;
    if m.kind == REGISTER_PROFILE {
      WireProfileAlone(m, drawn);
      NewProfileClosesNothing(env, c.registry, WireProfile(m, drawn));
    }
  }

  /** Two such requests that differ in the source generation are both accepted or both not. */
  lemma GenerationIgnored(env: Env, explain: Decision -> Text, c: Coordinator,
                          m: Request, drawn: Uuid, d: Coordinator, res: Result<Reply>,
                          m': Request, drawn': Uuid, d': Coordinator, res': Result<Reply>)
    requires Handles(env, explain, c, m, drawn, d, res) && Handles(env, explain, c, m', drawn', d', res')
    requires Kept(env, c.registry) && Changes(m) && Changes(m') && m.kind != REGISTER_PROFILE && m'.kind != REGISTER_PROFILE
    requires UintAt(m.payload, EPOCH) == UintAt(m'.payload, EPOCH)
    requires SourceName(m) == SourceName(m') && BootId(m) == BootId(m')
    ensures Accepted(res) <==> Accepted(res')
  {
    hide Handles, Kept, Accepted, SourceName, BootId;
    AcceptedExactly(env, explain, c, m, drawn, d, res);
    AcceptedExactly(env, explain, c, m', drawn', d', res');
  }

  /** Every request is at most one call on the registry. */
  lemma RequestIsStep(env: Env, explain: Decision -> Text, c: Coordinator, m: Request, drawn: Uuid,
                      d: Coordinator, res: Result<Reply>)
    requires Handles(env, explain, c, m, drawn, d, res)
    ensures d.epoch == c.epoch
    ensures d.registry == c.registry || exists op :: Step(env, c.registry, op, d.registry)
  {
    hide Filled, RegisterProfile, RegisterRule, RegisterEvidence, InvalidateProfile, WireProfile, WireRule,
         WireEvidence, Evaluated;
    var op := if m.kind == REGISTER_PROFILE then Register(WireProfile(m, drawn))
              else if m.kind == REGISTER_RULE then AddRule(WireRule(m))
              else if m.kind == REGISTER_EVIDENCE then AddEvidence(WireEvidence(m, drawn))
              else if m.kind == INVALIDATE then Invalidate(IdAt(m.payload, 4), TextAt(m.payload, 5))
              else Evaluate(IdAt(m.payload, 1), IdAt(m.payload, 2), m.kind == QUERY_REQUIREMENT);
    assert d.registry == c.registry || Step(env, c.registry, op, d.registry);
  }

  // ---- Sessions ----

  datatype Entry = Entry(m: Request, drawn: Uuid, res: Result<Reply>)

  /** Any requests, from the start of a coordinator on, which may be seeded with a registry. */
  ghost predicate Session(env: Env, explain: Decision -> Text, cs: seq<Coordinator>, log: seq<Entry>) {
    && |cs| == |log| + 1
    && cs[0].epoch == 1 && cs[0].sources == map[] && Kept(env, cs[0].registry)
    && forall i :: 0 <= i < |log| ==> Handles(env, explain, cs[i], log[i].m, log[i].drawn, cs[i + 1], log[i].res)
  }

  lemma SessionEntry(env: Env, explain: Decision -> Text, cs: seq<Coordinator>, log: seq<Entry>, i: nat)
    requires Session(env, explain, cs, log) && i + 1 < |cs|
    ensures |cs| == |log| + 1 && Handles(env, explain, cs[i], log[i].m, log[i].drawn, cs[i + 1], log[i].res)
  {
    hide Handles;
  }

  lemma {:induction false} SessionKeeps(env: Env, explain: Decision -> Text, cs: seq<Coordinator>, log: seq<Entry>,
                                        i: nat)
    requires Session(env, explain, cs, log) && i < |cs|
    ensures Kept(env, cs[i].registry) && cs[i].epoch == 1
    decreases i
  {
    hide Handles, Kept, Step;
    if i > 0 {
      SessionKeeps(env, explain, cs, log, i - 1);
      SessionEntry(env, explain, cs, log, i - 1);
      RequestIsStep(env, explain, cs[i - 1], log[i - 1].m, log[i - 1].drawn, cs[i], log[i - 1].res);
      if cs[i].registry != cs[i - 1].registry {
        var op :| Step(env, cs[i - 1].registry, op, cs[i].registry);
        StepKeeps(env, cs[i - 1].registry, op, cs[i].registry);
      }
    }
  }

  predicate Registers(e: Entry, name: Text) {
    e.m.kind == REGISTER_SOURCE && SourceName(e.m) == name && Accepted(e.res)
  }

  predicate Publishes(e: Entry, name: Text) {
    e.m.kind == REGISTER_PROFILE && SourceName(e.m) == name && Accepted(e.res)
  }

  /** When, before the i-th request, a source was last registered under this name. */
  function LatestBoot(log: seq<Entry>, i: nat, name: Text): (k: Option<nat>)
    requires i <= |log|
    ensures k.Some? ==> k.value < i && Registers(log[k.value], name)
    ensures k.Some? ==> forall j :: k.value < j < i ==> !Registers(log[j], name)
    ensures k.None? ==> forall j :: 0 <= j < i ==> !Registers(log[j], name)
  {
    if i == 0 then None
    else if Registers(log[i - 1], name) then Some(i - 1)
    else LatestBoot(log, i - 1, name)
  }

  /** The source generation of the last profile taken since then. */
  function LatestGeneration(log: seq<Entry>, i: nat, name: Text): nat
    requires i <= |log|
  {
    if i == 0 || Registers(log[i - 1], name) then 1
    else if Publishes(log[i - 1], name) then SourceGeneration(log[i - 1].m)
    else LatestGeneration(log, i - 1, name)
  }

  ghost predicate Remembered(log: seq<Entry>, i: nat, sources: map<Text, Source>, name: Text)
    requires i <= |log|
  {
    var boot := LatestBoot(log, i, name);
    && (name in sources <==> boot.Some?)
    && (boot.Some? ==>
          var e := log[boot.value];
          sources[name] == Source(e.drawn, LatestGeneration(log, i, name), TextAt(e.m.payload, 2)))
  }

  /** What one request does to the sources. */
  ghost predicate Updates(e: Entry, before: map<Text, Source>, after: map<Text, Source>) {
    var name := SourceName(e.m);
    if Registers(e, name) then after == before[name := Source(e.drawn, 1, TextAt(e.m.payload, 2))]
    else if Publishes(e, name) then
      name in before && after == before[name := before[name].(generation := SourceGeneration(e.m))]
    else after == before
  }

  lemma RequestUpdates(env: Env, explain: Decision -> Text, c: Coordinator, e: Entry, d: Coordinator)
    requires Handles(env, explain, c, e.m, e.drawn, d, e.res) && Kept(env, c.registry)
    ensures Updates(e, c.sources, d.sources)
  {
    if !Accepted(e.res) {
      RejectedChangesNothing(env, explain, c, e.m, e.drawn, d, e.res);
    } else if Changes(e.m) {
      AcceptedIsCurrent(env, explain, c, e.m, e.drawn, d, e.res);
    } else {
      hide Filled, Evaluated, Kept;
    }
  }

  lemma UpdateRemembers(log: seq<Entry>, i: nat, before: map<Text, Source>, after: map<Text, Source>, name: Text)
    requires i < |log| && Remembered(log, i, before, name) && Updates(log[i], before, after)
    ensures Remembered(log, i + 1, after, name)
  {
    hide Accepted, TextAt, UintAt;
  }

  /** The table of sources holds, of every name, the latest boot, its scope, and its latest profile's generation. */
  lemma {:induction false} SourcesRemember(env: Env, explain: Decision -> Text, cs: seq<Coordinator>, log: seq<Entry>,
                                           i: nat, name: Text)
    requires Session(env, explain, cs, log) && i < |cs|
    ensures i <= |log| && Remembered(log, i, cs[i].sources, name)
    decreases i
  {
    hide Handles, Kept, Updates;
    if i > 0 {
      hide Remembered;
      SourcesRemember(env, explain, cs, log, i - 1, name);
      SessionKeeps(env, explain, cs, log, i - 1);
      SessionEntry(env, explain, cs, log, i - 1);
      RequestUpdates(env, explain, cs[i - 1], log[i - 1], cs[i]);
      UpdateRemembers(log, i - 1, cs[i - 1].sources, cs[i].sources, name);
    }
  }

  /** An accepted change came with the boot id of its source's latest registration, and a profile lies in the scope given then. */
  lemma AcceptedIsFromLatestBoot(env: Env, explain: Decision -> Text, cs: seq<Coordinator>, log: seq<Entry>, i: nat)
    returns (k: nat)
    requires Session(env, explain, cs, log) && i < |log| && Changes(log[i].m) && Accepted(log[i].res)
    ensures k < i && LatestBoot(log, i, SourceName(log[i].m)) == Some(k)
    ensures BootId(log[i].m) == log[k].drawn && UintAt(log[i].m.payload, EPOCH) == 1
    ensures log[i].m.kind == REGISTER_PROFILE ==>
              (TextAt(log[k].m.payload, 2) == ANY_DOMAIN || TextAt(log[k].m.payload, 2) == Domain(log[i].m))
    ensures log[i].m.kind == REGISTER_PROFILE ==> SourceGeneration(log[i].m) >= LatestGeneration(log, i, SourceName(log[i].m))
  {
    hide Handles, Kept, Accepted, TextAt, UintAt;
    SessionEntry(env, explain, cs, log, i);
    SessionKeeps(env, explain, cs, log, i);
    AcceptedIsCurrent(env, explain, cs[i], log[i].m, log[i].drawn, cs[i + 1], log[i].res);
    SourcesRemember(env, explain, cs, log, i, SourceName(log[i].m));
    k := LatestBoot(log, i, SourceName(log[i].m)).value;
  }

  /** Boot ids are drawn anew each time. */
  ghost predicate FreshBoots(log: seq<Entry>) {
    forall i, j :: 0 <= i < j < |log| && log[i].m.kind == log[j].m.kind == REGISTER_SOURCE ==> log[i].drawn != log[j].drawn
  }

  /** Once a source has registered again, what still carries its former boot id is rejected. */
  lemma FormerBootIsRejected(env: Env, explain: Decision -> Text, cs: seq<Coordinator>, log: seq<Entry>, k: nat,
                             again: nat, i: nat)
    requires Session(env, explain, cs, log) && FreshBoots(log) && k < again < i < |log|
    requires Registers(log[k], SourceName(log[i].m)) && Registers(log[again], SourceName(log[i].m))
    requires Changes(log[i].m) && BootId(log[i].m) == log[k].drawn
    ensures !Accepted(log[i].res) && cs[i + 1] == cs[i]
  {
    hide Handles, Kept, Accepted, TextAt, UintAt, FreshBoots;
    if Accepted(log[i].res) {
      var latest := AcceptedIsFromLatestBoot(env, explain, cs, log, i);
      DrawnApart(log, k, latest);
    }
    SessionEntry(env, explain, cs, log, i);
    SessionKeeps(env, explain, cs, log, i);
    RejectedChangesNothing(env, explain, cs[i], log[i].m, log[i].drawn, cs[i + 1], log[i].res);
  }

  /** As long as a source is not registered again, what it last published bounds what it may publish. */
  lemma {:induction false} GenerationStays(env: Env, explain: Decision -> Text, cs: seq<Coordinator>, log: seq<Entry>,
                                           i: nat, j: nat)
    requires Session(env, explain, cs, log) && i < j <= |log|
    requires var name := SourceName(log[i].m); Publishes(log[i], name) && forall k :: i < k < j ==> !Registers(log[k], name)
    ensures LatestGeneration(log, j, SourceName(log[i].m)) >= SourceGeneration(log[i].m)
    decreases j
  {
    hide Session, Accepted, SourceGeneration;
    var name := SourceName(log[i].m);
    if j > i + 1 {
      GenerationStays(env, explain, cs, log, i, j - 1);
      if Publishes(log[j - 1], name) {
        var _ := AcceptedIsFromLatestBoot(env, explain, cs, log, j - 1);
      }
    }
  }

  /** The profiles taken from one boot of a source have source generations that never fall. */
  lemma GenerationsNeverFall(env: Env, explain: Decision -> Text, cs: seq<Coordinator>, log: seq<Entry>, i: nat, j: nat)
    requires Session(env, explain, cs, log) && FreshBoots(log) && i < j < |log|
    requires var name := SourceName(log[i].m); Publishes(log[i], name) && Publishes(log[j], name)
    requires BootId(log[i].m) == BootId(log[j].m)
    ensures SourceGeneration(log[i].m) <= SourceGeneration(log[j].m)
  {
    hide Session, Accepted, SourceGeneration, LatestGeneration;
    var name := SourceName(log[i].m);
    var k := AcceptedIsFromLatestBoot(env, explain, cs, log, i);
    var l := AcceptedIsFromLatestBoot(env, explain, cs, log, j);
    if k != l {
      DrawnApart(log, k, l);
    }
    GenerationStays(env, explain, cs, log, i, j);
  }

  lemma DrawnApart(log: seq<Entry>, k: nat, l: nat)
    requires FreshBoots(log) && k < |log| && l < |log| && k != l
    requires log[k].m.kind == log[l].m.kind == REGISTER_SOURCE
    ensures log[k].drawn != log[l].drawn
  {
    assert k < l ==> log[k].drawn != log[l].drawn;
    assert l < k ==> log[l].drawn != log[k].drawn;
  }
}
