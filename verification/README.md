# Compatibility Registry: a verified model

The Compatibility Registry decides whether two profiles (a kernel and a device, a model and a tokenizer) are
compatible. It keeps every generation of every profile, a graph of the dependencies between them stored in both
directions, rules, evidence, a cache of decisions and one generation counter. It hashes canonical encodings to
obtain fingerprints, digests and ids, writes itself out as one checksummed byte string, and is served by a
coordinator over framed messages. This project models those parts in Dafny and proves what they are for.

## How the model is laid out

| file | what it holds |
|---|---|
| `prelude`, `canonical`, `records`, `codec` | widths and big-endian words; the value tree and its encoding; `mk_record` and field lookup; the encoder's buffer and the decoder's cursor |
| `numbers`, `versions`, `rules`, `surfacing` | bounds through doubles; version strings; constraints and rules, what they conclude; what fields and operators mean, which missing evidence is named |
| `graphs`, `uuids` | cycles, paths and the three-colour search; sorted id lists |
| `states`, `decisions`, `resolution`, `counterfactual` | the registry's contents and every mutation; evaluation of a pair; what the winning rule is; derived decisions |
| `registry` | the registry object, its fields updated in place |
| `runs`, `replay`, `agreement` | all calls as steps, invariants of all runs; the decision cache over time; counterfactuals against reality |
| `documents`, `sizes`, `snapshots`, `recovery`, `continuity`, `unrecoverable`, `persistence` | entities as trees and back, and how long they get; snapshot and recover; what comes back, and how it goes on; a run whose end cannot be recovered; the two methods |
| `crc`, `frames`, `coordination`, `coordinator` | checksum, framing, the request state machine and the coordinator object |
| `sessions`, `instances` | registry objects go through runs; short complete runs and inputs on which the code falls short |

Methods of the objects are proved equal to the step they take on the contents (`States`, `Decisions`,
`Snapshots`, `Coordination`); the theorems are about those steps and about runs of them. `Sessions.Drive` ties the
two together: whatever calls are made on a new object, it has gone through a run.

A C++ exception is `Err`. SHA-256, the tables of field names, and the wording of provenance lines are parameters
(`Rules.Env`), so every statement holds whatever they are. Where a theorem needs hashes to tell texts apart, it says
which texts (`Replays.CollisionFree`). Ids that the program draws at random are parameters of the call. A hash
table is walked in any order: decisions do not depend on it, and a snapshot theorem is about every order
(`Snapshots.Order`).

## What the proofs show of the code

Where the code does less than its documentation says, the model follows the code:

- A refused call is without effect exactly if there was no active record to retire and, for a replacement, no entry of
  edges to drop (`RefusedWithoutEffect`); the documentation has every refusal come before any change. Otherwise it
  retires the active record, and a refused replacement drops the edges too (`RefusedSupersedeDropsEdges`). No
  generation is raised, so the pair is evaluated again under the same one.
- A decision that some rule made can be replayed ever after, whatever calls come between, refused ones included
  (`RuledDecisionsStay`). One that nothing decides can lose its place in the cache: exactly to another such decision
  over the same profiles under the same generation, made with a profile missing that was there, or the other way
  round, or in the other scope, which the digest leaves out (`SameDigestSameDecision`, `CachedExactly`). It takes a
  refused call on one of the two profiles, or an evaluation in the other scope (`DisplacedByRefusalOrScope`);
  `RefusalInstance` and `RequirementInstance` give a run for each.
- After a refused replacement the dependencies on record can be cyclic while the edges are not. Recovery rebuilds
  the edges from the record and then throws: `NothingIsRecovered` gives a run of five calls, one of them refused,
  after which no snapshot can be recovered from. Without refused replacements, and with record payloads, every
  snapshot can (`RunRecovers`).
- A payload that is no record can be registered, and from then on no snapshot can be recovered from
  (`OneOddPayloadSpoilsAll`). Evidence whose value is no record can be registered too; recovery succeeds and empties
  it (`OddEvidenceIsEmptied`, `EmptiedInstance`). With records alone, and no refused replacement, everything comes back
  (`RecoverSnapshot`).
- Every applicable rule is evaluated, so a rule ranked below the winner can make evaluation throw, whether it is
  registered, replaced or was there; when exactly is said by `LowerRuleIrrelevant` and `EvalRuleConcludes`, with
  `LowerRuleInstance`.
- The documentation has missing evidence never become compatibility. An incompatibility that cannot be decided does
  not stop a rule from speaking in favour (`PositiveNeedsEvidence`): `MissingIsCompatible` gives two profiles that are
  Compatible because what would make them incompatible cannot be looked up. The decision then names the missing field;
  a positive decision names none exactly if nothing about its rule is undecided (`PositiveDecisionNamesNothing`).
- The documentation has every missing field surfaced. Undecided alternatives (`any_of`) are never named, so a rule
  can conclude InsufficientEvidence and name nothing (`InsufficiencyIsExplained`, `AlternativeUnnamed`); and what a
  rule names is lost if no rule speaks, the decision being InsufficientEvidence all the same
  (`InsufficientDecisionNamesNothing`, `UnheardInstance`).
- A counterfactual does not look at identity: if the edits make the fingerprints equal, reality is Exact, and the
  counterfactual is so only if a rule says it (`IdentityIsNotForetold`, `IdentityInstance`).
- The counters that number rules and evidence are not stored, so a rule registered after recovery can get another
  generation than it would have (`DrawnGenerations`). Nor is the mark that a rule was superseded.
- Recovery checks neither generations nor enumeration values (`StrangeIsRecovered`); when what it gives back
  satisfies the invariants of reachable states is said by `RecoveredIsKept`.
- The coordinator reads a source's generation for profiles only, not for rules, evidence or invalidations
  (`AcceptedExactly`, `GenerationIgnored`, `OutdatedIsTaken`).
- A header can cross the end of its segment in the decoder, and then no length is too long for it. Records,
  sequences and numbers are still refused in time, but texts and byte strings are copied first, from beyond the end
  of the buffer if they are long enough. `Codec.Overreads` says on which inputs, none of them an encoding;
  `CrossingIsReadPast` gives one of 19 bytes.
- Bounds are compared as doubles: the first value wrongly accepted is 2^53 as a minimum of 2^53 + 1
  (`FirstConfusion`), and a bound is checked exactly if and only if conversion tells it from its neighbour
  (`LowerBoundExact`, `UpperBoundExact`).

## Model

| member | source | states |
|---|---|---|
| Canonical.PrefixFree | src/compat/canonical.cpp:75-132 | no encoding of a well-formed tree is a proper prefix of another, and equal encodings have equal trees |
| Canonical.FieldsCut | src/compat/canonical.cpp:106-121 | if the encoding of one field list starts with that of another, the list does, and what is left encodes the rest |
| Canonical.ElemsCut | src/compat/canonical.cpp:122-129 | the same for sequences |
| Canonical.EncodeInjective | src/compat/canonical.cpp:134-141 | different well-formed trees have different canonical encodings |
| Canonical.Decode | src/compat/canonical.cpp:220-228 | a byte string stands for the well-formed tree it encodes, and for none exactly if it encodes none |
| Canonical.DecodeEncode | src/compat/canonical.cpp:134-228 | decoding undoes encoding for a tree if and only if every body fits its 32-bit length, tags are ordered and floats finite |
| Codec.AppendElement | src/compat/canonical.cpp:75-132 | the recursive writer appends exactly the encoding of the tree to its buffer |
| Codec.AppendFields | src/compat/canonical.cpp:106-116 | sorting the fields and writing tag and value of each yields the encoding of the field list |
| Codec.CanonicalEncodeTree | src/compat/canonical.cpp:134-141 | magic, version and element make up the canonical encoding |
| Codec.Reader.U32 | src/compat/canonical.cpp:154-162 | four bytes are read as their big-endian word and the cursor moves by four, or there are fewer and it throws |
| Codec.Reader.U64 | src/compat/canonical.cpp:163-169 | the same for eight bytes |
| Codec.ParseElement | src/compat/canonical.cpp:176-218 | what is read at the cursor is the one well-formed tree whose encoding lies there, within the segment unless its header crosses the end; otherwise it throws, or it copies from beyond the buffer, and which of the two is said exactly |
| Codec.ParseRecord | src/compat/canonical.cpp:196-209 | accepts exactly the segments that are the encoding of a field list with strictly rising tags; copies from beyond the buffer exactly if, after some complete fields, the value of one with a greater tag does |
| Codec.ParseSequence | src/compat/canonical.cpp:210-215 | accepts exactly the segments that are the encoding of a sequence; copies from beyond the buffer exactly if, after some complete elements, one does |
| Codec.CanonicalDecode | src/compat/canonical.cpp:220-228 | the decoder accepts precisely the image of the encoder and returns the tree that was encoded; it says of every other input whether bytes from beyond its end are copied before it is refused |
| Codec.UnsignedDifference | src/compat/canonical.cpp:179 | the difference of end and position as 64-bit arithmetic has it: what is left of the segment, or more than any length once a header has crossed its end |
| Codec.ReadIsNotOverread | src/compat/canonical.cpp:176-218 | no tree that is read to its end makes the decoder copy from beyond the buffer |
| Codec.EncodingsAreNotReadPast | src/compat/canonical.cpp:176-228 | no encoding of a tree is read past its end; what is read past is none |
| Codec.CrossingIsReadPast | src/compat/canonical.cpp:179-193 | 19 bytes on which the decoder copies from beyond its input |
| Records.MkRecordAccepts | src/compat/canonical.cpp:32-38 | a record is made exactly from field lists without a repeated tag; it has those fields in strict tag order |
| Records.MkRecordPermutation | src/compat/canonical.cpp:32-38 | the order in which fields are put in does not show |
| Records.LookupFindsField | src/compat/canonical.cpp:54-59 | a record finds under a tag exactly what was put under it |
| Numbers.ToDoubleMonotone | src/compat/rule.cpp:256-269 | conversion to double keeps the order of unsigned values |
| Numbers.Confused | src/compat/rule.cpp:256-269 | unsigned 64-bit values that become the same double lie within 2048 of each other |
| Numbers.LowerBoundExact | src/compat/rule.cpp:256-262 | a minimum is checked exactly for every field value if and only if conversion tells it from its predecessor |
| Numbers.UpperBoundExact | src/compat/rule.cpp:263-269 | a maximum is checked exactly if and only if conversion tells it from its successor |
| Numbers.FirstConfusion | src/compat/rule.cpp:256-269 | 2^53 is taken to meet a minimum of 2^53 + 1 |
| Rules.BoundsOnUnsigned | src/compat/rule.cpp:256-269 | Min and Max refuse no value that meets the bound, accept wrongly only within 2048 of it, and are exact up to 2^53 |
| Versions.ParseVer | src/compat/rule.cpp:182-197 | the loop keeps digits and dots, and the parts around the first dot are read |
| Versions.VersionRoundTrip | src/compat/rule.cpp:174-197 | any major and minor below 2^64 are recovered from their printed form, whatever other characters are interleaved and whatever follows a second dot |
| Versions.MajorRoundTrip | src/compat/rule.cpp:174-197 | the same without a dot; the minor is then zero |
| Versions.CmpVerPreorder | src/compat/rule.cpp:199-205 | comparison is reflexive, antisymmetric in sign and transitive, and zero exactly on equal versions |
| Rules.VersionOperatorsAgree | src/compat/rule.cpp:270-282 | less is the negation of greater-or-equal, greater of less-or-equal, and both weak relations hold exactly on equal versions |
| Surfacing.VersionOperatorsMean | src/compat/rule.cpp:270-282 | each operator holds as its relation does between the pairs of major and minor number, of the right field if one is named |
| Surfacing.ResolvesToField | src/compat/rule.cpp:139-149 | a plain name resolves to exactly what was put into the payload under its tag, in whatever order |
| Surfacing.ResolvesToSubfield | src/compat/rule.cpp:139-170 | a dotted name resolves inside the record its head resolves to, by the tag of its tail, and inside nothing else |
| Surfacing.CanonEqualIsEquality | src/compat/rule.cpp:207-222 | values compare equal exactly if they are equal, doubles by value; records and sequences as far as their hashes tell them apart |
| Surfacing.EqualityOperatorsMean | src/compat/rule.cpp:231-255 | Eq compares with the right field if one is named, Ne is its negation, and InSet holds exactly if Eq holds for some member |
| Surfacing.UnknownNeverHolds | src/compat/rule.cpp:224-303 | a constraint whose left field is unknown never holds, whatever its operator |
| Rules.EvalRuleConcludes | src/compat/registry.cpp:345-425 | scanning the clauses in order concludes what the clauses say without order: incompatibilities first, then requirements, alternatives, conditions, each three-valued; it throws exactly if a clause it comes to throws; and the rule counts as lacking evidence exactly if a clause it asks is undecided |
| Rules.ThrowsMeaning | src/compat/rule.cpp:224-303 | of the constraints that can be decided, a bound throws unless both sides are numbers, a version relation unless both are numbers or texts, and nothing else |
| Rules.PositiveNeedsEvidence | src/compat/registry.cpp:345-425 | a rule is in favour exactly if its requirements are known to hold, some alternative does if any are given, no incompatibility is known to hold, and its kind and outcome are in favour; undecided incompatibilities do not count |
| Surfacing.MissingIsSurfaced | src/compat/registry.cpp:345-425 | which fields a rule names as missing: all undecided incompatibilities and requirements, conditions once it comes to them, alternatives never |
| Surfacing.InsufficiencyIsExplained | src/compat/registry.cpp:361-399 | lack of evidence comes with a missing field exactly if an incompatibility or requirement is undecided |
| Surfacing.PositiveNamesNothing | src/compat/registry.cpp:345-425 | a rule in favour names no missing evidence exactly if all its incompatibilities and, if it is conditional, its conditions are decided |
| Surfacing.PositiveDecisionNamesNothing | src/compat/registry.cpp:485-498 | the same of a positive decision and the rule that wins |
| Instances.MissingIsCompatible | src/compat/registry.cpp:349-358 | a reachable pair that is Compatible under a rule whose only clause is an incompatibility that cannot be decided |
| Surfacing.InsufficientDecisionNamesNothing | src/compat/registry.cpp:485-525 | a decision for want of evidence names no field exactly if no rule speaks, or the one that decides names none; it then lacks evidence for alternatives only, unless InsufficientEvidence is its own outcome |
| Instances.UnheardInstance | src/compat/registry.cpp:517-520 | a rule that names a missing field under a decision for want of evidence that names none |
| Instances.AlternativeUnnamed | src/compat/registry.cpp:386-398 | a rule that lacks evidence for an alternative and names nothing |
| Graphs.DfsCycle | src/compat/registry.cpp:73-88 | the recursive three-colour search terminates, reports only real cycles, and otherwise finishes the node after all its successors |
| Graphs.FindCycle | src/compat/registry.cpp:90-99 | a cycle is found exactly if some node reaches itself by a non-empty path, on every finite graph, with edges to ids that are no keys |
| Graphs.UnionFindsReplacement | src/compat/registry.cpp:101-114 | from an acyclic graph, old and new edges of one node together make a cycle exactly if the new edges alone do |
| Registries.Registry.constructor | src/compat/registry.cpp:29 | a new registry is empty and valid |
| Registries.Registry.AddDependency | src/compat/registry.cpp:39-57 | the node's edges become the given ones without itself, and the two tables stay multiset transposes without self edges or empty reverse lists |
| Registries.Registry.RemoveDependency | src/compat/registry.cpp:59-71 | the node loses its edges and the tables stay transposes |
| Registries.Registry.HasCycle | src/compat/registry.cpp:90-99 | true exactly if the dependency graph is cyclic |
| Registries.Registry.CreateCycle | src/compat/registry.cpp:101-114 | from an acyclic graph, refuses exactly when replacing the old edges by the new would make a cycle, although it tests their union; from a cyclic one, always |
| Registries.Registry.DependenciesOf | src/compat/registry.cpp:573-578 | the edges of the node: never itself, and each other id as often as the reverse table lists the node under it |
| Registries.Registry.DependentsOf | src/compat/registry.cpp:580-588 | sorted, without repetition, exactly the ids that have this one among their dependencies |
| Registries.Registry.RegisterRecord | src/compat/registry.cpp:130-158 | takes the step of a registration: idempotent on unchanged content, else retires, then refuses or appends; the object stays valid even if refused |
| Registries.Registry.RegisterNew | src/compat/registry.cpp:119-128 | registers content under a drawn id |
| Registries.Registry.Supersede | src/compat/registry.cpp:160-187 | takes the step of a replacement, edges dropped before the check |
| Registries.Registry.Invalidate | src/compat/registry.cpp:189-202 | records the newest record as it was and retires the whole history |
| Registries.Registry.PropagateInvalidation | src/compat/registry.cpp:590-613 | terminates; invalidates exactly the registered profiles among the root and its transitive dependents, each once, leaves all others as they were and raises the generation once |
| Registries.Registry.AddRule | src/compat/registry.cpp:249-265 | takes the step of a rule registration, with the generation it draws |
| Registries.Registry.ReplaceRule | src/compat/registry.cpp:267-278 | the rule of this id gets the next generation and is active |
| Registries.Registry.Disable | src/compat/registry.cpp:280-288 | the rule stays, inactive and superseded |
| Registries.Registry.AddEvidence | src/compat/registry.cpp:300-305 | evidence is filed under its id and both counters rise |
| Registries.Registry.ChangePolicy | src/compat/registry.cpp:317-321 | the policy changes and the generation rises |
| Registries.Registry.Gather | src/compat/registry.cpp:465-478 | collecting the applicable rules in any order and sorting them yields their one ranking |
| Decisions.RankingUnique | src/compat/registry.cpp:475-478 | priority descending, then id ascending, leaves one order for any set of rules with different ids |
| Registries.Registry.EvaluateLocked | src/compat/registry.cpp:430-540 | the decision is the one specified, whatever order the rule table is walked in |
| Registries.Registry.EvaluatePair | src/compat/registry.cpp:542-548 | evaluates with pair rules, caches under the digest, changes nothing else |
| Registries.Registry.EvaluateRequirement | src/compat/registry.cpp:550-555 | the same with requirement rules |
| Registries.Registry.ReplayDecision | src/compat/registry.cpp:564-568 | some cached decision of this id, or none exactly if there is none |
| Registries.Registry.CounterfactualPair | src/compat/registry.cpp:618-677 | the derived decision, with no change to the registry |
| Resolution.BestIsWinner | src/compat/registry.cpp:485-498 | the first definite evaluation is that of the rule that comes to a definite, known conclusion while none ranked before it does |
| Resolution.DecisionIsWinners | src/compat/registry.cpp:485-525 | a decision takes outcome, rule and constraints from the unique winner; without one it has no constraints, and is InsufficientEvidence if an applicable rule has an undecided incompatibility, else Unknown |
| Resolution.DecidesIfAllHarmless | src/compat/registry.cpp:485-511 | evaluating two active profiles throws exactly if evaluating some applicable rule does, or some rule speaks for an outcome that has no name, however low it is ranked |
| Resolution.LowerRuleIrrelevant | src/compat/registry.cpp:475-511 | registering, replacing or disabling a rule that stays below the winner makes evaluation throw exactly if the rule as it then is applies and throws or speaks for an outcome without a name; otherwise outcome, rule and constraints stay |
| Resolution.OnlyHigherRulesMatter | src/compat/registry.cpp:475-511 | two rule tables that both have the winner and agree on the applicable rules ranked before it give one result |
| Instances.LowerRuleInstance | src/compat/registry.cpp:487-493 | a rule without constraints decides; with a rule below it that asks for a minimum of a text, evaluation throws |
| Resolution.PositiveDecisionIsFounded | src/compat/registry.cpp:463-511 | behind a positive decision that is no identity stands an active rule of the right scope and kinds whose requirements hold and to which no higher rule objects |
| Resolution.ConflictsAreListed | src/compat/registry.cpp:503-511 | the conflict notes name exactly the later rules with a definite, known conclusion of another outcome |
| Runs.StepKeeps | src/compat/registry.cpp:130-321 | every call, refused ones included, keeps the graph acyclic, each history numbered 1, 2, 3 with at most its last record active, edges those of the newest record or dropped, and everything filed under its own key |
| Runs.RunKeeps | src/compat/registry.cpp:130-321 | so in every reachable state |
| Runs.StepGrows | src/compat/registry.cpp:130-218 | no call takes back a record: kind, payload, dependencies and fingerprint stay, activity only falls, the superseded mark only rises, histories and invalidations grow at the end |
| Runs.RunGrows | src/compat/registry.cpp:130-218 | the same between any two states of a run |
| Runs.StepEdgesCurrent | src/compat/registry.cpp:130-187 | only a refused replacement parts a node's edges from its newest record's dependencies |
| Runs.RunEdgesCurrent | src/compat/registry.cpp:130-187 | without refused replacements each id's edges are its newest record's dependencies minus itself |
| Runs.RefusedSupersedeDropsEdges | src/compat/registry.cpp:177-182 | a refused replacement leaves the profile without edges and without an active record, under the old generation |
| Runs.RefusedWithoutEffect | src/compat/registry.cpp:134-182 | a refused call leaves everything as it was exactly if no record was active and, for a replacement, the node had no entry of edges |
| Instances.NewIdRefused | src/compat/registry.cpp:130-153 | a registration refused under a new id, which leaves nothing behind |
| Replays.StepSettles | src/compat/registry.cpp:130-321 | a call that is not refused raises the generation by one or changes nothing but the cache |
| Replays.RunSettles | src/compat/registry.cpp:130-321 | along a run without refusals the generation determines everything that is evaluated |
| Replays.RunQuiets | src/compat/registry.cpp:130-321 | along any run, within one generation rules and policy stay, and each profile keeps its active record or loses it |
| Replays.DigestMeansSemantics | src/compat/registry.cpp:697-713 | decisions have one digest exactly if they agree in everything but id and provenance |
| Replays.EqualIdsEqualDecisions | src/compat/registry.cpp:527-535 | equal decision ids, other than zero, are equal decisions of equal calls, wherever in a run they were made, refused calls included |
| Replays.SameDigestSameDecision | src/compat/registry.cpp:697-713 | two decisions of a run share a digest and differ exactly if nothing decides either, they are of the same profiles under one generation, and they differ in whether both profiles are there or, if they are, in scope |
| Replays.CachedExactly | src/compat/registry.cpp:542-555 | in any run, a decision is in the cache exactly if none has taken its place since it was made, or last made again |
| Replays.RuledDecisionsStay | src/compat/registry.cpp:542-555 | a decision to which some rule applied is in the cache ever after |
| Replays.DisplacedByRefusalOrScope | src/compat/registry.cpp:134-182 | a decision loses its place only to one of the other scope, or after a refused call on one of its profiles |
| Replays.ReplayReturnsDecision | src/compat/registry.cpp:564-568 | in any run, what is replayed under the id of an earlier decision is that decision, whichever entry is met first; and it is replayed exactly if none has taken its place since it was made, or last made again, as is so if a rule applied |
| Replays.DisplacingDecides | src/compat/registry.cpp:430-555 | such a decision has the digest of the one it displaces; it is another if a profile is missing in one of them, or their ids differ |
| Instances.RefusalInstance | src/compat/registry.cpp:134-153 | a run of five calls, one refused, after which a decision returned by the third is gone from the cache |
| Instances.RequirementInstance | src/compat/registry.cpp:542-555 | a run of four calls, none refused, whose last, an evaluation as a requirement, puts a pair decision out of the cache |
| Agreement.EditReplaces | src/compat/rule.cpp:308-319 | an edit of a field that resolves replaces the top-level field its name starts with, and no other, and does not throw |
| Agreement.EditsSucceed | src/compat/registry.cpp:634-643 | no list of edits throws on record payloads |
| Agreement.CounterfactualForetells | src/compat/registry.cpp:618-677 | replacing both profiles by their edited content succeeds, and the pair then evaluates to the outcome, constraints, adaptations, missing evidence and deciding rule the counterfactual gave |
| Agreement.IdentityIsNotForetold | src/compat/registry.cpp:454-461 | if the edited fingerprints are equal the pair is Exact; the counterfactual says so exactly if every applicable rule can be evaluated and the one that wins concludes Exact |
| Agreement.DerivedOutcome | src/compat/registry.cpp:645-676 | a derived decision has the winner's outcome, and throws exactly if an applicable rule does or that outcome has no name |
| Instances.IdentityInstance | src/compat/registry.cpp:618-677 | two profiles that one edit makes equal: reality is Exact, the counterfactual is not |
| Documents.ProfileBack | src/compat/registry.cpp:917-929 | a profile is read back with its payload reduced to its fields as a record |
| Documents.RuleBack | src/compat/registry.cpp:931-948 | a rule is read back whole but for the superseded mark |
| Documents.EvidenceBack | src/compat/registry.cpp:950-964 | evidence is read back with its value reduced to its fields as a record |
| Documents.InvalidationBack | src/compat/registry.cpp:966-973 | an invalidation is read back whole |
| Documents.DecisionBack | src/compat/registry.cpp:975-995 | a decision is read back whole |
| Documents.ConstraintBack | src/compat/registry.cpp:895-905 | a constraint is read back whole |
| Recovery.DocumentDescribes | src/compat/registry.cpp:868-878 | the document of a state, its tables walked in any order, describes what is stored of the state |
| Recovery.RecoveredIsStored | src/compat/registry.cpp:868-1034 | recovering from any snapshot gives what is stored; it throws exactly if some payload, reduced to its fields as a record, no longer has the fingerprint on record, or the dependencies on record close a cycle |
| Recovery.RecoveryNeedsRecords | src/compat/registry.cpp:787-799 | as far as hashes tell payloads from what they are reduced to, recovery succeeds exactly if all payloads are records and no cycle is on record |
| Recovery.OneOddPayloadSpoilsAll | src/compat/registry.cpp:787-799 | once a payload that is no record has been registered, no later snapshot of the run can be recovered from |
| Recovery.RecoveredIsKept | src/compat/registry.cpp:997-1034 | what is recovered satisfies the invariants of reachable states exactly if histories are numbered in order with at most the last record active, no fingerprint is missing, and decisions have their own digests |
| Instances.StrangeIsRecovered | src/compat/registry.cpp:997-1034 | the container of a document with a history from generation 7 on and an outcome of 200, which recovery accepts |
| Continuity.RecoverSnapshot | src/compat/registry.cpp:997-1034 | recovery succeeds and gives back histories, edges, rules, evidence, invalidations, decisions, policy and generation exactly if the edges are current and all payloads and evidence are records; it succeeds already if the edges are current and the payloads are records |
| Continuity.OddEvidenceIsEmptied | src/compat/registry.cpp:950-964 | evidence whose value is no record comes back empty from a recovery that succeeds |
| Instances.EmptiedInstance | src/compat/registry.cpp:300-305 | one registered piece of evidence from any snapshot of which its value is lost |
| Continuity.RunRecovers | src/compat/registry.cpp:997-1034 | after any run without refused replacements a snapshot is recovered from if all payloads are records, and gives back the state exactly if evidence is too |
| Continuity.ContinuedDecides | src/compat/registry.cpp:430-540 | the recovered registry gives every pair and every requirement the same full decision, and every counterfactual |
| Continuity.ContinuedStep | src/compat/registry.cpp:130-321 | whatever the stored registry could do next the recovered one can, with the same contents after it |
| Continuity.ContinuedRun | src/compat/registry.cpp:130-321 | every further run of the one is a run of the other, state for state |
| Continuity.DrawnGenerations | src/compat/registry.cpp:249-258 | a rule that draws its generation makes the restarted counter show exactly if it differs |
| Unrecoverable.NothingIsRecovered | src/compat/registry.cpp:177-182 | a run of five calls, one refused, from no snapshot of whose end, in whatever order it is written, anything is recovered |
| Persistence.TakeSnapshot | src/compat/registry.cpp:868-890 | the bytes are the container of the document in some order of the tables |
| Persistence.EnterEdges | src/compat/registry.cpp:1019-1020 | entering every record's dependencies in turn leaves each id those of its newest record, and the tables transposes |
| Persistence.Recover | src/compat/registry.cpp:997-1034 | builds a new, valid registry with exactly the recovered contents, or throws exactly if there are none; says when decoding the document copies from beyond it |
| Sessions.Perform | src/compat/registry.cpp:130-321 | every call of the object is a step, and is refused exactly if the step is |
| Sessions.Drive | src/compat/registry.cpp:130-321 | a new object put through any calls has gone through a run |
| Sessions.Restart | src/compat/registry.cpp:868-1034 | written out and read back, an object continues as before, with the same sorted dependents |
| Crc.ComputeCrc32 | src/compat/net.cpp:22-32 | the bitwise loop computes the checksum specified by feeding bytes into the shift register |
| Crc.ShiftLinear | src/compat/net.cpp:26-29 | one shift is linear over exclusive or |
| Crc.ShiftInjective | src/compat/net.cpp:26-29 | one shift sends only zero to zero |
| Crc.BurstDetected | src/compat/net.cpp:22-32 | data that differ only within four consecutive bytes have different checksums |
| Frames.FrameMessage | src/compat/net.cpp:42-54 | the buffer holds the frame of the message |
| Frames.UnframeMessage | src/compat/net.cpp:67-90 | accepts exactly the byte strings that start with a frame, and returns that message and the frame's length; says when decoding the payload copies from beyond it |
| Frames.FrameUnique | src/compat/net.cpp:42-90 | a byte string starts with the frame of at most one message |
| Frames.AlteredPayloadRefused | src/compat/net.cpp:67-90 | a frame whose payload was altered within four consecutive bytes is rejected |
| Coordination.RejectedChangesNothing | src/compat/net.cpp:360-484 | a request that is not accepted changes neither sources nor registry |
| Coordination.AcceptedIsCurrent | src/compat/net.cpp:377-470 | an accepted profile raises its source's generation to its own and changes no other source; other accepted changes leave the sources alone |
| Coordination.AcceptedExactly | src/compat/net.cpp:376-470 | a change is accepted exactly if it carries the epoch and its source's boot id and, if it is a profile, is a record of a kind, in scope and not outdated |
| Coordination.GenerationIgnored | src/compat/net.cpp:401-470 | rules, evidence and invalidations that differ only in the source generation are both accepted or both not |
| Instances.OutdatedIsTaken | src/compat/net.cpp:363-440 | a session of three requests, the last of which, evidence with a source generation below the one its source has reached, is accepted |
| Coordination.RequestIsStep | src/compat/net.cpp:360-484 | a request is at most one call on the registry |
| Coordination.SessionKeeps | src/compat/net.cpp:360-484 | so the registry's invariants hold throughout a session |
| Coordination.SourcesRemember | src/compat/net.cpp:363-402 | the table of sources holds, of every name, its latest boot id and scope and its latest profile's generation |
| Coordination.AcceptedIsFromLatestBoot | src/compat/net.cpp:377-470 | an accepted change came with the boot id of its source's latest registration; a profile lies in the scope given then |
| Coordination.FormerBootIsRejected | src/compat/net.cpp:386-470 | once a source has registered again, what carries a former boot id is rejected |
| Coordination.GenerationsNeverFall | src/compat/net.cpp:393-402 | the profiles taken from one boot of a source have source generations that never fall |
| Coordinators.CoordinatorServer.HandleRequest | src/compat/net.cpp:360-484 | the object handles every request as specified and stays valid |

## Left out

- Sockets, threads, the client, the command line, file input and output, demonstrations and benchmarks: input and output. The mutexes make each call one step.
- SHA-256 and the drawing of random ids: parameters. No theorem says that a hash detects corruption.
- The eleven profile classes with their conversions, and the name tables: `tag_for` and the capability names are arbitrary functions.
- `CapabilitySet` and its lookups: nothing modelled here uses them.
- Explanation text and JSON: only that an outcome without a name makes them throw. The text in a decision message is a parameter.
- Which message an exception carries; refusals of the coordinator keep theirs.
- Matrix tallies, `find_profile`, `history_of`, `query_by_kind`, `active_rules`, `find_evidence`, `stats`: queries that would only add easy members.
- Generation counters do not wrap: they are natural numbers, cut to 64 bits where they are written. Recovery is stated for counters below 2^64.
- `CompatibilityRule::active`, the list of evidence ids in a decision, and `RegistrySnapshot`: nothing reads them.
- What happens after bytes from beyond the buffer have been copied: the model counts it as a rejection and says that it was reached. Buffers so long that positions in them wrap are not considered.
- Codec.CanonicalEncodeTree: requires that records came from `mk_record`; the fields of a `Canon` are private, so all do.
- Codec.AppendElement: requires the same, for the same reason.
- Codec.AppendFields: requires the same, for the same reason.
- Frames.FrameMessage: requires the same, for the same reason.
- Continuity.RecoverSnapshot: does not cover documents with a body of 2^32 bytes or more, because their lengths are cut when written.
- Continuity.ContinuedStep: does not cover rules that draw their generation, because the counter is not stored; Continuity.DrawnGenerations says when that shows.
- Replays.ReplayReturnsDecision: takes rule generations to be below 2^64, as all counters, so that a rule is told from none.
- Agreement.CounterfactualForetells: does not cover active rules of counterfactual scope, because only counterfactuals consult them.
- Coordination.FormerBootIsRejected: assumes that boot ids are drawn anew each time, because that is what makes them identify a boot.
- Numbers: signed values in Min and Max pass through an unsigned type as in the code; no property is claimed of them.
