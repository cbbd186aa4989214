/** Constraints, rules, and what one rule concludes about two profiles. */
module Rules {
  import opened Prelude
  import opened Canonical
  import opened Records
  import opened Numbers
  import opened Versions

  // Enumerations are kept as the uint8_t they are, so that casts from wire integers need no extra case.

  type ProfileKind = byte

  const EXACT: byte := 0
  const COMPATIBLE: byte := 1
  const COMPATIBLE_WITH_ADAPTATION: byte := 2
  const CONDITIONAL: byte := 3
  const INCOMPATIBLE: byte := 4
  const UNKNOWN: byte := 5
  const INSUFFICIENT_EVIDENCE: byte := 6

  const RULE_EXPLICIT_INCOMPAT: byte := 12
  const RULE_ADAPTATION: byte := 13
  const RULE_CONDITIONAL: byte := 14

  const OP_EQ: byte := 0
  const OP_NE: byte := 1
  const OP_IN_SET: byte := 2
  const OP_MIN: byte := 3
  const OP_MAX: byte := 4
  const OP_VERSION_LT: byte := 5
  const OP_VERSION_LE: byte := 6
  const OP_VERSION_GT: byte := 7
  const OP_VERSION_GE: byte := 8
  const OP_ARCH_FAMILY: byte := 9
  const OP_FEATURE_REQ: byte := 10
  const OP_TRUTHY: byte := 11

  // What a provenance line reports; how it is worded is left to the environment.
  datatype Note =
    | RuleResolution
    | IdenticalIdentity
    | ResolvedBy(rule: Uuid, priority: int)
    | Conflict(rule: Uuid, outcome: byte)
    | Authoritative(rule: Uuid, generation: nat)
    | EvidenceNotPresent
    | NothingEstablished
    | ProfileAbsent
    | Derived

  /** SHA-256, the tables of field names, and the wording of provenance lines: whatever they are, they are functions. */
  datatype Env = Env(
    sha: Text -> Digest,
    tagFor: (ProfileKind, Text) -> Option<u32>,
    capabilityTag: Text -> Option<u32>,
    wording: Note -> Text)

  datatype Constraint = Constraint(
    op: byte,
    field: Text,
    rightField: Text,
    expected: Canon,
    expected2: Canon,
    allowed: seq<Canon>,
    note: Text)

  datatype Rule = Rule(
    ruleId: Uuid,
    generation: nat,
    domain: Text,
    scope: Text,
    priority: i32,
    kind: byte,
    leftKind: Option<ProfileKind>,
    rightKind: Option<ProfileKind>,
    required: seq<Constraint>,
    anyOf: seq<Constraint>,
    incompatibleWith: seq<Constraint>,
    conditions: seq<Constraint>,
    adaptations: seq<Text>,
    outcome: byte,
    provenance: Text)

  datatype Item = Item(dimension: Text, left: Text, right: Text, satisfied: bool, note: Text)

  /** One side of a pair, as far as a rule looks at it. */
  datatype Side = Side(kind: ProfileKind, payload: Canon)

  function Fingerprint(env: Env, c: Canon): Digest {
    env.sha(CanonicalEncode(c))
  }

  // ---- Fields ----

  function ResolveField(env: Env, side: Side, name: Text): Option<Canon> {
    if name == [] then None
    else
      var dot := IndexOf(name, DOT);
      var tail := if dot == |name| then [] else name[dot + 1..];
      match env.tagFor(side.kind, name[..dot])
      case None => None
      case Some(tag) =>
        match Lookup(side.payload, tag)
        case None => None
        case Some(v) =>
          if tail == [] then Some(v)
          else if v.Record? then ResolveSubfield(env, v, tail)
          else None
  }

  function ResolveSubfield(env: Env, record: Canon, name: Text): Option<Canon> {
    match env.capabilityTag(name)
    case None => None
    case Some(tag) => Lookup(record, tag)
  }

  function CanonEqual(env: Env, a: Canon, b: Canon): bool {
    if Tag(a) != Tag(b) then false
    else if a.Float? then DoubleValue(a.bits) == DoubleValue(b.bits)
    else if a.Record? || a.Sequence? then Fingerprint(env, a) == Fingerprint(env, b)
    else a == b
  }

  // ---- One constraint ----

  datatype Verdict = Verdict(holds: bool, why: Text)

  function Yes(why: string): Result<Verdict> { Ok(Verdict(true, Ascii(why))) }

  function No(why: string): Result<Verdict> { Ok(Verdict(false, Ascii(why))) }

  function UnknownField(field: Text, where_: string): Result<Verdict> {
    Ok(Verdict(false, Ascii("field '") + field + Ascii(where_)))
  }

  /** Constraint::evaluate; Err where a value of the wrong kind makes it throw. */
  function Evaluate(env: Env, c: Constraint, l: Side, r: Side): Result<Verdict> {
    var lv := ResolveField(env, l, c.field);
    var rv := if c.rightField == [] then None else ResolveField(env, r, c.rightField);
    if c.op > OP_TRUTHY then No("unknown predicate")
    else if lv.None? then
      if c.op == OP_FEATURE_REQ || c.op == OP_TRUTHY
      then Ok(Verdict(false, Ascii("feature '") + c.field + Ascii("' unknown/not observed")))
      else UnknownField(c.field, "' unknown on left")
    else if c.op == OP_EQ || c.op == OP_NE then
      if c.rightField != [] && rv.None? then UnknownField(c.rightField, "' unknown on right")
      else EvaluateEquality(env, c, lv.value, if c.rightField != [] then rv.value else c.expected)
    else if c.op == OP_IN_SET then
      if exists s :: s in c.allowed && CanonEqual(env, lv.value, s)
      then Yes("value in allowed set") else No("value not in allowed set")
    else if c.op == OP_MIN || c.op == OP_MAX then EvaluateBound(c.op, lv.value, c.expected)
    else if c.op <= OP_VERSION_GE then
      if c.rightField != [] && rv.None? then UnknownField(c.rightField, "' unknown on right")
      else EvaluateVersion(c.op, lv.value, if c.rightField != [] then rv.value else c.expected)
    else if c.op == OP_ARCH_FAMILY then
      if !lv.value.Str? then No("architecture not a string")
      else if exists s :: s in c.allowed && s.Str? && s.s <= lv.value.s
      then Yes("architecture in family") else No("architecture not in family")
    else if lv.value == Bool(true) || (lv.value.Uint? && lv.value.u != 0)
    then Yes("feature present") else No("feature absent/unsupported")
  }

  function EvaluateEquality(env: Env, c: Constraint, v: Canon, w: Canon): Result<Verdict> {
    var equal := CanonEqual(env, v, w);
    var why := if c.rightField != [] then (if equal then "field values equal" else "field values differ")
               else (if equal then "field equals expected" else "field differs from expected");
    Ok(Verdict(equal == (c.op == OP_EQ), Ascii(why)))
  }

  function EvaluateBound(op: byte, v: Canon, bound: Canon): Result<Verdict> {
    if NumberOf(v).Err? || NumberOf(bound).Err? then Err
    else
      var a, b := NumberOf(v).value, NumberOf(bound).value;
      if op == OP_MIN then (if a >= b then Yes("meets minimum") else No("below minimum"))
      else (if a <= b then Yes("within maximum") else No("exceeds maximum"))
  }

  function EvaluateVersion(op: byte, v: Canon, w: Canon): Result<Verdict> {
    if CmpVer(v, w).Err? then Err
    else
      var c := CmpVer(v, w).value;
      var holds := if op == OP_VERSION_LT then c < 0
                   else if op == OP_VERSION_LE then c <= 0
                   else if op == OP_VERSION_GT then c > 0
                   else c >= 0;
      if holds then Yes("version relation holds") else No("version relation fails")
  }

  predicate Known(env: Env, c: Constraint, l: Side, r: Side) {
    ResolveField(env, l, c.field).Some? && (c.rightField == [] || ResolveField(env, r, c.rightField).Some?)
  }

  /** The constraint is decided, and decided in favour. */
  predicate Holds(env: Env, c: Constraint, l: Side, r: Side) {
    Known(env, c, l, r) && Evaluate(env, c, l, r).Ok? && Evaluate(env, c, l, r).value.holds
  }

  // ---- One rule ----

  datatype RuleEval = RuleEval(
    rule: Rule,
    definite: bool,
    missing: bool,
    outcome: byte,
    satisfied: seq<Item>,
    failed: seq<Item>,
    adaptations: seq<Text>,
    missingEvidence: seq<Text>)

  function ItemOf(c: Constraint, v: Verdict, satisfied: bool): Item {
    var ok, not := if v.holds then v.why else [], if v.holds then [] else v.why;
    Item(c.field, ok, not, satisfied, if satisfied then ok else not)
  }

  function Missing(e: RuleEval, c: Constraint): RuleEval {
    e.(missing := true, missingEvidence := e.missingEvidence + [c.field])
  }

  /** The incompatibility clauses up to the first that holds; whether one did. */
  function ScanIncompatible(env: Env, cs: seq<Constraint>, l: Side, r: Side, e: RuleEval): Result<(RuleEval, bool)> {
    if cs == [] then Ok((e, false))
    else
      var c := cs[0];
      if !Known(env, c, l, r) then ScanIncompatible(env, cs[1..], l, r, Missing(e, c))
      else
        match Evaluate(env, c, l, r)
        case Err => Err
        case Ok(v) =>
          if v.holds
          then Ok((e.(definite := true, outcome := INCOMPATIBLE, failed := e.failed + [ItemOf(c, v, false)]), true))
          else ScanIncompatible(env, cs[1..], l, r, e.(satisfied := e.satisfied + [ItemOf(c, v, true)]))
  }

  /** The required conjunction; whether all of it held. */
  function ScanRequired(env: Env, cs: seq<Constraint>, l: Side, r: Side, e: RuleEval, all: bool):
    Result<(RuleEval, bool)>
  {
    if cs == [] then Ok((e, all))
    else
      var c := cs[0];
      if !Known(env, c, l, r) then
        var item := Item(c.field, [], [], false, Ascii("missing evidence"));
        ScanRequired(env, cs[1..], l, r, Missing(e, c).(failed := e.failed + [item]), false)
      else
        match Evaluate(env, c, l, r)
        case Err => Err
        case Ok(v) =>
          if v.holds
          then ScanRequired(env, cs[1..], l, r, e.(satisfied := e.satisfied + [ItemOf(c, v, true)]), all)
          else ScanRequired(env, cs[1..], l, r, e.(failed := e.failed + [ItemOf(c, v, false)]), false)
  }

  /** The disjunction up to the first that holds; whether one did, and whether one was not known. */
  function ScanAny(env: Env, cs: seq<Constraint>, l: Side, r: Side, e: RuleEval, unknown: bool):
    Result<(RuleEval, bool, bool)>
  {
    if cs == [] then Ok((e, false, unknown))
    else
      var c := cs[0];
      if !Known(env, c, l, r) then ScanAny(env, cs[1..], l, r, e, true)
      else
        match Evaluate(env, c, l, r)
        case Err => Err
        case Ok(v) =>
          if v.holds then Ok((e.(satisfied := e.satisfied + [ItemOf(c, v, true)]), true, unknown))
          else ScanAny(env, cs[1..], l, r, e.(failed := e.failed + [ItemOf(c, v, false)]), unknown)
  }

  function ScanConditions(env: Env, cs: seq<Constraint>, l: Side, r: Side, e: RuleEval, all: bool):
    Result<(RuleEval, bool)>
  {
    if cs == [] then Ok((e, all))
    else
      var c := cs[0];
      if !Known(env, c, l, r) then ScanConditions(env, cs[1..], l, r, Missing(e, c), false)
      else
        match Evaluate(env, c, l, r)
        case Err => Err
        case Ok(v) =>
          if v.holds then ScanConditions(env, cs[1..], l, r, e, all)
          else ScanConditions(env, cs[1..], l, r, e.(failed := e.failed + [ItemOf(c, v, false)]), false)
  }

  function EvalRule(env: Env, rule: Rule, l: Side, r: Side): Result<RuleEval> {
    var start := RuleEval(rule, false, false, UNKNOWN, [], [], [], []);
    match ScanIncompatible(env, rule.incompatibleWith, l, r, start)
    case Err => Err
    case Ok((e, incompatible)) =>
      if incompatible then Ok(e)
      else
        match ScanRequired(env, rule.required, l, r, e, true)
        case Err => Err
        case Ok((e, all)) =>
          if !all then Ok(Inconclusive(e, e.missing))
          else
            match ScanAny(env, rule.anyOf, l, r, e, false)
            case Err => Err
            case Ok((e, any, unknown)) =>
              if rule.anyOf != [] && !any
              then Ok(Inconclusive(e.(missing := e.missing || unknown), unknown))
              else Conclude(env, rule, l, r, e)
  }

  function Inconclusive(e: RuleEval, missing: bool): RuleEval {
    if missing then e.(definite := true, outcome := INSUFFICIENT_EVIDENCE)
    else e.(definite := false, outcome := UNKNOWN)
  }

  function Conclude(env: Env, rule: Rule, l: Side, r: Side, e: RuleEval): Result<RuleEval> {
    if rule.kind == RULE_CONDITIONAL then
      match ScanConditions(env, rule.conditions, l, r, e, true)
      case Err => Err
      case Ok((e, all)) =>
        Ok(e.(definite := true, outcome := if all then rule.outcome else CONDITIONAL, adaptations := rule.adaptations))
    else
      var outcome := if rule.kind == RULE_ADAPTATION then COMPATIBLE_WITH_ADAPTATION
                     else if rule.kind == RULE_EXPLICIT_INCOMPAT then INCOMPATIBLE
                     else rule.outcome;
      Ok(e.(definite := true, outcome := outcome, adaptations := rule.adaptations))
  }

  // ---- What a rule concludes, without the scanning ----

  ghost predicate SomeHolds(env: Env, cs: seq<Constraint>, l: Side, r: Side) {
    exists c :: c in cs && Holds(env, c, l, r)
  }

  ghost predicate AllHold(env: Env, cs: seq<Constraint>, l: Side, r: Side) {
    forall c :: c in cs ==> Holds(env, c, l, r)
  }

  ghost predicate AllKnown(env: Env, cs: seq<Constraint>, l: Side, r: Side) {
    forall c :: c in cs ==> Known(env, c, l, r)
  }

  datatype Conclusion = Conclusion(definite: bool, outcome: byte)

  ghost function ConclusionOf(env: Env, rule: Rule, l: Side, r: Side): Conclusion {
    if SomeHolds(env, rule.incompatibleWith, l, r) then Conclusion(true, INCOMPATIBLE)
    else if !AllHold(env, rule.required, l, r) then
      if AllKnown(env, rule.incompatibleWith, l, r) && AllKnown(env, rule.required, l, r)
      then Conclusion(false, UNKNOWN)
      else Conclusion(true, INSUFFICIENT_EVIDENCE)
    else if rule.anyOf != [] && !SomeHolds(env, rule.anyOf, l, r) then
      if AllKnown(env, rule.anyOf, l, r) then Conclusion(false, UNKNOWN) else Conclusion(true, INSUFFICIENT_EVIDENCE)
    else if rule.kind == RULE_CONDITIONAL then
      Conclusion(true, if AllHold(env, rule.conditions, l, r) then rule.outcome else CONDITIONAL)
    else if rule.kind == RULE_ADAPTATION then Conclusion(true, COMPATIBLE_WITH_ADAPTATION)
    else if rule.kind == RULE_EXPLICIT_INCOMPAT then Conclusion(true, INCOMPATIBLE)
    else Conclusion(true, rule.outcome)
  }

  lemma {:induction false} ScanIncompatibleMeaning(env: Env, cs: seq<Constraint>, l: Side, r: Side, e: RuleEval)
    requires ScanIncompatible(env, cs, l, r, e).Ok?
    ensures var (f, found) := ScanIncompatible(env, cs, l, r, e).value;
            && (found <==> SomeHolds(env, cs, l, r))
            && (found ==> f.definite && f.outcome == INCOMPATIBLE)
            && (!found ==> (f.missing <==> e.missing || !AllKnown(env, cs, l, r)))
            && f.rule == e.rule && (!found ==> f.adaptations == e.adaptations)
  {
    if cs != [] {
      hide Known, Evaluate;
      var c := cs[0];
      assert cs == [c] + cs[1..];
      if !Known(env, c, l, r) {
        assert !Holds(env, c, l, r);
        ScanIncompatibleMeaning(env, cs[1..], l, r, Missing(e, c));
      } else {
        var v := Evaluate(env, c, l, r).value;
        assert Holds(env, c, l, r) <==> v.holds;
        if !v.holds {
          ScanIncompatibleMeaning(env, cs[1..], l, r, e.(satisfied := e.satisfied + [ItemOf(c, v, true)]));
        }
      }
    }
  }

  lemma {:induction false} ScanRequiredMeaning(env: Env, cs: seq<Constraint>, l: Side, r: Side, e: RuleEval, all: bool)
    requires ScanRequired(env, cs, l, r, e, all).Ok?
    ensures var (f, held) := ScanRequired(env, cs, l, r, e, all).value;
            && (held <==> all && AllHold(env, cs, l, r))
            && (f.missing <==> e.missing || !AllKnown(env, cs, l, r))
            && f.rule == e.rule
  {
    if cs != [] {
      hide Known, Evaluate;
      var c := cs[0];
      assert cs == [c] + cs[1..];
      if !Known(env, c, l, r) {
        assert !Holds(env, c, l, r);
        var item := Item(c.field, [], [], false, Ascii("missing evidence"));
        ScanRequiredMeaning(env, cs[1..], l, r, Missing(e, c).(failed := e.failed + [item]), false);
      } else {
        var v := Evaluate(env, c, l, r).value;
        assert Holds(env, c, l, r) <==> v.holds;
        if v.holds {
          ScanRequiredMeaning(env, cs[1..], l, r, e.(satisfied := e.satisfied + [ItemOf(c, v, true)]), all);
        } else {
          ScanRequiredMeaning(env, cs[1..], l, r, e.(failed := e.failed + [ItemOf(c, v, false)]), false);
        }
      }
    }
  }

  lemma {:induction false} ScanAnyMeaning(env: Env, cs: seq<Constraint>, l: Side, r: Side, e: RuleEval, unknown: bool)
    requires ScanAny(env, cs, l, r, e, unknown).Ok?
    ensures var (f, any, unseen) := ScanAny(env, cs, l, r, e, unknown).value;
            && (any <==> SomeHolds(env, cs, l, r))
            && (!any ==> (unseen <==> unknown || !AllKnown(env, cs, l, r)))
            && f.rule == e.rule && f.missing == e.missing
  {
    if cs != [] {
      hide Known, Evaluate;
      var c := cs[0];
      assert cs == [c] + cs[1..];
      if !Known(env, c, l, r) {
        assert !Holds(env, c, l, r);
        ScanAnyMeaning(env, cs[1..], l, r, e, true);
      } else {
        var v := Evaluate(env, c, l, r).value;
        assert Holds(env, c, l, r) <==> v.holds;
        if !v.holds {
          ScanAnyMeaning(env, cs[1..], l, r, e.(failed := e.failed + [ItemOf(c, v, false)]), unknown);
        }
      }
    }
  }

  lemma {:induction false} ScanConditionsMeaning(env: Env, cs: seq<Constraint>, l: Side, r: Side, e: RuleEval, all: bool)
    requires ScanConditions(env, cs, l, r, e, all).Ok?
    ensures var (f, held) := ScanConditions(env, cs, l, r, e, all).value;
            && (held <==> all && AllHold(env, cs, l, r))
            && (f.missing <==> e.missing || !AllKnown(env, cs, l, r))
            && f.rule == e.rule
  {
    if cs != [] {
      hide Known, Evaluate;
      var c := cs[0];
      assert cs == [c] + cs[1..];
      if !Known(env, c, l, r) {
        assert !Holds(env, c, l, r);
        ScanConditionsMeaning(env, cs[1..], l, r, Missing(e, c), false);
      } else {
        var v := Evaluate(env, c, l, r).value;
        assert Holds(env, c, l, r) <==> v.holds;
        if v.holds {
          ScanConditionsMeaning(env, cs[1..], l, r, e, all);
        } else {
          ScanConditionsMeaning(env, cs[1..], l, r, e.(failed := e.failed + [ItemOf(c, v, false)]), false);
        }
      }
    }
  }

  // ---- When it throws ----

  /** The constraint can be decided, and deciding it throws. */
  predicate Throws(env: Env, c: Constraint, l: Side, r: Side) {
    Known(env, c, l, r) && Evaluate(env, c, l, r).Err?
  }

  predicate IsNumber(c: Canon) { c.Uint? || c.Int? || c.Float? }

  predicate HasVersion(c: Canon) { c.Uint? || c.Str? || c.Bytes? }

  /** A bound throws unless it is between numbers, a version relation unless between numbers and texts, and nothing else does. */
  lemma ThrowsMeaning(env: Env, c: Constraint, l: Side, r: Side)
    requires Known(env, c, l, r)
    ensures var v := ResolveField(env, l, c.field).value;
            var w := if c.rightField == [] then c.expected else ResolveField(env, r, c.rightField).value;
            Throws(env, c, l, r) <==>
              || ((c.op == OP_MIN || c.op == OP_MAX) && !(IsNumber(v) && IsNumber(c.expected)))
              || (OP_VERSION_LT <= c.op <= OP_VERSION_GE && !(HasVersion(v) && HasVersion(w)))
  {
  }

  ghost predicate SomeThrows(env: Env, cs: seq<Constraint>, l: Side, r: Side) {
    exists c :: c in cs && Throws(env, c, l, r)
  }

  /** One throws before any holds. */
  ghost predicate ThrowsFirst(env: Env, cs: seq<Constraint>, l: Side, r: Side) {
    exists i :: 0 <= i < |cs| && Throws(env, cs[i], l, r) && forall j :: 0 <= j < i ==> !Holds(env, cs[j], l, r)
  }

  lemma ThrowsFirstOf(env: Env, cs: seq<Constraint>, l: Side, r: Side)
    ensures ThrowsFirst(env, cs, l, r) <==>
              cs != [] && (Throws(env, cs[0], l, r) || (!Holds(env, cs[0], l, r) && ThrowsFirst(env, cs[1..], l, r)))
  {
    hide Throws, Holds;
    if cs != [] {
      var rest := cs[1..];
      if i :| 0 <= i < |rest| && Throws(env, rest[i], l, r) && forall j :: 0 <= j < i ==> !Holds(env, rest[j], l, r) {
        assert cs[i + 1] == rest[i];
        assert !Holds(env, cs[0], l, r) ==> forall j :: 1 <= j < i + 1 ==> cs[j] == rest[j - 1];
      }
      if i :| 0 < i < |cs| && Throws(env, cs[i], l, r) && forall j :: 0 <= j < i ==> !Holds(env, cs[j], l, r) {
        assert rest[i - 1] == cs[i];
        assert forall j :: 0 <= j < i - 1 ==> rest[j] == cs[j + 1];
      }
    }
  }

  lemma SomeThrowsOf(env: Env, cs: seq<Constraint>, l: Side, r: Side)
    ensures SomeThrows(env, cs, l, r) <==> cs != [] && (Throws(env, cs[0], l, r) || SomeThrows(env, cs[1..], l, r))
  {
    hide Throws;
    assert forall c :: c in cs <==> cs != [] && (c == cs[0] || c in cs[1..]);
  }

  lemma {:induction false} ScanIncompatibleThrows(env: Env, cs: seq<Constraint>, l: Side, r: Side, e: RuleEval)
    ensures ScanIncompatible(env, cs, l, r, e).Err? <==> ThrowsFirst(env, cs, l, r)
  {
    ThrowsFirstOf(env, cs, l, r);
    if cs != [] {
      hide Known, Evaluate, ThrowsFirst;
      var c := cs[0];
      if !Known(env, c, l, r) {
        ScanIncompatibleThrows(env, cs[1..], l, r, Missing(e, c));
      } else if Evaluate(env, c, l, r).Ok? && !Evaluate(env, c, l, r).value.holds {
        ScanIncompatibleThrows(env, cs[1..], l, r, e.(satisfied := e.satisfied + [ItemOf(c, Evaluate(env, c, l, r).value, true)]));
      }
    }
  }

  lemma {:induction false} ScanRequiredThrows(env: Env, cs: seq<Constraint>, l: Side, r: Side, e: RuleEval, all: bool)
    ensures ScanRequired(env, cs, l, r, e, all).Err? <==> SomeThrows(env, cs, l, r)
  {
    SomeThrowsOf(env, cs, l, r);
    if cs != [] {
      hide Known, Evaluate, SomeThrows;
      var c := cs[0];
      if !Known(env, c, l, r) {
        var item := Item(c.field, [], [], false, Ascii("missing evidence"));
        ScanRequiredThrows(env, cs[1..], l, r, Missing(e, c).(failed := e.failed + [item]), false);
      } else if Evaluate(env, c, l, r).Ok? {
        var v := Evaluate(env, c, l, r).value;
        if v.holds {
          ScanRequiredThrows(env, cs[1..], l, r, e.(satisfied := e.satisfied + [ItemOf(c, v, true)]), all);
        } else {
          ScanRequiredThrows(env, cs[1..], l, r, e.(failed := e.failed + [ItemOf(c, v, false)]), false);
        }
      }
    }
  }

  lemma {:induction false} ScanAnyThrows(env: Env, cs: seq<Constraint>, l: Side, r: Side, e: RuleEval, unknown: bool)
    ensures ScanAny(env, cs, l, r, e, unknown).Err? <==> ThrowsFirst(env, cs, l, r)
  {
    ThrowsFirstOf(env, cs, l, r);
    if cs != [] {
      hide Known, Evaluate, ThrowsFirst;
      var c := cs[0];
      if !Known(env, c, l, r) {
        ScanAnyThrows(env, cs[1..], l, r, e, true);
      } else if Evaluate(env, c, l, r).Ok? && !Evaluate(env, c, l, r).value.holds {
        ScanAnyThrows(env, cs[1..], l, r, e.(failed := e.failed + [ItemOf(c, Evaluate(env, c, l, r).value, false)]), unknown);
      }
    }
  }

  lemma {:induction false} ScanConditionsThrows(env: Env, cs: seq<Constraint>, l: Side, r: Side, e: RuleEval, all: bool)
    ensures ScanConditions(env, cs, l, r, e, all).Err? <==> SomeThrows(env, cs, l, r)
  {
    SomeThrowsOf(env, cs, l, r);
    if cs != [] {
      hide Known, Evaluate, SomeThrows;
      var c := cs[0];
      if !Known(env, c, l, r) {
        ScanConditionsThrows(env, cs[1..], l, r, Missing(e, c), false);
      } else if Evaluate(env, c, l, r).Ok? {
        var v := Evaluate(env, c, l, r).value;
        if v.holds {
          ScanConditionsThrows(env, cs[1..], l, r, e, all);
        } else {
          ScanConditionsThrows(env, cs[1..], l, r, e.(failed := e.failed + [ItemOf(c, v, false)]), false);
        }
      }
    }
  }

  /** The requirements hold, and some alternative does if any are given. */
  ghost predicate Qualifies(env: Env, rule: Rule, l: Side, r: Side) {
    AllHold(env, rule.required, l, r) && (rule.anyOf == [] || SomeHolds(env, rule.anyOf, l, r))
  }

  /** Some clause throws that the rule comes to. */
  ghost predicate RuleThrows(env: Env, rule: Rule, l: Side, r: Side) {
    || ThrowsFirst(env, rule.incompatibleWith, l, r)
    || (!SomeHolds(env, rule.incompatibleWith, l, r) &&
        (|| SomeThrows(env, rule.required, l, r)
         || (AllHold(env, rule.required, l, r) && ThrowsFirst(env, rule.anyOf, l, r))
         || (Qualifies(env, rule, l, r) && rule.kind == RULE_CONDITIONAL && SomeThrows(env, rule.conditions, l, r))))
  }

  /** Some evidence is wanting that the rule comes to ask for. */
  ghost predicate Lacks(env: Env, rule: Rule, l: Side, r: Side) {
    || !AllKnown(env, rule.incompatibleWith, l, r)
    || !AllKnown(env, rule.required, l, r)
    || (AllHold(env, rule.required, l, r) && !Qualifies(env, rule, l, r) && !AllKnown(env, rule.anyOf, l, r))
    || (Qualifies(env, rule, l, r) && rule.kind == RULE_CONDITIONAL && !AllKnown(env, rule.conditions, l, r))
  }

  /** Scanning the clauses in order comes to the conclusion stated without order, unless a clause it comes to throws. */
  lemma EvalRuleConcludes(env: Env, rule: Rule, l: Side, r: Side)
    ensures EvalRule(env, rule, l, r).Err? <==> RuleThrows(env, rule, l, r)
    ensures EvalRule(env, rule, l, r).Ok? ==>
              var e := EvalRule(env, rule, l, r).value;
              e.rule == rule && Conclusion(e.definite, e.outcome) == ConclusionOf(env, rule, l, r)
    ensures EvalRule(env, rule, l, r).Ok? && !SomeHolds(env, rule.incompatibleWith, l, r) ==>
              (EvalRule(env, rule, l, r).value.missing <==> Lacks(env, rule, l, r))
  {
    hide Known, Evaluate, SomeHolds, AllHold, AllKnown, ScanIncompatible, ScanRequired, ScanAny, ScanConditions, ThrowsFirst,
         SomeThrows;
    var start := RuleEval(rule, false, false, UNKNOWN, [], [], [], []);
    ScanIncompatibleThrows(env, rule.incompatibleWith, l, r, start);
    if ScanIncompatible(env, rule.incompatibleWith, l, r, start).Ok? {
      ScanIncompatibleMeaning(env, rule.incompatibleWith, l, r, start);
      var (e0, incompatible) := ScanIncompatible(env, rule.incompatibleWith, l, r, start).value;
      if !incompatible {
        ScanRequiredThrows(env, rule.required, l, r, e0, true);
        if ScanRequired(env, rule.required, l, r, e0, true).Ok? {
          ScanRequiredMeaning(env, rule.required, l, r, e0, true);
          var (e1, all) := ScanRequired(env, rule.required, l, r, e0, true).value;
          if all {
            ScanAnyThrows(env, rule.anyOf, l, r, e1, false);
            if ScanAny(env, rule.anyOf, l, r, e1, false).Ok? {
              ScanAnyMeaning(env, rule.anyOf, l, r, e1, false);
              var (e2, any, unknown) := ScanAny(env, rule.anyOf, l, r, e1, false).value;
              if (rule.anyOf == [] || any) && rule.kind == RULE_CONDITIONAL {
                ScanConditionsThrows(env, rule.conditions, l, r, e2, true);
                if ScanConditions(env, rule.conditions, l, r, e2, true).Ok? {
                  ScanConditionsMeaning(env, rule.conditions, l, r, e2, true);
                }
              }
            }
          }
        }
      }
    }
  }

  predicate IsPositive(outcome: byte) {
    outcome == EXACT || outcome == COMPATIBLE || outcome == COMPATIBLE_WITH_ADAPTATION || outcome == CONDITIONAL
  }

  /** The outcome that a rule which qualifies speaks for is in favour. */
  ghost predicate Favours(env: Env, rule: Rule, l: Side, r: Side) {
    if rule.kind == RULE_CONDITIONAL then IsPositive(rule.outcome) || !AllHold(env, rule.conditions, l, r)
    else rule.kind == RULE_ADAPTATION || (rule.kind != RULE_EXPLICIT_INCOMPAT && IsPositive(rule.outcome))
  }

  /**
    * Exactly when a rule speaks in favour: its requirements must be known to hold, and an alternative if
    * any are given. Of incompatibilities none may be known to hold; that some cannot be decided does not
    * stop it.
    */
  lemma PositiveNeedsEvidence(env: Env, rule: Rule, l: Side, r: Side)
    requires EvalRule(env, rule, l, r).Ok?
    ensures IsPositive(EvalRule(env, rule, l, r).value.outcome) <==>
              && !SomeHolds(env, rule.incompatibleWith, l, r) && Qualifies(env, rule, l, r) && Favours(env, rule, l, r)
  {
    hide EvalRule, AllHold, SomeHolds, AllKnown, RuleThrows, Lacks;
    EvalRuleConcludes(env, rule, l, r);
  }
  // ---- Single operators ----

  /** Min and Max on unsigned values: what is met is accepted, and what is wrongly accepted misses by at most 2048. */
  lemma BoundsOnUnsigned(env: Env, c: Constraint, l: Side, r: Side, a: u64, b: u64)
    requires ResolveField(env, l, c.field) == Some(Uint(a)) && c.expected == Uint(b)
    requires c.op == OP_MIN || c.op == OP_MAX
    ensures Evaluate(env, c, l, r).Ok?
    ensures var accepted := Evaluate(env, c, l, r).value.holds;
            var met := if c.op == OP_MIN then a >= b else a <= b;
            && (met ==> accepted)
            && (accepted && !met ==> ToDouble(a) == ToDouble(b) && -2048 <= a - b <= 2048)
            && (a <= TWO_53 && b <= TWO_53 ==> (accepted <==> met))
  {
    hide ToDouble;
    if a <= b { ToDoubleMonotone(a, b); }
    if b <= a { ToDoubleMonotone(b, a); }
    if ToDouble(a) == ToDouble(b) { Confused(a, b); }
    if a <= TWO_53 { ToDoubleExact(a); }
    if b <= TWO_53 { ToDoubleExact(b); }
  }

  /** The four version operators agree with one another. */
  lemma VersionOperatorsAgree(env: Env, c: Constraint, l: Side, r: Side)
    requires c.rightField == [] && ResolveField(env, l, c.field).Some?
    requires VersionOf(ResolveField(env, l, c.field).value).Ok? && VersionOf(c.expected).Ok?
    ensures forall op | OP_VERSION_LT <= op <= OP_VERSION_GE :: Evaluate(env, c.(op := op), l, r).Ok?
    ensures var holds := (op: byte) => Evaluate(env, c.(op := op), l, r).Ok?
            && Evaluate(env, c.(op := op), l, r).value.holds;
            && (holds(OP_VERSION_LT) <==> !holds(OP_VERSION_GE))
            && (holds(OP_VERSION_GT) <==> !holds(OP_VERSION_LE))
            && (holds(OP_VERSION_LE) && holds(OP_VERSION_GE) <==>
                VersionOf(ResolveField(env, l, c.field).value) == VersionOf(c.expected))
  {
    var v := ResolveField(env, l, c.field).value;
    CmpVerPreorder(v, c.expected, c.expected);
  }
}
