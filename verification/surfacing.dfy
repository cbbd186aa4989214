/** Which missing evidence a rule names, and which it keeps to itself; what field names and operators mean. */
module Surfacing {
  import opened Prelude
  import opened Canonical
  import opened Records
  import opened Numbers
  import opened Versions
  import opened Rules
  import opened States
  import opened Decisions
  import opened Resolution

  /** The left fields of the constraints that cannot be decided, in order. */
  function UnknownFields(env: Env, cs: seq<Constraint>, l: Side, r: Side): seq<Text> {
    if cs == [] then []
    else (if Known(env, cs[0], l, r) then [] else [cs[0].field]) + UnknownFields(env, cs[1..], l, r)
  }

  lemma {:induction false} NoneUnknown(env: Env, cs: seq<Constraint>, l: Side, r: Side)
    ensures UnknownFields(env, cs, l, r) == [] <==> AllKnown(env, cs, l, r)
  {
    if cs != [] {
      hide Known;
      NoneUnknown(env, cs[1..], l, r);
      assert forall c :: c in cs <==> c == cs[0] || c in cs[1..];
    }
  }

  lemma UnknownFirst(env: Env, cs: seq<Constraint>, l: Side, r: Side, before: seq<Text>)
    requires cs != []
    ensures var rest := UnknownFields(env, cs[1..], l, r);
            before + UnknownFields(env, cs, l, r)
            == if Known(env, cs[0], l, r) then before + rest else before + [cs[0].field] + rest
  {
    hide Known;
    assert before + ([cs[0].field] + UnknownFields(env, cs[1..], l, r))
        == before + [cs[0].field] + UnknownFields(env, cs[1..], l, r);
    assert [] + UnknownFields(env, cs[1..], l, r) == UnknownFields(env, cs[1..], l, r);
  }

  lemma {:induction false} IncompatibleSurfaces(env: Env, cs: seq<Constraint>, l: Side, r: Side, e: RuleEval)
    requires ScanIncompatible(env, cs, l, r, e).Ok? && !ScanIncompatible(env, cs, l, r, e).value.1
    ensures ScanIncompatible(env, cs, l, r, e).value.0.missingEvidence == e.missingEvidence + UnknownFields(env, cs, l, r)
  {
    if cs != [] {
      hide Known, Evaluate, UnknownFields;
      var c := cs[0];
      UnknownFirst(env, cs, l, r, e.missingEvidence);
      if !Known(env, c, l, r) {
        IncompatibleSurfaces(env, cs[1..], l, r, Missing(e, c));
      } else {
        var v := Evaluate(env, c, l, r).value;
        IncompatibleSurfaces(env, cs[1..], l, r, e.(satisfied := e.satisfied + [ItemOf(c, v, true)]));
      }
    }
  }

  lemma {:induction false} RequiredSurfaces(env: Env, cs: seq<Constraint>, l: Side, r: Side, e: RuleEval, all: bool)
    requires ScanRequired(env, cs, l, r, e, all).Ok?
    ensures ScanRequired(env, cs, l, r, e, all).value.0.missingEvidence == e.missingEvidence + UnknownFields(env, cs, l, r)
  {
    if cs != [] {
      hide Known, Evaluate, UnknownFields;
      var c := cs[0];
      UnknownFirst(env, cs, l, r, e.missingEvidence);
      if !Known(env, c, l, r) {
        var item := Item(c.field, [], [], false, Ascii("missing evidence"));
        RequiredSurfaces(env, cs[1..], l, r, Missing(e, c).(failed := e.failed + [item]), false);
      } else {
        var v := Evaluate(env, c, l, r).value;
        if v.holds {
          RequiredSurfaces(env, cs[1..], l, r, e.(satisfied := e.satisfied + [ItemOf(c, v, true)]), all);
        } else {
          RequiredSurfaces(env, cs[1..], l, r, e.(failed := e.failed + [ItemOf(c, v, false)]), false);
        }
      }
    }
  }

  lemma {:induction false} AnySurfacesNothing(env: Env, cs: seq<Constraint>, l: Side, r: Side, e: RuleEval, unknown: bool)
    requires ScanAny(env, cs, l, r, e, unknown).Ok?
    ensures ScanAny(env, cs, l, r, e, unknown).value.0.missingEvidence == e.missingEvidence
  {
    if cs != [] {
      hide Known, Evaluate;
      var c := cs[0];
      if !Known(env, c, l, r) {
        AnySurfacesNothing(env, cs[1..], l, r, e, true);
      } else {
        var v := Evaluate(env, c, l, r).value;
        if !v.holds {
          AnySurfacesNothing(env, cs[1..], l, r, e.(failed := e.failed + [ItemOf(c, v, false)]), unknown);
        }
      }
    }
  }

  lemma {:induction false} ConditionsSurface(env: Env, cs: seq<Constraint>, l: Side, r: Side, e: RuleEval, all: bool)
    requires ScanConditions(env, cs, l, r, e, all).Ok?
    ensures ScanConditions(env, cs, l, r, e, all).value.0.missingEvidence == e.missingEvidence + UnknownFields(env, cs, l, r)
  {
    if cs != [] {
      hide Known, Evaluate, UnknownFields;
      var c := cs[0];
      UnknownFirst(env, cs, l, r, e.missingEvidence);
      if !Known(env, c, l, r) {
        ConditionsSurface(env, cs[1..], l, r, Missing(e, c), false);
      } else {
        var v := Evaluate(env, c, l, r).value;
        if v.holds {
          ConditionsSurface(env, cs[1..], l, r, e, all);
        } else {
          ConditionsSurface(env, cs[1..], l, r, e.(failed := e.failed + [ItemOf(c, v, false)]), false);
        }
      }
    }
  }

  /**
    * The missing evidence of a rule that no incompatibility cut short: every undecided incompatibility and
    * requirement, and the undecided conditions once it comes to them; of alternatives, none.
    */
  lemma MissingIsSurfaced(env: Env, rule: Rule, l: Side, r: Side)
    requires EvalRule(env, rule, l, r).Ok? && !SomeHolds(env, rule.incompatibleWith, l, r)
    ensures var toConditions := rule.kind == RULE_CONDITIONAL && AllHold(env, rule.required, l, r)
                                && (rule.anyOf == [] || SomeHolds(env, rule.anyOf, l, r));
            EvalRule(env, rule, l, r).value.missingEvidence
            == UnknownFields(env, rule.incompatibleWith, l, r) + UnknownFields(env, rule.required, l, r)
               + if toConditions then UnknownFields(env, rule.conditions, l, r) else []
  {
    hide Known, Evaluate, SomeHolds, AllHold, AllKnown, ScanIncompatible, ScanRequired, ScanAny, ScanConditions, UnknownFields;
    var start := RuleEval(rule, false, false, UNKNOWN, [], [], [], []);
    ScanIncompatibleMeaning(env, rule.incompatibleWith, l, r, start);
    IncompatibleSurfaces(env, rule.incompatibleWith, l, r, start);
    var e0 := ScanIncompatible(env, rule.incompatibleWith, l, r, start).value.0;
    ScanRequiredMeaning(env, rule.required, l, r, e0, true);
    RequiredSurfaces(env, rule.required, l, r, e0, true);
    var (e1, all) := ScanRequired(env, rule.required, l, r, e0, true).value;
    if all {
      ScanAnyMeaning(env, rule.anyOf, l, r, e1, false);
      AnySurfacesNothing(env, rule.anyOf, l, r, e1, false);
      var (e2, any, unknown) := ScanAny(env, rule.anyOf, l, r, e1, false).value;
      if (rule.anyOf == [] || any) && rule.kind == RULE_CONDITIONAL {
        ConditionsSurface(env, rule.conditions, l, r, e2, true);
      }
    }
  }

  /**
    * A rule that lacks evidence for its requirements or its alternatives names some of it, unless all that
    * is missing is evidence for alternatives.
    */
  lemma InsufficiencyIsExplained(env: Env, rule: Rule, l: Side, r: Side)
    requires EvalRule(env, rule, l, r).Ok? && !SomeHolds(env, rule.incompatibleWith, l, r)
    requires !AllHold(env, rule.required, l, r) || (rule.anyOf != [] && !SomeHolds(env, rule.anyOf, l, r))
    requires EvalRule(env, rule, l, r).value.outcome == INSUFFICIENT_EVIDENCE
    ensures EvalRule(env, rule, l, r).value.missingEvidence != [] <==>
              !(AllKnown(env, rule.incompatibleWith, l, r) && AllKnown(env, rule.required, l, r))
    ensures EvalRule(env, rule, l, r).value.missingEvidence == [] ==>
              AllHold(env, rule.required, l, r) && !AllKnown(env, rule.anyOf, l, r)
  {
    hide EvalRule, Known, SomeHolds, AllHold, AllKnown, UnknownFields;
    EvalRuleConcludes(env, rule, l, r);
    MissingIsSurfaced(env, rule, l, r);
    NoneUnknown(env, rule.incompatibleWith, l, r);
    NoneUnknown(env, rule.required, l, r);
  }

  /** The rule comes to its conditions. */
  ghost predicate ReachesConditions(env: Env, rule: Rule, l: Side, r: Side) {
    rule.kind == RULE_CONDITIONAL && Qualifies(env, rule, l, r)
  }

  /** Whatever evidence the rule lacks, it names none of it. */
  ghost predicate NamesNothing(env: Env, rule: Rule, l: Side, r: Side) {
    && AllKnown(env, rule.incompatibleWith, l, r) && AllKnown(env, rule.required, l, r)
    && (ReachesConditions(env, rule, l, r) ==> AllKnown(env, rule.conditions, l, r))
  }

  ghost predicate LacksAlternativesOnly(env: Env, rule: Rule, l: Side, r: Side) {
    && AllHold(env, rule.required, l, r)
    && rule.anyOf != [] && !SomeHolds(env, rule.anyOf, l, r) && !AllKnown(env, rule.anyOf, l, r)
  }

  lemma NamesNothingMeans(env: Env, rule: Rule, l: Side, r: Side)
    requires EvalRule(env, rule, l, r).Ok? && EvalRule(env, rule, l, r).value.outcome == INSUFFICIENT_EVIDENCE
    ensures EvalRule(env, rule, l, r).value.missingEvidence == [] <==> NamesNothing(env, rule, l, r)
    ensures NamesNothing(env, rule, l, r) && rule.outcome != INSUFFICIENT_EVIDENCE ==> LacksAlternativesOnly(env, rule, l, r)
  {
    hide EvalRule, Known, SomeHolds, AllHold, AllKnown, UnknownFields;
    EvalRuleConcludes(env, rule, l, r);
    MissingIsSurfaced(env, rule, l, r);
    NoneUnknown(env, rule.incompatibleWith, l, r);
    NoneUnknown(env, rule.required, l, r);
    NoneUnknown(env, rule.conditions, l, r);
  }

  /**
    * A decision for want of evidence names none exactly if no rule speaks, although some rule may have
    * named it, or the rule that decides names none; and unless InsufficientEvidence is that rule's own
    * outcome, it then lacks evidence for alternatives only.
    */
  lemma InsufficientDecisionNamesNothing(env: Env, s: State, left: Uuid, right: Uuid, requirement: bool)
    requires RulesFiled(s.rules) && RuleResolved(s, left, right) && Decide(env, s, left, right, requirement).Ok?
    requires Decide(env, s, left, right, requirement).value.outcome == INSUFFICIENT_EVIDENCE
    ensures var rules, l, r := RulesFor(s, left, right, requirement), LeftSide(s, left, right), RightSide(s, left, right);
            && (Decide(env, s, left, right, requirement).value.missingEvidence == [] <==>
                (forall o :: o in rules ==> !Speaks(env, o, l, r))
                || exists w :: Wins(env, rules, l, r, w) && NamesNothing(env, w, l, r))
            && (forall w :: Wins(env, rules, l, r, w) && NamesNothing(env, w, l, r) && w.outcome != INSUFFICIENT_EVIDENCE ==>
                  LacksAlternativesOnly(env, w, l, r))
  {
    hide EvalRule, ConclusionOf, EvalAll, DecisionId, DigestTree, NamesNothing, LacksAlternativesOnly, ConflictNotes;
    var rules, l, r := RulesFor(s, left, right, requirement), LeftSide(s, left, right), RightSide(s, left, right);
    DecisionIsWinners(env, s, left, right, requirement);
    forall w | Wins(env, rules, l, r, w)
      ensures EvalRule(env, w, l, r).Ok? && EvalRule(env, w, l, r).value.outcome == INSUFFICIENT_EVIDENCE
      ensures EvalRule(env, w, l, r).value.missingEvidence == [] <==> NamesNothing(env, w, l, r)
      ensures NamesNothing(env, w, l, r) && w.outcome != INSUFFICIENT_EVIDENCE ==> LacksAlternativesOnly(env, w, l, r)
    {
      NamesNothingMeans(env, w, l, r);
    }
  }

  // ---- Missing evidence under a positive outcome ----

  /** Everything that could speak against the rule, or restrict it, can be decided. */
  ghost predicate NothingOpen(env: Env, rule: Rule, l: Side, r: Side) {
    && AllKnown(env, rule.incompatibleWith, l, r)
    && (rule.kind == RULE_CONDITIONAL ==> AllKnown(env, rule.conditions, l, r))
  }

  /** A rule that speaks in favour names missing evidence all the same, if an incompatibility or a condition is undecided. */
  lemma PositiveNamesNothing(env: Env, rule: Rule, l: Side, r: Side)
    requires EvalRule(env, rule, l, r).Ok? && IsPositive(EvalRule(env, rule, l, r).value.outcome)
    ensures EvalRule(env, rule, l, r).value.missingEvidence == [] <==> NothingOpen(env, rule, l, r)
  {
    hide EvalRule, SomeHolds, AllHold, AllKnown, UnknownFields, Favours;
    PositiveNeedsEvidence(env, rule, l, r);
    HoldingIsKnown(env, rule.required, l, r);
    MissingIsSurfaced(env, rule, l, r);
    NoneUnknown(env, rule.incompatibleWith, l, r);
    NoneUnknown(env, rule.required, l, r);
    NoneUnknown(env, rule.conditions, l, r);
  }

  /** A positive decision between different profiles rests on missing evidence exactly if something about its rule is undecided. */
  lemma PositiveDecisionNamesNothing(env: Env, s: State, left: Uuid, right: Uuid, requirement: bool)
    requires RulesFiled(s.rules) && RuleResolved(s, left, right) && Decide(env, s, left, right, requirement).Ok?
    requires IsPositive(Decide(env, s, left, right, requirement).value.outcome)
    ensures Decide(env, s, left, right, requirement).value.missingEvidence == [] <==>
              exists w :: Wins(env, RulesFor(s, left, right, requirement), LeftSide(s, left, right), RightSide(s, left, right), w)
                && NothingOpen(env, w, LeftSide(s, left, right), RightSide(s, left, right))
  {
    hide EvalRule, Decide, Speaks, NothingOpen, RulesFor, AllKnown;
    var rules, l, r := RulesFor(s, left, right, requirement), LeftSide(s, left, right), RightSide(s, left, right);
    DecisionIsWinners(env, s, left, right, requirement);
    forall w | Wins(env, rules, l, r, w)
      ensures Decide(env, s, left, right, requirement).value.missingEvidence == [] <==> NothingOpen(env, w, l, r)
    {
      PositiveNamesNothing(env, w, l, r);
    }
  }

  // ---- Fields ----

  predicate Undotted(name: Text) {
    name != [] && forall i :: 0 <= i < |name| ==> name[i] != DOT
  }

  lemma NoDot(name: Text)
    requires Undotted(name)
    ensures IndexOf(name, DOT) == |name| && name[..|name|] == name
  {
    var n := IndexOf(name, DOT);
  }

  /** A plain name resolves to what was put into the payload under its tag, in whatever order. */
  lemma ResolvesToField(env: Env, side: Side, fs: seq<Field>, name: Text, v: Canon)
    requires MkRecord(fs) == Ok(side.payload) && Undotted(name)
    ensures ResolveField(env, side, name) == Some(v) <==>
              env.tagFor(side.kind, name).Some? &&
              exists f :: f in fs && f.tag == env.tagFor(side.kind, name).value && f.value == v
  {
    hide MkRecord, Lookup;
    NoDot(name);
    if env.tagFor(side.kind, name).Some? {
      LookupFindsField(fs, side.payload, env.tagFor(side.kind, name).value);
    }
  }

  /** A dotted name resolves inside the record that its head resolves to, by the tag of its tail, and inside nothing else. */
  lemma ResolvesToSubfield(env: Env, side: Side, head: Text, tail: Text, v: Canon)
    requires Undotted(head) && tail != []
    ensures ResolveField(env, side, head + [DOT] + tail) == Some(v) <==>
              var outer, tag := ResolveField(env, side, head), env.capabilityTag(tail);
              outer.Some? && outer.value.Record? && tag.Some? && Lookup(outer.value, tag.value) == Some(v)
  {
    hide Lookup;
    NoDot(head);
    CutAtDot(head + [DOT] + tail, head, tail);
  }

  // ---- Operators ----

  predicate Older(v: Version, w: Version) {
    v.major < w.major || (v.major == w.major && v.minor < w.minor)
  }

  /** A version relation holds as it does between the pairs of major and minor number. */
  lemma VersionOperatorsMean(env: Env, c: Constraint, l: Side, r: Side)
    requires OP_VERSION_LT <= c.op <= OP_VERSION_GE && Known(env, c, l, r) && Evaluate(env, c, l, r).Ok?
    ensures var rhs := if c.rightField == [] then c.expected else ResolveField(env, r, c.rightField).value;
            var v, w := VersionOf(ResolveField(env, l, c.field).value), VersionOf(rhs);
            && v.Ok? && w.Ok?
            && (Evaluate(env, c, l, r).value.holds <==>
                if c.op == OP_VERSION_LT then Older(v.value, w.value)
                else if c.op == OP_VERSION_LE then Older(v.value, w.value) || v == w
                else if c.op == OP_VERSION_GT then Older(w.value, v.value)
                else Older(w.value, v.value) || v == w)
  {
  }

  /** Values are equal for a constraint if they are equal, records and sequences by their hashes; doubles by value. */
  lemma CanonEqualIsEquality(env: Env, a: Canon, b: Canon)
    requires WellFormed(a) && WellFormed(b)
    requires Fingerprint(env, a) == Fingerprint(env, b) ==> CanonicalEncode(a) == CanonicalEncode(b)
    ensures !a.Float? ==> (CanonEqual(env, a, b) <==> a == b)
    ensures a.Float? ==> (CanonEqual(env, a, b) <==> b.Float? && DoubleValue(a.bits) == DoubleValue(b.bits))
  {
    hide WellFormed, CanonicalEncode, DoubleValue;
    if CanonEqual(env, a, b) && (a.Record? || a.Sequence?) {
      EncodeInjective(a, b);
    }
  }

  /** Eq compares with the right field if one is named; Ne is its negation, and InSet its disjunction over the set. */
  lemma EqualityOperatorsMean(env: Env, c: Constraint, l: Side, r: Side, allowed: seq<Canon>)
    requires c.op == OP_EQ && Known(env, c, l, r)
    ensures Evaluate(env, c, l, r).Ok? && Evaluate(env, c.(op := OP_NE), l, r).Ok?
    ensures var rhs := if c.rightField == [] then c.expected else ResolveField(env, r, c.rightField).value;
            Evaluate(env, c, l, r).value.holds <==> CanonEqual(env, ResolveField(env, l, c.field).value, rhs)
    ensures Evaluate(env, c, l, r).value.holds <==> !Evaluate(env, c.(op := OP_NE), l, r).value.holds
    ensures var member := c.(op := OP_IN_SET, allowed := allowed);
            Evaluate(env, member, l, r).Ok? &&
            (Evaluate(env, member, l, r).value.holds <==>
             exists v :: v in allowed && Evaluate(env, c.(rightField := [], expected := v), l, r).value.holds)
  {
    hide CanonEqual, ResolveField;
    var member := c.(op := OP_IN_SET, allowed := allowed);
    forall v | v in allowed
      ensures Evaluate(env, c.(rightField := [], expected := v), l, r).value.holds
              <==> CanonEqual(env, ResolveField(env, l, c.field).value, v)
    {
    }
  }

  /** What is unknown never holds, whatever the operator. */
  lemma UnknownNeverHolds(env: Env, c: Constraint, l: Side, r: Side)
    requires ResolveField(env, l, c.field).None?
    ensures Evaluate(env, c, l, r).Ok? && !Evaluate(env, c, l, r).value.holds
  {
  }
}
