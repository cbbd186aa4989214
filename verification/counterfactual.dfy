/** Deciding a pair as if its profiles had been edited. */
module Counterfactuals {
  import opened Prelude
  import opened Canonical
  import opened Records
  import opened Versions
  import opened Rules
  import opened States
  import opened Decisions

  datatype Edit = Edit(field: Text, value: Canon)

  function ReplaceField(fs: seq<Field>, tag: u32, value: Canon): (r: seq<Field>)
    ensures |r| == |fs|
  {
    seq(|fs|, i requires 0 <= i < |fs| => if fs[i].tag == tag then Field(tag, value) else fs[i])
  }

  /** apply_profile_field_edit: the top-level field that the name starts with gets the value. */
  function ApplyFieldEdit(env: Env, kind: ProfileKind, payload: Canon, name: Text, value: Canon): Result<Canon> {
    match env.tagFor(kind, name[..IndexOf(name, DOT)])
    case None => Err
    case Some(tag) =>
      if !payload.Record? then Err
      else if exists f :: f in payload.fields && f.tag == tag then MkRecord(ReplaceField(payload.fields, tag, value))
      else MkRecord(payload.fields + [Field(tag, value)])
  }

  function EditProfile(env: Env, p: Profile, edit: Edit): Result<Profile> {
    if ResolveField(env, SideOf(p), edit.field).None? then Ok(p)
    else
      match ApplyFieldEdit(env, p.kind, p.payload, edit.field, edit.value)
      case Err => Err
      case Ok(payload) => Ok(p.(payload := payload, fingerprint := FingerprintHex(env, payload)))
  }

  /** An edit goes to the right side if the right profile, before all edits, has the field. */
  function ApplyEdits(env: Env, right: Side, l: Profile, r: Profile, edits: seq<Edit>): Result<(Profile, Profile)>
    decreases edits
  {
    if edits == [] then Ok((l, r))
    else if ResolveField(env, right, edits[0].field).Some? then
      match EditProfile(env, r, edits[0])
      case Err => Err
      case Ok(r) => ApplyEdits(env, right, l, r, edits[1..])
    else
      match EditProfile(env, l, edits[0])
      case Err => Err
      case Ok(l) => ApplyEdits(env, right, l, r, edits[1..])
  }

  function ResolveDerived(env: Env, d: Decision, evals: seq<RuleEval>): Decision {
    var definite := Deciding(evals);
    if definite != [] then
      var best := definite[0];
      d.(outcome := best.outcome, ruleId := best.rule.ruleId, ruleGeneration := best.rule.generation,
         satisfied := best.satisfied, failed := best.failed,
         adaptations := best.adaptations, missingEvidence := best.missingEvidence)
    else d.(outcome := if AnyMissing(evals) then INSUFFICIENT_EVIDENCE else UNKNOWN)
  }

  const DERIVED_SCOPES: set<Text> := {PAIR, COUNTERFACTUAL}

  ghost function DecideDerived(env: Env, s: State, left: Uuid, right: Uuid, l: Profile, r: Profile): Result<Decision>
    requires RulesFiled(s.rules)
  {
    var cand := Candidates(s.rules, DERIVED_SCOPES, l.kind, r.kind);
    var evals := EvalAll(env, cand, SideOf(l), SideOf(r));
    if evals.Err? then Err
    else
      var d := ResolveDerived(env, Blank(s, left, right, [env.wording(Derived)], true), evals.value);
      if d.outcome <= INSUFFICIENT_EVIDENCE then Ok(Sealed(env, d)) else Err
  }

  /** counterfactual_pair. */
  ghost function DecideCounterfactual(env: Env, s: State, left: Uuid, right: Uuid, edits: seq<Edit>): Result<Decision>
    requires RulesFiled(s.rules)
  {
    var l, r := ActiveProfile(s, left), ActiveProfile(s, right);
    if l.None? || r.None? then Ok(Sealed(env, Blank(s, left, right, [env.wording(ProfileAbsent)], true)))
    else
      match ApplyEdits(env, SideOf(r.value), l.value, r.value, edits)
      case Err => Err
      case Ok((l2, r2)) => DecideDerived(env, s, left, right, l2, r2)
  }
}
