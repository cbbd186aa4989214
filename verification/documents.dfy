/** The entities of a registry as canonical trees, and back. */
module Documents {
  import opened Prelude
  import opened Canonical
  import opened Records
  import opened Rules
  import opened States
  import opened Decisions

  // ---- Records with consecutive tags ----

  function Slots(slots: seq<Option<Canon>>, tag: nat): seq<Field>
    requires tag + |slots| <= TWO_32
  {
    if slots == [] then []
    else (if slots[0].Some? then [Field(tag, slots[0].value)] else []) + Slots(slots[1..], tag + 1)
  }

  type Short<T> = s: seq<T> | |s| < 1000 witness []

  /** The record that has the i-th slot, if it is filled, under tag i + 1. The fields are in order, so mk_record keeps them. */
  function RecordOf(slots: Short<Option<Canon>>): (c: Canon)
    ensures MkRecord(Slots(slots, 1)) == Ok(c)
  {
    SlotsInOrder(slots, 1);
    Record(Slots(slots, 1))
  }

  function Filled(vs: Short<Canon>): Canon {
    RecordOf(seq(|vs|, i requires 0 <= i < |vs| => Some(vs[i])))
  }

  lemma {:induction false} SlotTags(slots: seq<Option<Canon>>, tag: nat)
    requires tag + |slots| <= TWO_32
    ensures forall f :: f in Slots(slots, tag) ==> tag <= f.tag
    decreases |slots|
  {
    if slots != [] {
      SlotTags(slots[1..], tag + 1);
    }
  }

  lemma {:induction false} FindSlot(slots: seq<Option<Canon>>, tag: nat, t: nat)
    requires tag + |slots| <= TWO_32
    ensures FindField(Slots(slots, tag), t) == if tag <= t < tag + |slots| then slots[t - tag] else None
    decreases |slots|
  {
    if slots != [] {
      hide FindField;
      var rest := slots[1..];
      SlotTags(rest, tag + 1);
      FindSlot(rest, tag + 1, t);
      FirstSlot(slots[0], Slots(rest, tag + 1), tag, t);
      assert tag < t < tag + |slots| ==> rest[t - tag - 1] == slots[t - tag];
    }
  }

  lemma FirstSlot(slot: Option<Canon>, rest: seq<Field>, tag: u32, t: nat)
    requires forall f :: f in rest ==> tag < f.tag
    ensures var fs := (if slot.Some? then [Field(tag, slot.value)] else []) + rest;
            FindField(fs, t) == if t == tag then slot else FindField(rest, t)
  {
    var fs := (if slot.Some? then [Field(tag, slot.value)] else []) + rest;
    if slot.Some? {
      assert fs[1..] == rest;
    } else {
      assert fs == rest;
    }
    if rest != [] {
      IsMember(rest, 0);
    }
  }

  /** mk_record, which sorts, leaves such a record as it is. */
  lemma {:induction false} SlotsInOrder(slots: seq<Option<Canon>>, tag: nat)
    requires tag + |slots| <= TWO_32
    ensures MkRecord(Slots(slots, tag)) == Ok(Record(Slots(slots, tag)))
  {
    StrictSlots(slots, tag);
    MkRecordAccepts(Slots(slots, tag));
    StrictTagsUnique(Slots(slots, tag), MkRecord(Slots(slots, tag)).value.fields);
  }

  lemma {:induction false} StrictSlots(slots: seq<Option<Canon>>, tag: nat)
    requires tag + |slots| <= TWO_32
    ensures StrictTags(Slots(slots, tag)) && DistinctTags(Slots(slots, tag))
    decreases |slots|
  {
    if slots != [] {
      StrictSlots(slots[1..], tag + 1);
      SlotTags(slots[1..], tag + 1);
    }
  }

  lemma LookupFilled(vs: Short<Canon>)
    ensures forall t: nat {:trigger Lookup(Filled(vs), t)} :: 1 <= t <= |vs| ==> Lookup(Filled(vs), t) == Some(vs[t - 1])
  {
    forall t: nat | 1 <= t <= |vs| ensures Lookup(Filled(vs), t) == Some(vs[t - 1]) {
      FindSlot(seq(|vs|, i requires 0 <= i < |vs| => Some(vs[i])), 1, t);
    }
  }

  // ---- Reading fields, with what is assumed if one is missing or of another kind ----

  function UintAt(c: Canon, tag: nat): u64 {
    match Lookup(c, tag) case Some(Uint(u)) => u case _ => 0
  }

  // An enumeration's uint8_t keeps the low byte.
  function ByteAt(c: Canon, tag: nat, absent: byte): byte {
    match Lookup(c, tag) case Some(Uint(u)) => u % 256 case _ => absent
  }

  function OptionalByteAt(c: Canon, tag: nat): Option<byte> {
    match Lookup(c, tag) case Some(Uint(u)) => Some(u % 256) case _ => None
  }

  // static_cast<int> of an int64_t.
  function IntAt(c: Canon, tag: nat): i32 {
    match Lookup(c, tag) case Some(Int(i)) => (i + 0x8000_0000) % TWO_32 - 0x8000_0000 case _ => 0
  }

  function BoolAt(c: Canon, tag: nat, absent: bool): bool {
    match Lookup(c, tag) case Some(Bool(b)) => b case _ => absent
  }

  function TextAt(c: Canon, tag: nat): Text {
    match Lookup(c, tag) case Some(Str(s)) => s case _ => []
  }

  function IdAt(c: Canon, tag: nat): Uuid {
    match Lookup(c, tag) case Some(Id(id)) => id case _ => ZERO_UUID
  }

  function ElemsAt(c: Canon, tag: nat): seq<Canon> {
    match Lookup(c, tag) case Some(Sequence(es)) => es case _ => []
  }

  function ValueAt(c: Canon, tag: nat): Canon {
    match Lookup(c, tag) case Some(v) => v case _ => Null
  }

  // What is no record is dropped; what is one has its fields in order already.
  function RecordAt(c: Canon, tag: nat): Canon {
    match Lookup(c, tag) case Some(Record(fs)) => Record(fs) case _ => Null
  }

  // The first 32 bytes, over zeros.
  function DigestAt(c: Canon, tag: nat): Digest {
    match Lookup(c, tag)
    case Some(Bytes(s)) => if |s| >= 32 then s[..32] else s + Zeros(32 - |s|)
    case _ => ZERO_DIGEST
  }

  function Texts(es: seq<Canon>): seq<Text> {
    if es == [] then [] else (if es[0].Str? then [es[0].s] else []) + Texts(es[1..])
  }

  function Ids(es: seq<Canon>): seq<Uuid> {
    if es == [] then [] else (if es[0].Id? then [es[0].id] else []) + Ids(es[1..])
  }

  function IdTrees(ids: seq<Uuid>): (r: seq<Canon>)
    ensures |r| == |ids|
  {
    seq(|ids|, i requires 0 <= i < |ids| => Id(ids[i]))
  }

  lemma {:induction false} TextsBack(ts: seq<Text>)
    ensures Texts(TextTrees(ts)) == ts
  {
    if ts != [] {
      assert TextTrees(ts)[1..] == TextTrees(ts[1..]);
      TextsBack(ts[1..]);
      assert ts == [ts[0]] + ts[1..];
    }
  }

  lemma {:induction false} IdsBack(ids: seq<Uuid>)
    ensures Ids(IdTrees(ids)) == ids
  {
    if ids != [] {
      assert IdTrees(ids)[1..] == IdTrees(ids[1..]);
      IdsBack(ids[1..]);
      assert ids == [ids[0]] + ids[1..];
    }
  }

  // ---- Constraints ----

  function ConstraintTree(c: Constraint): Canon {
    Filled([Uint(c.op), Str(c.field), Str(c.rightField), c.expected, c.expected2, Sequence(c.allowed), Str(c.note)])
  }

  function ConstraintOf(t: Canon): Constraint {
    Constraint(ByteAt(t, 1, OP_EQ), TextAt(t, 2), TextAt(t, 3), ValueAt(t, 4), ValueAt(t, 5), ElemsAt(t, 6), TextAt(t, 7))
  }

  lemma ConstraintBack(c: Constraint)
    ensures ConstraintOf(ConstraintTree(c)) == c
  {
    hide Filled, Lookup, FieldsOf;
    LookupFilled([Uint(c.op), Str(c.field), Str(c.rightField), c.expected, c.expected2, Sequence(c.allowed), Str(c.note)]);
  }

  function ConstraintTrees(cs: seq<Constraint>): (r: seq<Canon>)
    ensures |r| == |cs|
  {
    seq(|cs|, i requires 0 <= i < |cs| => ConstraintTree(cs[i]))
  }

  function ConstraintsOf(ts: seq<Canon>): (r: seq<Constraint>)
    ensures |r| == |ts|
  {
    seq(|ts|, i requires 0 <= i < |ts| => ConstraintOf(ts[i]))
  }

  lemma ConstraintsBack(cs: seq<Constraint>)
    ensures ConstraintsOf(ConstraintTrees(cs)) == cs
  {
    hide ConstraintOf, ConstraintTree;
    forall i | 0 <= i < |cs| ensures ConstraintOf(ConstraintTree(cs[i])) == cs[i] {
      ConstraintBack(cs[i]);
    }
  }

  // ---- Items of decisions ----

  function ItemOfTree(t: Canon): Item {
    Item(TextAt(t, 1), TextAt(t, 2), TextAt(t, 3), BoolAt(t, 4, false), TextAt(t, 5))
  }

  function ItemsOf(ts: seq<Canon>): (r: seq<Item>)
    ensures |r| == |ts|
  {
    seq(|ts|, i requires 0 <= i < |ts| => ItemOfTree(ts[i]))
  }

  lemma ItemBack(i: Item)
    ensures ItemOfTree(ItemTree(i)) == i
  {
    var fs := ItemTree(i).fields;
    FindFieldMeaning(fs, 1);
    FindFieldMeaning(fs, 2);
    FindFieldMeaning(fs, 3);
    FindFieldMeaning(fs, 4);
    FindFieldMeaning(fs, 5);
    assert fs[0].tag == 1 && fs[1].tag == 2 && fs[2].tag == 3 && fs[3].tag == 4 && fs[4].tag == 5;
  }

  lemma ItemsBack(items: seq<Item>)
    ensures ItemsOf(ItemTrees(items)) == items
  {
    hide ItemOfTree, ItemTree;
    forall i | 0 <= i < |items| ensures ItemOfTree(ItemTree(items[i])) == items[i] {
      ItemBack(items[i]);
    }
  }

  // ---- Profiles ----

  // as_record of what is no record is the empty record.
  function FieldsOf(c: Canon): seq<Field> {
    if c.Record? then c.fields else []
  }

  function ProfileTree(p: Profile): Canon {
    Filled([Id(p.id), Uint(p.kind), Uint(Wrap(p.generation)), Record(FieldsOf(p.payload)), Sequence(IdTrees(p.deps)),
            Bool(p.active), Bool(p.superseded), Str(p.provenance), Str(p.fingerprint)])
  }

  function ProfileOf(t: Canon): Profile {
    Profile(ByteAt(t, 2, 0), IdAt(t, 1), UintAt(t, 3), RecordAt(t, 4), Ids(ElemsAt(t, 5)),
            BoolAt(t, 6, true), BoolAt(t, 7, false), TextAt(t, 8), TextAt(t, 9))
  }

  lemma ProfileFields(p: Profile)
    ensures var t := ProfileTree(p);
            && Lookup(t, 1) == Some(Id(p.id)) && Lookup(t, 2) == Some(Uint(p.kind)) && Lookup(t, 3) == Some(Uint(Wrap(p.generation)))
            && Lookup(t, 4) == Some(Record(FieldsOf(p.payload))) && Lookup(t, 5) == Some(Sequence(IdTrees(p.deps)))
            && Lookup(t, 6) == Some(Bool(p.active)) && Lookup(t, 7) == Some(Bool(p.superseded))
            && Lookup(t, 8) == Some(Str(p.provenance)) && Lookup(t, 9) == Some(Str(p.fingerprint))
  {
    hide Filled, Lookup, IdTrees, FieldsOf, Wrap;
    LookupFilled([Id(p.id), Uint(p.kind), Uint(Wrap(p.generation)), Record(FieldsOf(p.payload)), Sequence(IdTrees(p.deps)),
                  Bool(p.active), Bool(p.superseded), Str(p.provenance), Str(p.fingerprint)]);
  }

  /** A profile comes back with its payload reduced to the fields it has as a record. */
  lemma ProfileBack(p: Profile)
    requires p.generation < TWO_64
    ensures ProfileOf(ProfileTree(p)) == p.(payload := Record(FieldsOf(p.payload)))
  {
    hide ProfileTree, Ids, IdTrees, Lookup, FieldsOf;
    ProfileFields(p);
    IdsBack(p.deps);
  }

  // ---- Rules ----

  function KindSlot(k: Option<byte>): Option<Canon> {
    if k.Some? then Some(Uint(k.value)) else None
  }

  function RuleSlots(rr: RuleRecord): Short<Option<Canon>> {
    var r := rr.rule;
    [Some(Id(r.ruleId)), Some(Uint(Wrap(r.generation))), Some(Str(r.domain)), Some(Str(r.scope)), Some(Int(r.priority)),
     Some(Bool(rr.active)), KindSlot(r.leftKind), KindSlot(r.rightKind), Some(Uint(r.kind)), Some(Uint(r.outcome)),
     Some(Sequence(ConstraintTrees(r.required))), Some(Sequence(ConstraintTrees(r.anyOf))),
     Some(Sequence(ConstraintTrees(r.incompatibleWith))), Some(Sequence(ConstraintTrees(r.conditions))),
     Some(Sequence(TextTrees(r.adaptations))), Some(Str(r.provenance))]
  }

  function RuleTree(rr: RuleRecord): Canon {
    RecordOf(RuleSlots(rr))
  }

  function RuleOf(t: Canon): RuleRecord {
    RuleRecord(
      Rule(IdAt(t, 1), UintAt(t, 2), TextAt(t, 3), TextAt(t, 4), IntAt(t, 5), ByteAt(t, 9, 0),
           OptionalByteAt(t, 7), OptionalByteAt(t, 8),
           ConstraintsOf(ElemsAt(t, 11)), ConstraintsOf(ElemsAt(t, 12)), ConstraintsOf(ElemsAt(t, 13)), ConstraintsOf(ElemsAt(t, 14)),
           Texts(ElemsAt(t, 15)), ByteAt(t, 10, COMPATIBLE), TextAt(t, 16)),
      BoolAt(t, 6, true),
      false)
  }

  lemma LookupSlots(slots: Short<Option<Canon>>)
    ensures forall t: nat {:trigger Lookup(RecordOf(slots), t)} :: 1 <= t <= |slots| ==> Lookup(RecordOf(slots), t) == slots[t - 1]
  {
    forall t: nat | 1 <= t <= |slots| ensures Lookup(RecordOf(slots), t) == slots[t - 1] {
      FindSlot(slots, 1, t);
    }
  }

  lemma RuleFields(rr: RuleRecord)
    ensures var t, r := RuleTree(rr), rr.rule;
            && Lookup(t, 1) == Some(Id(r.ruleId)) && Lookup(t, 2) == Some(Uint(Wrap(r.generation)))
            && Lookup(t, 3) == Some(Str(r.domain)) && Lookup(t, 4) == Some(Str(r.scope))
            && Lookup(t, 5) == Some(Int(r.priority)) && Lookup(t, 6) == Some(Bool(rr.active))
            && Lookup(t, 7) == KindSlot(r.leftKind) && Lookup(t, 8) == KindSlot(r.rightKind)
            && Lookup(t, 9) == Some(Uint(r.kind)) && Lookup(t, 10) == Some(Uint(r.outcome))
  {
    hide RecordOf, ConstraintTrees, TextTrees, Lookup, KindSlot, Wrap;
    LookupSlots(RuleSlots(rr));
  }

  lemma RuleLists(rr: RuleRecord)
    ensures var t, r := RuleTree(rr), rr.rule;
            && Lookup(t, 11) == Some(Sequence(ConstraintTrees(r.required)))
            && Lookup(t, 12) == Some(Sequence(ConstraintTrees(r.anyOf)))
            && Lookup(t, 13) == Some(Sequence(ConstraintTrees(r.incompatibleWith)))
            && Lookup(t, 14) == Some(Sequence(ConstraintTrees(r.conditions)))
            && Lookup(t, 15) == Some(Sequence(TextTrees(r.adaptations))) && Lookup(t, 16) == Some(Str(r.provenance))
  {
    hide RecordOf, ConstraintTrees, TextTrees, Lookup, KindSlot, Wrap;
    LookupSlots(RuleSlots(rr));
  }

  /** A rule comes back whole, but for the mark that it was superseded. */
  lemma RuleBack(rr: RuleRecord)
    requires rr.rule.generation < TWO_64
    ensures RuleOf(RuleTree(rr)) == rr.(superseded := false)
  {
    hide RuleTree, ConstraintTrees, ConstraintsOf, Texts, TextTrees, Lookup;
    RuleFields(rr);
    RuleLists(rr);
    ConstraintsBack(rr.rule.required);
    ConstraintsBack(rr.rule.anyOf);
    ConstraintsBack(rr.rule.incompatibleWith);
    ConstraintsBack(rr.rule.conditions);
    TextsBack(rr.rule.adaptations);
  }

  // ---- Evidence ----

  function EvidenceTree(e: Evidence): Canon {
    Filled([Id(e.id), Id(e.subject), Str(e.field), Record(FieldsOf(e.value)), Str(e.provenance), Str(e.source),
            Uint(Wrap(e.sourceGeneration)), Str(e.observed), Uint(e.kind), Bool(e.validated), Str(e.digestHex)])
  }

  const REPORTED: byte := 1

  function EvidenceOf(t: Canon): Evidence {
    Evidence(IdAt(t, 1), IdAt(t, 2), TextAt(t, 3), RecordAt(t, 4), TextAt(t, 5), TextAt(t, 6), UintAt(t, 7), TextAt(t, 8),
             ByteAt(t, 9, REPORTED), BoolAt(t, 10, false), TextAt(t, 11))
  }

  lemma EvidenceFields(e: Evidence)
    ensures var t := EvidenceTree(e);
            && Lookup(t, 1) == Some(Id(e.id)) && Lookup(t, 2) == Some(Id(e.subject)) && Lookup(t, 3) == Some(Str(e.field))
            && Lookup(t, 4) == Some(Record(FieldsOf(e.value))) && Lookup(t, 5) == Some(Str(e.provenance))
            && Lookup(t, 6) == Some(Str(e.source)) && Lookup(t, 7) == Some(Uint(Wrap(e.sourceGeneration)))
            && Lookup(t, 8) == Some(Str(e.observed)) && Lookup(t, 9) == Some(Uint(e.kind))
            && Lookup(t, 10) == Some(Bool(e.validated)) && Lookup(t, 11) == Some(Str(e.digestHex))
  {
    hide Filled, Lookup, FieldsOf, Wrap;
    LookupFilled([Id(e.id), Id(e.subject), Str(e.field), Record(FieldsOf(e.value)), Str(e.provenance), Str(e.source),
                  Uint(Wrap(e.sourceGeneration)), Str(e.observed), Uint(e.kind), Bool(e.validated), Str(e.digestHex)]);
  }

  lemma EvidenceBack(e: Evidence)
    requires e.sourceGeneration < TWO_64
    ensures EvidenceOf(EvidenceTree(e)) == e.(value := Record(FieldsOf(e.value)))
  {
    hide EvidenceTree, Lookup, FieldsOf;
    EvidenceFields(e);
  }

  // ---- Invalidations ----

  function InvalidationTree(v: Invalidation): Canon {
    Filled([Id(v.target), Uint(Wrap(v.generation)), Str(v.reason), Str(v.fingerprintBefore)])
  }

  function InvalidationOfTree(t: Canon): Invalidation {
    Invalidation(IdAt(t, 1), UintAt(t, 2), TextAt(t, 3), TextAt(t, 4))
  }

  lemma InvalidationBack(v: Invalidation)
    requires v.generation < TWO_64
    ensures InvalidationOfTree(InvalidationTree(v)) == v
  {
    hide Filled, Lookup, FieldsOf;
    LookupFilled([Id(v.target), Uint(Wrap(v.generation)), Str(v.reason), Str(v.fingerprintBefore)]);
  }

  // ---- Decisions ----

  function DecisionValues(d: Decision): Short<Canon> {
    [Id(d.decisionId), Id(d.left), Id(d.right), Uint(d.outcome), Id(d.ruleId), Uint(Wrap(d.ruleGeneration)),
     Id(d.policyId), Uint(Wrap(d.policyGeneration)), Sequence(ItemTrees(d.satisfied)), Sequence(ItemTrees(d.failed)),
     Sequence(TextTrees(d.adaptations)), Sequence(TextTrees(d.missingEvidence)), Sequence(TextTrees(d.provenance)),
     Uint(Wrap(d.registryGeneration)), Bool(d.counterfactual), Bytes(d.digest)]
  }

  function DecisionTree(d: Decision): Canon { Filled(DecisionValues(d)) }

  function DecisionOf(t: Canon): Decision {
    Decision(IdAt(t, 1), IdAt(t, 2), IdAt(t, 3), ByteAt(t, 4, UNKNOWN), IdAt(t, 5), UintAt(t, 6), IdAt(t, 7), UintAt(t, 8),
             ItemsOf(ElemsAt(t, 9)), ItemsOf(ElemsAt(t, 10)), Texts(ElemsAt(t, 11)), Texts(ElemsAt(t, 12)), Texts(ElemsAt(t, 13)),
             UintAt(t, 14), BoolAt(t, 15, false), DigestAt(t, 16))
  }

  lemma DecisionFields(d: Decision)
    ensures var t := DecisionTree(d);
            && Lookup(t, 1) == Some(Id(d.decisionId)) && Lookup(t, 2) == Some(Id(d.left)) && Lookup(t, 3) == Some(Id(d.right))
            && Lookup(t, 4) == Some(Uint(d.outcome)) && Lookup(t, 5) == Some(Id(d.ruleId))
            && Lookup(t, 6) == Some(Uint(Wrap(d.ruleGeneration))) && Lookup(t, 7) == Some(Id(d.policyId))
            && Lookup(t, 8) == Some(Uint(Wrap(d.policyGeneration)))
  {
    hide Filled, Lookup, ItemTrees, TextTrees, Wrap;
    LookupFilled(DecisionValues(d));
  }

  lemma DecisionLists(d: Decision)
    ensures var t := DecisionTree(d);
            && Lookup(t, 9) == Some(Sequence(ItemTrees(d.satisfied))) && Lookup(t, 10) == Some(Sequence(ItemTrees(d.failed)))
            && Lookup(t, 11) == Some(Sequence(TextTrees(d.adaptations)))
            && Lookup(t, 12) == Some(Sequence(TextTrees(d.missingEvidence)))
            && Lookup(t, 13) == Some(Sequence(TextTrees(d.provenance)))
            && Lookup(t, 14) == Some(Uint(Wrap(d.registryGeneration))) && Lookup(t, 15) == Some(Bool(d.counterfactual))
            && Lookup(t, 16) == Some(Bytes(d.digest))
  {
    hide Filled, Lookup, ItemTrees, TextTrees, Wrap;
    LookupFilled(DecisionValues(d));
  }

  lemma DecisionBack(d: Decision)
    requires d.ruleGeneration < TWO_64 && d.policyGeneration < TWO_64 && d.registryGeneration < TWO_64
    ensures DecisionOf(DecisionTree(d)) == d
  {
    hide DecisionTree, ItemTrees, ItemsOf, Texts, TextTrees, Lookup;
    DecisionFields(d);
    DecisionLists(d);
    ItemsBack(d.satisfied);
    ItemsBack(d.failed);
    TextsBack(d.adaptations);
    TextsBack(d.missingEvidence);
    TextsBack(d.provenance);
    assert d.digest[..32] == d.digest;
  }
}
