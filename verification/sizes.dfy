/** How long encodings get, so that small documents are known to have 32-bit lengths. */
module Sizes {
  import opened Prelude
  import opened Canonical
  import opened Documents

  /** A well-formed tree of at most n bytes. */
  predicate Small(c: Canon, n: nat) {
    WellFormed(c) && |Encode(c)| <= n
  }

  lemma OneMore(k: nat, n: nat)
    requires k > 0
    ensures k * n == n + (k - 1) * n
  {
  }

  lemma {:induction false} FieldsSmall(fs: seq<Field>, n: nat)
    requires forall f :: f in fs ==> Small(f.value, n)
    ensures |EncodeFields(fs)| <= |fs| * (4 + n)
  {
    if fs != [] {
      hide Small, Encode;
      IsMember(fs, 0);
      FieldsSmall(fs[1..], n);
      OneFieldSmall(fs[0], n);
      OneMore(|fs|, 4 + n);
    }
  }

  lemma OneFieldSmall(f: Field, n: nat)
    requires Small(f.value, n)
    ensures |EncodeField(f)| <= 4 + n && WellFormedField(f)
  {
    hide WellFormed, Encode;
  }

  lemma {:induction false} ElemsSmall(es: seq<Canon>, n: nat)
    requires forall e :: e in es ==> Small(e, n)
    ensures |EncodeElems(es)| <= |es| * n
  {
    if es != [] {
      hide Small, Encode;
      IsMember(es, 0);
      ElemsSmall(es[1..], n);
      OneElemSmall(es[0], n);
      OneMore(|es|, n);
    }
  }

  lemma OneElemSmall(e: Canon, n: nat)
    requires Small(e, n)
    ensures |Encode(e)| <= n && WellFormed(e)
  {
  }

  lemma SequenceWellFormed(es: seq<Canon>)
    requires WellFormedElems(es) && |EncodeElems(es)| < TWO_32
    ensures WellFormed(Sequence(es))
  {
  }

  lemma SequenceSmall(es: seq<Canon>, n: nat, total: nat)
    requires forall e :: e in es ==> Small(e, n)
    requires |es| * n + 5 <= total < TWO_32
    ensures Small(Sequence(es), total)
  {
    hide Encode, EncodeElems, WellFormed;
    ElemsSmall(es, n);
    forall e | e in es ensures WellFormed(e) {
      OneElemSmall(e, n);
    }
    BodySize(Sequence(es));
    SequenceWellFormed(es);
  }

  lemma BodySize(c: Canon)
    ensures |Encode(c)| == 5 + |Body(c)|
    ensures c.Record? ==> Body(c) == EncodeFields(c.fields)
    ensures c.Sequence? ==> Body(c) == EncodeElems(c.elems)
  {
  }

  lemma RecordSmall(fs: seq<Field>, n: nat, total: nat)
    requires StrictTags(fs) && forall f :: f in fs ==> Small(f.value, n)
    requires |fs| * (4 + n) + 5 <= total < TWO_32
    ensures Small(Record(fs), total)
  {
    hide Encode, EncodeFields, WellFormed;
    FieldsSmall(fs, n);
    forall f | f in fs ensures WellFormedField(f) {
      OneFieldSmall(f, n);
    }
    BodySize(Record(fs));
    RecordWellFormed(fs);
  }

  lemma RecordWellFormed(fs: seq<Field>)
    requires WellFormedFields(fs) && |EncodeFields(fs)| < TWO_32
    ensures WellFormed(Record(fs))
  {
  }

  lemma {:induction false} SlotValues(slots: seq<Option<Canon>>, tag: nat)
    requires tag + |slots| <= TWO_32
    ensures |Slots(slots, tag)| <= |slots|
    ensures forall f :: f in Slots(slots, tag) ==> Some(f.value) in slots
    decreases |slots|
  {
    if slots != [] {
      SlotValues(slots[1..], tag + 1);
      IsMember(slots, 0);
    }
  }

  lemma FilledSmall(vs: Short<Canon>, n: nat, total: nat)
    requires forall v :: v in vs ==> Small(v, n)
    requires |vs| * (4 + n) + 5 <= total < TWO_32
    ensures Small(Filled(vs), total)
  {
    hide Small, Slots;
    var slots := seq(|vs|, i requires 0 <= i < |vs| => Some(vs[i]));
    SlotValues(slots, 1);
    StrictSlots(slots, 1);
    var fs := Slots(slots, 1);
    forall f | f in fs ensures Small(f.value, n) {
      var i :| 0 <= i < |slots| && slots[i] == Some(f.value);
      IsMember(vs, i);
    }
    assert |fs| * (4 + n) <= |vs| * (4 + n);
    RecordSmall(fs, n, total);
  }

  lemma ScalarsSmall(n: nat, id: Uuid, b: bool, t: Text)
    requires n < TWO_64 && |t| <= 64
    ensures Small(Uint(n), 69) && Small(Id(id), 69) && Small(Bool(b), 69) && Small(Str(t), 69)
    ensures Small(Null, 5) && Small(Id(id), 21)
  {
    hide Write;
    BodySize(Uint(n));
    BodySize(Id(id));
    BodySize(Bool(b));
    BodySize(Str(t));
    BodySize(Null);
  }

  /** An enumeration has no more entries than there are keys. */
  lemma {:induction false} EnumerationSize<K(!new)>(keys: seq<K>, all: set<K>)
    requires forall i, j :: 0 <= i < j < |keys| ==> keys[i] != keys[j]
    requires forall k :: k in keys ==> k in all
    ensures |keys| <= |all|
  {
    if keys != [] {
      var k := keys[0];
      IsMember(keys, 0);
      forall x | x in keys[1..] ensures x in all - {k} {
        var i :| 0 <= i < |keys[1..]| && keys[1..][i] == x;
        assert keys[i + 1] == x;
      }
      EnumerationSize(keys[1..], all - {k});
    }
  }
}
