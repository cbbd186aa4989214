/** Building records from fields in any order, and looking a field up by its tag. */
module Records {
  import opened Prelude
  import opened Canonical

  // std::sort by tag.
  function InsertField(f: Field, fs: seq<Field>): seq<Field> {
    if fs == [] || f.tag <= fs[0].tag then [f] + fs else [fs[0]] + InsertField(f, fs[1..])
  }

  function SortFields(fs: seq<Field>): seq<Field> {
    if fs == [] then [] else InsertField(fs[0], SortFields(fs[1..]))
  }

  predicate AdjacentDuplicate(fs: seq<Field>) {
    exists i :: 1 <= i < |fs| && fs[i].tag == fs[i - 1].tag
  }

  /** Sorts the fields by tag and refuses two of the same tag. */
  function MkRecord(fs: seq<Field>): Result<Canon> {
    var sorted := SortFields(fs);
    if AdjacentDuplicate(sorted) then Err else Ok(Record(sorted))
  }

  // std::lower_bound, then a test for the tag itself.
  function FindField(fs: seq<Field>, tag: nat): Option<Canon> {
    if fs == [] then None
    else if fs[0].tag < tag then FindField(fs[1..], tag)
    else if fs[0].tag == tag then Some(fs[0].value)
    else None
  }

  /** Canon::field. */
  function Lookup(c: Canon, tag: nat): Option<Canon> {
    if c.Record? then FindField(c.fields, tag) else None
  }

  // ---- Properties ----

  predicate SortedTags(fs: seq<Field>) {
    forall i, j :: 0 <= i < j < |fs| ==> fs[i].tag <= fs[j].tag
  }

  predicate DistinctTags(fs: seq<Field>) {
    forall i, j :: 0 <= i < j < |fs| ==> fs[i].tag != fs[j].tag
  }

  lemma {:induction false} InsertFieldKeeps(f: Field, fs: seq<Field>)
    ensures multiset(InsertField(f, fs)) == multiset(fs) + multiset{f}
  {
    if fs != [] {
      assert fs == [fs[0]] + fs[1..];
      InsertFieldKeeps(f, fs[1..]);
    }
  }

  lemma {:induction false} InsertFieldSorts(f: Field, fs: seq<Field>)
    requires SortedTags(fs)
    ensures SortedTags(InsertField(f, fs))
  {
    if fs != [] && fs[0].tag < f.tag {
      InsertFieldSorts(f, fs[1..]);
      InsertFieldKeeps(f, fs[1..]);
      forall g | g in InsertField(f, fs[1..]) ensures fs[0].tag <= g.tag {
        assert g in multiset(InsertField(f, fs[1..]));
        assert g == f || g in fs[1..];
      }
    }
  }

  lemma {:induction false} SortFieldsSorts(fs: seq<Field>)
    ensures SortedTags(SortFields(fs)) && multiset(SortFields(fs)) == multiset(fs)
  {
    if fs != [] {
      SortFieldsSorts(fs[1..]);
      InsertFieldSorts(fs[0], SortFields(fs[1..]));
      InsertFieldKeeps(fs[0], SortFields(fs[1..]));
      assert fs == [fs[0]] + fs[1..];
    }
  }

  lemma SameFirst(a: seq<Field>, b: seq<Field>)
    requires StrictTags(a) && StrictTags(b) && multiset(a) == multiset(b) && a != []
    ensures b != [] && a[0] == b[0]
  {
    assert a[0] in multiset(b);
    assert b[0] in multiset(a);
    var i :| 0 <= i < |a| && a[i] == b[0];
    var j :| 0 <= j < |b| && b[j] == a[0];
  }

  lemma SameRest<T>(a: seq<T>, b: seq<T>)
    requires a != [] && b != [] && a[0] == b[0] && multiset(a) == multiset(b)
    ensures multiset(a[1..]) == multiset(b[1..])
  {
    assert a == [a[0]] + a[1..] && b == [b[0]] + b[1..];
    assert multiset(a[1..]) == multiset(a) - multiset{a[0]};
    assert multiset(b[1..]) == multiset(b) - multiset{b[0]};
  }

  /** Two strictly ordered sequences of the same fields are the same sequence. */
  lemma {:induction false} StrictTagsUnique(a: seq<Field>, b: seq<Field>)
    requires StrictTags(a) && StrictTags(b) && multiset(a) == multiset(b)
    ensures a == b
  {
    if a == [] {
      assert |multiset(b)| == 0;
    } else {
      SameFirst(a, b);
      SameRest(a, b);
      StrictTagsUnique(a[1..], b[1..]);
      assert a == [a[0]] + a[1..] && b == [b[0]] + b[1..];
    }
  }

  lemma CountsTwice<T>(s: seq<T>, i: nat, j: nat)
    requires i < j < |s| && s[i] == s[j]
    ensures multiset(s)[s[i]] >= 2
  {
    assert s == s[..j] + s[j..];
    assert s[i] == s[..j][i] && s[j] == s[j..][0];
    assert s[i] in multiset(s[..j]) && s[j] in multiset(s[j..]);
  }

  lemma CountsOnce<T>(s: seq<T>, p: nat)
    requires p < |s| && forall q :: 0 <= q < |s| && q != p ==> s[q] != s[p]
    ensures multiset(s)[s[p]] == 1
  {
    assert s == s[..p] + ([s[p]] + s[p + 1..]);
    assert s[p] !in s[..p] && s[p] !in s[p + 1..];
    assert s[p] !in multiset(s[..p]) && s[p] !in multiset(s[p + 1..]);
  }

  lemma DistinctTagsPermutation(a: seq<Field>, b: seq<Field>)
    requires multiset(a) == multiset(b) && DistinctTags(a)
    ensures DistinctTags(b)
  {
    forall i, j | 0 <= i < j < |b| ensures b[i].tag != b[j].tag {
      assert b[i] in multiset(a) && b[j] in multiset(a);
      var p :| 0 <= p < |a| && a[p] == b[i];
      var q :| 0 <= q < |a| && a[q] == b[j];
      if b[i].tag == b[j].tag {
        CountsTwice(b, i, j);
        CountsOnce(a, p);
        assert false;
      }
    }
  }

  /** mk_record accepts exactly the field lists without a repeated tag, and keeps the fields. */
  lemma MkRecordAccepts(fs: seq<Field>)
    ensures MkRecord(fs).Ok? <==> DistinctTags(fs)
    ensures MkRecord(fs).Ok? ==>
              && MkRecord(fs).value.Record?
              && StrictTags(MkRecord(fs).value.fields)
              && multiset(MkRecord(fs).value.fields) == multiset(fs)
  {
    var s := SortFields(fs);
    SortFieldsSorts(fs);
    if AdjacentDuplicate(s) {
      assert !DistinctTags(s);
      if DistinctTags(fs) { DistinctTagsPermutation(fs, s); }
    } else {
      NoAdjacentDuplicate(s);
      DistinctTagsPermutation(s, fs);
    }
  }

  lemma {:induction false} NoAdjacentDuplicate(fs: seq<Field>)
    requires SortedTags(fs) && !AdjacentDuplicate(fs)
    ensures StrictTags(fs)
  {
    forall i, j | 0 <= i < j < |fs| ensures fs[i].tag < fs[j].tag {
      assert fs[j - 1].tag != fs[j].tag;
    }
  }

  /** The order in which fields are put into a record does not show. */
  lemma MkRecordPermutation(a: seq<Field>, b: seq<Field>)
    requires multiset(a) == multiset(b)
    ensures MkRecord(a) == MkRecord(b)
  {
    MkRecordAccepts(a);
    MkRecordAccepts(b);
    if MkRecord(a).Ok? {
      DistinctTagsPermutation(a, b);
      StrictTagsUnique(MkRecord(a).value.fields, MkRecord(b).value.fields);
    } else if MkRecord(b).Ok? {
      DistinctTagsPermutation(b, a);
    }
  }

  lemma {:induction false} FindFieldMeaning(fs: seq<Field>, tag: nat)
    requires StrictTags(fs)
    ensures forall i :: 0 <= i < |fs| && fs[i].tag == tag ==> FindField(fs, tag) == Some(fs[i].value)
    ensures (forall i :: 0 <= i < |fs| ==> fs[i].tag != tag) ==> FindField(fs, tag) == None
  {
    if fs != [] && fs[0].tag < tag {
      FindFieldMeaning(fs[1..], tag);
      assert forall i :: 1 <= i < |fs| ==> fs[i] == fs[1..][i - 1];
    }
  }

  /** What was put under a tag, in any order, is what is found under it. */
  lemma LookupFindsField(fs: seq<Field>, c: Canon, tag: nat)
    requires MkRecord(fs) == Ok(c)
    ensures forall v :: Lookup(c, tag) == Some(v) <==> exists f :: f in fs && f.tag == tag && f.value == v
  {
    MkRecordAccepts(fs);
    FindFieldMeaning(c.fields, tag);
    forall f ensures f in fs <==> f in c.fields {
      assert f in fs <==> f in multiset(fs);
      assert f in c.fields <==> f in multiset(c.fields);
    }
  }
}
