/** Sorted lists of ids without repetition, as std::sort and std::unique leave them. */
module Uuids {
  import opened Prelude

  function InsertUnique(x: Uuid, s: seq<Uuid>): seq<Uuid> {
    if s == [] || Less(x, s[0]) then [x] + s
    else if x == s[0] then s
    else [s[0]] + InsertUnique(x, s[1..])
  }

  function SortUnique(s: seq<Uuid>): seq<Uuid> {
    if s == [] then [] else InsertUnique(s[0], SortUnique(s[1..]))
  }

  ghost predicate Increasing(s: seq<Uuid>) {
    forall i, j :: 0 <= i < j < |s| ==> Less(s[i], s[j])
  }

  lemma {:induction false} InsertUniqueMembers(x: Uuid, s: seq<Uuid>)
    ensures forall y :: y in InsertUnique(x, s) <==> y == x || y in s
  {
    if s != [] && !Less(x, s[0]) && x != s[0] {
      InsertUniqueMembers(x, s[1..]);
      assert forall y :: y in s <==> y == s[0] || y in s[1..];
    }
  }

  lemma {:induction false} InsertUniqueIncreases(x: Uuid, s: seq<Uuid>)
    requires Increasing(s)
    ensures Increasing(InsertUnique(x, s))
  {
    if s != [] {
      LessTotal(x, s[0]);
      if Less(x, s[0]) {
        forall j | 1 <= j < |s| ensures Less(x, s[j]) {
          LessTransitive(x, s[0], s[j]);
        }
      } else if x != s[0] {
        var t := InsertUnique(x, s[1..]);
        InsertUniqueIncreases(x, s[1..]);
        InsertUniqueMembers(x, s[1..]);
        forall j | 0 <= j < |t| ensures Less(s[0], t[j]) {
          assert t[j] in t;
        }
      }
    }
  }

  lemma {:induction false} SortUniqueSorts(s: seq<Uuid>)
    ensures Increasing(SortUnique(s)) && forall y :: y in SortUnique(s) <==> y in s
  {
    if s != [] {
      SortUniqueSorts(s[1..]);
      InsertUniqueIncreases(s[0], SortUnique(s[1..]));
      InsertUniqueMembers(s[0], SortUnique(s[1..]));
      assert forall y :: y in s <==> y == s[0] || y in s[1..];
    }
  }

  /** Such a list is determined by its members. */
  lemma {:induction false} IncreasingUnique(a: seq<Uuid>, b: seq<Uuid>)
    requires Increasing(a) && Increasing(b) && forall y :: y in a <==> y in b
    ensures a == b
  {
    if a != [] && b != [] {
      SameLeast(a, b);
      forall y ensures y in a[1..] <==> y in b[1..] {
        TailMember(a, y);
        TailMember(b, y);
      }
      IncreasingUnique(a[1..], b[1..]);
      assert a == [a[0]] + a[1..] && b == [b[0]] + b[1..];
    } else {
      assert a == [] ==> forall y :: y !in b;
      assert b == [] ==> forall y :: y !in a;
      if a == [] { NoMembers(b); } else { NoMembers(a); }
    }
  }

  lemma TailMember(a: seq<Uuid>, y: Uuid)
    requires Increasing(a) && a != []
    ensures y in a[1..] <==> y in a && y != a[0]
  {
    LessIrreflexive(y);
    assert a == [a[0]] + a[1..];
    assert y in a[1..] ==> Less(a[0], y);
  }

  lemma SameLeast(a: seq<Uuid>, b: seq<Uuid>)
    requires Increasing(a) && Increasing(b) && a != [] && b != []
    requires forall y :: y in a <==> y in b
    ensures a[0] == b[0]
  {
    assert a[0] in b && b[0] in a;
    if a[0] != b[0] {
      assert Less(a[0], b[0]) && Less(b[0], a[0]);
      LessTransitive(a[0], b[0], a[0]);
      LessIrreflexive(a[0]);
      assert false;
    }
  }
}
