/** Reading version strings and comparing versions. */
module Versions {
  import opened Prelude
  import opened Canonical

  datatype Version = Version(major: u64, minor: u64)

  const DOT: byte := 46

  predicate IsDigit(c: byte) { 48 <= c <= 57 }

  predicate Kept(c: byte) { IsDigit(c) || c == DOT }

  /** The digits and dots of a text, in order. */
  function Keep(s: Text): Text {
    if s == [] then []
    else if Kept(s[|s| - 1]) then Keep(s[..|s| - 1]) + [s[|s| - 1]]
    else Keep(s[..|s| - 1])
  }

  /** std::string::find; the length stands for npos. */
  function IndexOf(s: Text, c: byte): (i: nat)
    ensures i <= |s| && (i < |s| ==> s[i] == c) && forall j :: 0 <= j < i ==> s[j] != c
  {
    if s == [] || s[0] == c then 0 else 1 + IndexOf(s[1..], c)
  }

  function DigitRun(s: Text): (n: nat)
    ensures n <= |s| && (forall i :: 0 <= i < n ==> IsDigit(s[i])) && (n < |s| ==> !IsDigit(s[n]))
  {
    if s == [] || !IsDigit(s[0]) then 0 else 1 + DigitRun(s[1..])
  }

  function ValueOf(digits: Text): nat
    requires forall i :: 0 <= i < |digits| ==> IsDigit(digits[i])
  {
    if digits == [] then 0
    else
      var c := digits[|digits| - 1];
      assert IsDigit(c);
      ValueOf(digits[..|digits| - 1]) * 10 + (c as int - 48)
  }

  /**
    * parse_num into a variable that holds zero, its result ignored: std::from_chars reads the leading
    * digits even if more follows, and leaves the variable alone if there are none or they overflow.
    */
  function ParseNum(s: Text): u64 {
    var v := ValueOf(s[..DigitRun(s)]);
    if v < TWO_64 then v else 0
  }

  function VersionIn(s: Text): Version {
    var t := Keep(s);
    var dot := IndexOf(t, DOT);
    if dot == |t| then Version(ParseNum(t), 0) else Version(ParseNum(t[..dot]), ParseNum(t[dot + 1..]))
  }

  method ParseVer(s: Text) returns (v: Version)
    ensures v == VersionIn(s)
  {
    var t: Text := [];
    var i := 0;
    while i < |s|
      invariant 0 <= i <= |s|
      invariant t == Keep(s[..i])
    {
      assert s[..i + 1][..i] == s[..i];
      if Kept(s[i]) {
        t := t + [s[i]];
      }
      i := i + 1;
    }
    assert s[..i] == s;
    var dot := IndexOf(t, DOT);
    if dot == |t| {
      v := Version(ParseNum(t), 0);
    } else {
      v := Version(ParseNum(t[..dot]), ParseNum(t[dot + 1..]));
    }
  }

  /** The version an operand of a version relation stands for; as_string throws on other kinds. */
  function VersionOf(c: Canon): Result<Version> {
    match c
    case Uint(u) => Ok(Version(u, 0))
    case Str(s) => Ok(VersionIn(s))
    case Bytes(s) => Ok(VersionIn(s))
    case _ => Err
  }

  function CompareVersions(a: Version, b: Version): int {
    if a.major != b.major then (if a.major < b.major then -1 else 1)
    else if a.minor != b.minor then (if a.minor < b.minor then -1 else 1)
    else 0
  }

  function CmpVer(a: Canon, b: Canon): Result<int> {
    if VersionOf(a).Ok? && VersionOf(b).Ok?
    then Ok(CompareVersions(VersionOf(a).value, VersionOf(b).value))
    else Err
  }

  // ---- Printed versions are read back ----

  function Decimal(n: nat): Text {
    if n < 10 then [48 + n] else Decimal(n / 10) + [48 + n % 10]
  }

  lemma {:induction false} DecimalValue(n: nat)
    ensures Decimal(n) != [] && forall i :: 0 <= i < |Decimal(n)| ==> IsDigit(Decimal(n)[i])
    ensures ValueOf(Decimal(n)) == n
  {
    if n >= 10 {
      DecimalValue(n / 10);
      assert Decimal(n)[..|Decimal(n)| - 1] == Decimal(n / 10);
    } else {
      assert Decimal(n)[..0] == [];
    }
  }

  lemma DigitRunStops(digits: Text, rest: Text)
    requires forall i :: 0 <= i < |digits| ==> IsDigit(digits[i])
    requires rest == [] || !IsDigit(rest[0])
    ensures DigitRun(digits + rest) == |digits|
  {
    var n, s := DigitRun(digits + rest), digits + rest;
    assert forall i :: 0 <= i < |digits| ==> s[i] == digits[i];
    assert rest != [] ==> s[|digits|] == rest[0];
  }

  lemma ParseNumReads(n: u64, rest: Text)
    requires rest == [] || !IsDigit(rest[0])
    ensures ParseNum(Decimal(n) + rest) == n
  {
    DecimalValue(n);
    DigitRunStops(Decimal(n), rest);
    assert (Decimal(n) + rest)[..|Decimal(n)|] == Decimal(n);
  }

  /**
    * Whatever stands between the digits and dots, the first two printed numbers are read back; a second
    * dot and what follows it are ignored.
    */
  lemma VersionRoundTrip(s: Text, major: u64, minor: u64, rest: Text)
    requires Keep(s) == Decimal(major) + [DOT] + Decimal(minor) + rest
    requires rest == [] || rest[0] == DOT
    ensures VersionIn(s) == Version(major, minor)
  {
    hide Decimal, Keep, ParseNum;
    DecimalValue(major);
    Associate(Decimal(major) + [DOT], Decimal(minor), rest);
    CutAtDot(Keep(s), Decimal(major), Decimal(minor) + rest);
    assert Decimal(major) + [] == Decimal(major);
    ParseNumReads(major, []);
    ParseNumReads(minor, rest);
  }

  lemma CutAtDot(t: Text, a: Text, b: Text)
    requires t == a + [DOT] + b && forall i :: 0 <= i < |a| ==> a[i] != DOT
    ensures IndexOf(t, DOT) == |a| && t[..|a|] == a && t[|a| + 1..] == b
  {
    var n := IndexOf(t, DOT);
    assert t[|a|] == DOT;
    assert forall i :: 0 <= i < |a| ==> t[i] == a[i];
  }

  lemma MajorRoundTrip(s: Text, major: u64)
    requires Keep(s) == Decimal(major)
    ensures VersionIn(s) == Version(major, 0)
  {
    DecimalValue(major);
    assert Keep(s) == Decimal(major) + [];
    ParseNumReads(major, []);
  }

  /** Comparison is a total preorder on the operands that have a version. */
  lemma CmpVerPreorder(a: Canon, b: Canon, c: Canon)
    requires VersionOf(a).Ok? && VersionOf(b).Ok? && VersionOf(c).Ok?
    ensures CmpVer(a, a) == Ok(0)
    ensures CmpVer(a, b).value == -CmpVer(b, a).value
    ensures CmpVer(a, b).value <= 0 && CmpVer(b, c).value <= 0 ==> CmpVer(a, c).value <= 0
    ensures CmpVer(a, b).value < 0 && CmpVer(b, c).value <= 0 ==> CmpVer(a, c).value < 0
    ensures CmpVer(a, b).value == 0 <==> VersionOf(a) == VersionOf(b)
  {
  }
}
