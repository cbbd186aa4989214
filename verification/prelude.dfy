/** Integer widths, byte strings, identifiers and the big-endian words of the wire formats. */
module Prelude {

  datatype Option<+T> = None | Some(value: T)

  // A C++ exception is Err; which message it carries is not modelled.
  datatype Result<+T> = Ok(value: T) | Err

  const TWO_32: int := 0x1_0000_0000
  const TWO_64: int := 0x1_0000_0000_0000_0000

  type byte = x: int | 0 <= x < 256
  type u32 = x: int | 0 <= x < TWO_32
  type u64 = x: int | 0 <= x < TWO_64
  type i32 = x: int | -0x8000_0000 <= x < 0x8000_0000
  type i64 = x: int | -0x8000_0000_0000_0000 <= x < 0x8000_0000_0000_0000

  // std::string and byte buffers alike.
  type Text = seq<byte>

  type Uuid = b: Text | |b| == 16 witness Zeros(16)
  type Digest = b: Text | |b| == 32 witness Zeros(32)

  function Zeros(n: nat): (b: Text)
    ensures |b| == n
  {
    if n == 0 then [] else [0] + Zeros(n - 1)
  }

  const ZERO_UUID: Uuid := Zeros(16)
  const ZERO_DIGEST: Digest := Zeros(32)

  /** The bytes of an ASCII literal. */
  function Ascii(s: string): (t: Text)
    ensures |t| == |s|
  {
    seq(|s|, i requires 0 <= i < |s| => s[i] as int % 256)
  }

  // Big-endian words of n bytes. A value that is too large loses its high bits, as a narrowing
  // cast does.

  function Write(v: nat, n: nat): (b: Text)
    ensures |b| == n
    decreases n
  {
    if n == 0 then [] else Write(v / 256, n - 1) + [v % 256]
  }

  function Read(b: Text): (v: nat)
    ensures v < Range(|b|)
  {
    if b == [] then 0 else Read(b[..|b| - 1]) * 256 + b[|b| - 1] as int
  }

  function Range(n: nat): (r: nat)
    ensures r > 0
  {
    if n == 0 then 1 else 256 * Range(n - 1)
  }

  lemma Ranges()
    ensures Range(4) == TWO_32 && Range(8) == TWO_64
  {
  }

  lemma {:induction false} ReadWrite(v: nat, n: nat)
    ensures Read(Write(v, n)) == v % Range(n)
    decreases n
  {
    if n > 0 {
      ReadWrite(v / 256, n - 1);
      assert Write(v, n)[..n - 1] == Write(v / 256, n - 1);
      ShiftRemainder(v, Range(n - 1));
    }
  }

  lemma ShiftRemainder(v: nat, m: nat)
    requires m > 0
    ensures v / 256 % m * 256 + v % 256 == v % (256 * m)
  {
    var q, r := v / 256 / m, v / 256 % m;
    assert v == (q * m + r) * 256 + v % 256;
    assert q * m * 256 == q * (256 * m);
    Remainder(v, 256 * m, q, r * 256 + v % 256);
  }

  lemma {:induction false} WriteRead(b: Text)
    ensures Write(Read(b), |b|) == b
  {
    if b != [] {
      WriteRead(b[..|b| - 1]);
      assert b == b[..|b| - 1] + [b[|b| - 1]];
    }
  }

  lemma WriteInjective(u: nat, v: nat, n: nat)
    requires u < Range(n) && v < Range(n) && Write(u, n) == Write(v, n)
    ensures u == v
  {
    ReadWrite(u, n);
    ReadWrite(v, n);
  }

  lemma IsMember<T>(s: seq<T>, i: nat)
    requires i < |s|
    ensures s[i] in s
  {
  }

  lemma NoMembers<T(!new)>(s: seq<T>)
    requires forall x :: x !in s
    ensures s == []
  {
    if |s| > 0 {
      IsMember(s, 0);
    }
  }

  lemma ThreeParts<T>(s: seq<T>, a: seq<T>, b: seq<T>, c: seq<T>)
    requires |s| == |a| + |b| + |c|
    ensures s == a + b + c <==> s[..|a|] == a && s[|a|..|a| + |b|] == b && s[|a| + |b|..] == c
  {
    var i, j := |a|, |a| + |b|;
    if s[..i] == a && s[i..j] == b && s[j..] == c {
      assert s == s[..i] + s[i..j] + s[j..];
    }
    if s == a + b + c {
      assert s[..i] == a;
      assert s[i..j] == b;
      assert s[j..] == c;
    }
  }

  lemma SliceOfSlice<T>(s: seq<T>, a: nat, b: nat, i: nat, j: nat)
    requires a <= b <= |s| && i <= j <= b - a
    ensures s[a..b][i..j] == s[a + i..a + j]
  {
    var x, y := s[a..b][i..j], s[a + i..a + j];
    assert forall k :: 0 <= k < j - i ==> x[k] == s[a..b][i + k] == s[a + i + k] == y[k];
  }

  lemma Remainder(v: int, m: int, q: int, r: int)
    requires 0 <= r < m && v == q * m + r
    ensures v % m == r && v / m == q
  {
    var d := v / m - q;
    assert d * m == r - v % m;
    assert d >= 1 ==> d * m >= m;
    assert d <= -1 ==> d * m <= -m;
  }

  // Uuid::operator<, the lexicographic order of byte strings.
  predicate Less(a: Text, b: Text) {
    if b == [] then false
    else if a == [] then true
    else a[0] < b[0] || (a[0] == b[0] && Less(a[1..], b[1..]))
  }

  lemma LessIrreflexive(a: Text)
    ensures !Less(a, a)
  {
  }

  lemma LessTotal(a: Text, b: Text)
    ensures a == b || Less(a, b) || Less(b, a)
  {
    if a != [] && b != [] && a[0] == b[0] {
      LessTotal(a[1..], b[1..]);
      assert a == [a[0]] + a[1..] && b == [b[0]] + b[1..];
    }
  }

  lemma LessTransitive(a: Text, b: Text, c: Text)
    requires Less(a, b) && Less(b, c)
    ensures Less(a, c)
  {
  }
}
