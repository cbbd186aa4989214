/** The canonical value tree and the binary encoding that every fingerprint, digest and id is taken over. */
module Canonical {
  import opened Prelude

  datatype Field = Field(tag: u32, value: Canon)

  datatype Canon =
    | Null
    | Uint(u: u64)
    | Int(i: i64)
    | Bool(b: bool)
    | Str(s: Text)
    | Bytes(s: Text)
    | Id(id: Uuid)
    | Float(bits: u64)  // the 64 bits of a double
    | Record(fields: seq<Field>)
    | Sequence(elems: seq<Canon>)

  function Tag(c: Canon): (t: byte) {
    match c
    case Null => 0
    case Uint(_) => 1
    case Int(_) => 2
    case Bool(_) => 3
    case Str(_) => 4
    case Bytes(_) => 5
    case Id(_) => 6
    case Float(_) => 7
    case Record(_) => 8
    case Sequence(_) => 9
  }

  // ---- Encoding ----

  // std::bit_cast between int64_t and uint64_t.
  function BitsOfInt(i: i64): u64 { if i < 0 then i + TWO_64 else i }

  function IntOfBits(bits: u64): i64 { if bits < 0x8000_0000_0000_0000 then bits else bits - TWO_64 }

  /** One element: kind byte, length of the body in 32 bits, body. */
  function Encode(c: Canon): (b: Text)
    ensures |b| == 5 + |Body(c)|
    decreases c, 1
  {
    Framed(Tag(c), Body(c))
  }

  function Framed(kind: byte, body: Text): (b: Text)
    ensures |b| == 5 + |body|
  {
    [kind] + Write(|body|, 4) + body
  }

  function Body(c: Canon): Text
    decreases c, 0
  {
    match c
    case Null => []
    case Uint(u) => Write(u, 8)
    case Int(i) => Write(BitsOfInt(i), 8)
    case Bool(b) => [if b then 1 else 0]
    case Str(s) => s
    case Bytes(s) => s
    case Id(id) => id
    case Float(bits) => Write(bits, 8)
    case Record(fs) => EncodeFields(fs)
    case Sequence(es) => EncodeElems(es)
  }

  function EncodeFields(fs: seq<Field>): Text
    decreases fs
  {
    if fs == [] then [] else EncodeField(fs[0]) + EncodeFields(fs[1..])
  }

  function EncodeField(f: Field): Text
    decreases f
  {
    Write(f.tag, 4) + Encode(f.value)
  }

  function EncodeElems(es: seq<Canon>): Text
    decreases es
  {
    if es == [] then [] else Encode(es[0]) + EncodeElems(es[1..])
  }

  const MAGIC: Text := [0x43, 0x52, 0x43, 0x46]  // "CRCF"
  const VERSION: byte := 1

  function CanonicalEncode(c: Canon): Text {
    MAGIC + [VERSION] + Encode(c)
  }

  // ---- Well-formed trees ----

  // mk_float refuses NaN and infinities: all exponent bits set.
  predicate Finite(bits: u64) { bits / 0x10_0000_0000_0000 % 2048 != 2047 }

  predicate StrictTags(fs: seq<Field>) {
    forall i, j :: 0 <= i < j < |fs| ==> fs[i].tag < fs[j].tag
  }

  /** What the mk_ functions build, with every body short enough for its 32-bit length. */
  predicate WellFormed(c: Canon) {
    && |Body(c)| < TWO_32
    && match c
       case Float(bits) => Finite(bits)
       case Record(fs) => WellFormedFields(fs)
       case Sequence(es) => WellFormedElems(es)
       case _ => true
  }

  predicate WellFormedFields(fs: seq<Field>) {
    StrictTags(fs) && forall f | f in fs :: WellFormedField(f)
  }

  predicate WellFormedField(f: Field)
    decreases f
  {
    WellFormed(f.value)
  }

  predicate WellFormedElems(es: seq<Canon>) {
    forall e | e in es :: WellFormed(e)
  }

  // ---- The encoding is uniquely readable ----

  lemma {:induction false} EncodeFieldsAppend(a: seq<Field>, b: seq<Field>)
    ensures EncodeFields(a + b) == EncodeFields(a) + EncodeFields(b)
  {
    if a == [] {
      assert a + b == b;
    } else {
      assert (a + b)[1..] == a[1..] + b;
      EncodeFieldsAppend(a[1..], b);
    }
  }

  lemma {:induction false} EncodeElemsAppend(a: seq<Canon>, b: seq<Canon>)
    ensures EncodeElems(a + b) == EncodeElems(a) + EncodeElems(b)
  {
    if a == [] {
      assert a + b == b;
    } else {
      assert (a + b)[1..] == a[1..] + b;
      EncodeElemsAppend(a[1..], b);
    }
  }

  lemma SplitEqual(a: Text, x: Text, b: Text, y: Text)
    requires a + x == b + y && |a| == |b|
    ensures a == b && x == y
  {
    assert (a + x)[..|a|] == a && (b + y)[..|b|] == b;
    assert (a + x)[|a|..] == x && (b + y)[|b|..] == y;
  }

  lemma Associate(a: Text, b: Text, c: Text)
    ensures (a + b) + c == a + (b + c)
  {
  }

  lemma FramedPrefixFree(k: byte, a: Text, x: Text, l: byte, b: Text, y: Text)
    requires |a| < TWO_32 && |b| < TWO_32
    requires Framed(k, a) + x == Framed(l, b) + y
    ensures k == l && a == b && x == y
  {
    var s := Framed(k, a) + x;
    var t := Framed(l, b) + y;
    assert k == s[0] == t[0] == l;
    assert Write(|a|, 4) == s[1..5] == t[1..5] == Write(|b|, 4);
    Ranges();
    WriteInjective(|a|, |b|, 4);
    assert a == s[5..5 + |a|] == t[5..5 + |a|] == b;
    SplitEqual(Framed(k, a), x, Framed(l, b), y);
  }

  /** No encoding is a proper prefix of another, and equal encodings have equal trees. */
  lemma {:induction false} PrefixFree(a: Canon, x: Text, b: Canon, y: Text)
    requires WellFormed(a) && WellFormed(b)
    requires Encode(a) + x == Encode(b) + y
    ensures a == b && x == y
    decreases a, 1
  {
    FramedPrefixFree(Tag(a), Body(a), x, Tag(b), Body(b), y);
    BodyInjective(a, b);
  }

  lemma {:induction false} BodyInjective(a: Canon, b: Canon)
    requires WellFormed(a) && WellFormed(b)
    requires Tag(a) == Tag(b) && Body(a) == Body(b)
    ensures a == b
    decreases a, 0
  {
    if a.Record? {
      Unframed(EncodeFields(a.fields));
      FieldsCut(a.fields, [], b.fields);
    } else if a.Sequence? {
      Unframed(EncodeElems(a.elems));
      ElemsCut(a.elems, [], b.elems);
    } else {
      ScalarBodyInjective(a, b);
    }
  }

  lemma Unframed(t: Text)
    ensures t + [] == t
  {
  }

  lemma ScalarBodyInjective(a: Canon, b: Canon)
    requires !a.Record? && !a.Sequence?
    requires Tag(a) == Tag(b) && Body(a) == Body(b)
    ensures a == b
  {
    Ranges();
    match a {
      case Uint(u) => WriteInjective(u, b.u, 8);
      case Int(i) => WriteInjective(BitsOfInt(i), BitsOfInt(b.i), 8);
      case Float(bits) => WriteInjective(bits, b.bits, 8);
      case _ =>
    }
  }

  lemma {:induction false} FieldPrefixFree(f: Field, x: Text, g: Field, y: Text)
    requires WellFormed(f.value) && WellFormed(g.value)
    requires EncodeField(f) + x == EncodeField(g) + y
    ensures f == g && x == y
    decreases f
  {
    Associate(Write(f.tag, 4), Encode(f.value), x);
    Associate(Write(g.tag, 4), Encode(g.value), y);
    SplitEqual(Write(f.tag, 4), Encode(f.value) + x, Write(g.tag, 4), Encode(g.value) + y);
    Ranges();
    WriteInjective(f.tag, g.tag, 4);
    PrefixFree(f.value, x, g.value, y);
  }

  lemma WellFormedTail(fs: seq<Field>)
    requires WellFormedFields(fs) && fs != []
    ensures WellFormedField(fs[0]) && WellFormedFields(fs[1..])
  {
  }

  lemma SplitHead<T>(s: seq<T>, t: seq<T>, n: nat)
    requires s != [] && t != [] && s[0] == t[0] && n < |t|
    requires n == |s| - 1 && t[1..][..n] == s[1..]
    ensures t[..|s|] == s && t[|s|..] == t[1..][n..]
  {
    assert t[1..][..n] == t[1..|s|];
    assert s == [s[0]] + s[1..];
  }

  /** If the encoding of gs starts with that of fs, then gs starts with fs, and the rest encodes the rest. */
  lemma {:induction false} FieldsCut(fs: seq<Field>, rest: Text, gs: seq<Field>)
    requires WellFormedFields(fs) && WellFormedFields(gs)
    requires EncodeFields(fs) + rest == EncodeFields(gs)
    ensures |fs| <= |gs| && gs[..|fs|] == fs && EncodeFields(gs[|fs|..]) == rest
    decreases fs
  {
    if fs == [] {
      assert gs[0..] == gs && EncodeFields(fs) + rest == rest;
    } else {
      Associate(EncodeField(fs[0]), EncodeFields(fs[1..]), rest);
      WellFormedTail(fs);
      WellFormedTail(gs);
      FieldPrefixFree(fs[0], EncodeFields(fs[1..]) + rest, gs[0], EncodeFields(gs[1..]));
      FieldsCut(fs[1..], rest, gs[1..]);
      SplitHead(fs, gs, |fs| - 1);
    }
  }

  lemma {:induction false} ElemsCut(es: seq<Canon>, rest: Text, ds: seq<Canon>)
    requires WellFormedElems(es) && WellFormedElems(ds)
    requires EncodeElems(es) + rest == EncodeElems(ds)
    ensures |es| <= |ds| && ds[..|es|] == es && EncodeElems(ds[|es|..]) == rest
    decreases es
  {
    if es == [] {
      assert ds[0..] == ds && EncodeElems(es) + rest == rest;
    } else {
      Associate(Encode(es[0]), EncodeElems(es[1..]), rest);
      PrefixFree(es[0], EncodeElems(es[1..]) + rest, ds[0], EncodeElems(ds[1..]));
      ElemsCut(es[1..], rest, ds[1..]);
      SplitHead(es, ds, |es| - 1);
    }
  }

  lemma EncodeInjective(a: Canon, b: Canon)
    requires WellFormed(a) && WellFormed(b)
    requires CanonicalEncode(a) == CanonicalEncode(b)
    ensures a == b
  {
    SplitEqual(MAGIC + [VERSION], Encode(a), MAGIC + [VERSION], Encode(b));
    PrefixFree(a, [], b, []);
  }

  /** The tree a byte string stands for, if it stands for one. The decoder is proved to compute this. */
  ghost function Decode(b: Text): (r: Result<Canon>)
    ensures r.Ok? ==> WellFormed(r.value) && CanonicalEncode(r.value) == b
    ensures r.Err? ==> forall c :: WellFormed(c) ==> CanonicalEncode(c) != b
  {
    if c: Canon :| WellFormed(c) && CanonicalEncode(c) == b then Ok(c) else Err
  }

  /** Decoding undoes encoding exactly on the well-formed trees: beyond them a length was cut or a float refused. */
  lemma DecodeEncode(c: Canon)
    ensures Decode(CanonicalEncode(c)) == Ok(c) <==> WellFormed(c)
  {
    if WellFormed(c) {
      EncodeInjective(c, Decode(CanonicalEncode(c)).value);
    }
  }
}
