/** The encoder's output buffer and the decoder's cursor, proved against Canonical.Encode and Canonical.Decode. */
module Codec {
  import opened Prelude
  import opened Canonical
  import opened Records

  // ---- Encoder ----

  class Buffer {
    var data: Text

    constructor ()
      ensures data == []
    {
      data := [];
    }

    method Put(bytes: Text)
      modifies this
      ensures data == old(data) + bytes
    {
      data := data + bytes;
    }
  }

  /** Every record in the tree came from mk_record. The fields of a Canon are private, so every tree is one. */
  predicate Built(c: Canon) {
    match c
    case Record(fs) => StrictTags(fs) && forall f | f in fs :: Built(f.value)
    case Sequence(es) => forall e | e in es :: Built(e)
    case _ => true
  }

  lemma {:induction false} SortedAlready(fs: seq<Field>)
    requires StrictTags(fs)
    ensures SortFields(fs) == fs
  {
    if fs != [] {
      SortedAlready(fs[1..]);
      assert fs == [fs[0]] + fs[1..];
      assert fs[1..] != [] ==> fs[0].tag < fs[1..][0].tag;
    }
  }

  method AppendElement(c: Canon, out: Buffer)
    requires Built(c)
    modifies out
    ensures out.data == old(out.data) + Encode(c)
    decreases c, 1
  {
    hide Body, Tag;
    var body := new Buffer();
    AppendBody(c, body);
    out.Put([Tag(c)]);
    out.Put(Write(|body.data|, 4));
    out.Put(body.data);
    assert out.data == old(out.data) + Framed(Tag(c), Body(c));
  }

  /** The switch on the kind. */
  method AppendBody(c: Canon, body: Buffer)
    requires Built(c) && body.data == []
    modifies body
    ensures body.data == Body(c)
    decreases c, 0
  {
    match c {
      case Null =>
      case Uint(u) => body.Put(Write(u, 8));
      case Int(i) => body.Put(Write(BitsOfInt(i), 8));
      case Bool(b) => body.Put([if b then 1 else 0]);
      case Str(s) => body.Put(s);
      case Bytes(s) => body.Put(s);
      case Id(id) => body.Put(id);
      case Float(bits) => body.Put(Write(bits, 8));
      case Record(fs) => SortedAlready(fs); AppendFields(fs, body);
      case Sequence(es) => AppendElems(es, body);
    }
  }

  /** Sorts, then writes tag and value of each; mk_record has left no repeated tag to refuse. */
  method AppendFields(fs: seq<Field>, body: Buffer)
    requires forall f | f in fs :: Built(f.value)
    requires SortFields(fs) == fs && body.data == []
    modifies body
    ensures body.data == EncodeFields(fs)
    decreases fs
  {
    hide Encode, EncodeField, Built;
    var r := SortFields(fs);
    var i := 0;
    while i < |r|
      invariant 0 <= i <= |r|
      invariant body.data == EncodeFields(r[..i])
    {
      AppendField(fs[i], body);
      EncodeFieldsAppend(r[..i], [r[i]]);
      assert r[..i + 1] == r[..i] + [r[i]];
      OneField(r[i]);
      i := i + 1;
    }
    assert r[..i] == fs;
  }

  method AppendField(f: Field, body: Buffer)
    requires Built(f.value)
    modifies body
    ensures body.data == old(body.data) + EncodeField(f)
    decreases f
  {
    body.Put(Write(f.tag, 4));
    AppendElement(f.value, body);
    Associate(old(body.data), Write(f.tag, 4), Encode(f.value));
  }

  lemma OneField(f: Field)
    ensures EncodeFields([f]) == EncodeField(f)
  {
    assert EncodeFields([f][1..]) == [];
  }

  lemma OneElem(e: Canon)
    ensures EncodeElems([e]) == Encode(e)
  {
    assert EncodeElems([e][1..]) == [];
  }

  method AppendElems(es: seq<Canon>, body: Buffer)
    requires forall e | e in es :: Built(e)
    requires body.data == []
    modifies body
    ensures body.data == EncodeElems(es)
    decreases es
  {
    var i := 0;
    while i < |es|
      invariant 0 <= i <= |es|
      invariant body.data == EncodeElems(es[..i])
    {
      var e := es[i];
      AppendElement(e, body);
      EncodeElemsAppend(es[..i], [e]);
      assert es[..i + 1] == es[..i] + [e];
      OneElem(e);
      i := i + 1;
    }
    assert es[..i] == es;
  }

  method CanonicalEncodeTree(c: Canon) returns (b: Text)
    requires Built(c)
    ensures b == CanonicalEncode(c)
  {
    hide Encode;
    var out := new Buffer();
    out.Put(MAGIC);
    out.Put([VERSION]);
    AppendElement(c, out);
    b := out.data;
  }

  // ---- Decoder ----

  class Reader {
    const data: Text
    var pos: nat

    constructor (data: Text, pos: nat)
      ensures this.data == data && this.pos == pos
    {
      this.data := data;
      this.pos := pos;
    }

    method U8() returns (r: Result<byte>)
      requires pos <= |data|
      modifies this
      ensures pos <= |data|
      ensures if old(pos) < |data| then r == Ok(data[old(pos)]) && pos == old(pos) + 1 else r == Err
    {
      if pos >= |data| {
        return Err;
      }
      pos := pos + 1;
      return Ok(data[pos - 1]);
    }

    method U32() returns (r: Result<u32>)
      requires pos <= |data|
      modifies this
      ensures pos <= |data|
      ensures if old(pos) + 4 <= |data| then r == Ok(Word32(data[old(pos)..old(pos) + 4])) && pos == old(pos) + 4
              else r == Err
    {
      if |data| - pos < 4 {
        return Err;
      }
      var v := Word(4);
      Ranges();
      return Ok(v);
    }

    method U64() returns (r: Result<u64>)
      requires pos <= |data|
      modifies this
      ensures pos <= |data|
      ensures if old(pos) + 8 <= |data| then r == Ok(Word64(data[old(pos)..old(pos) + 8])) && pos == old(pos) + 8
              else r == Err
    {
      if |data| - pos < 8 {
        return Err;
      }
      var v := Word(8);
      Ranges();
      return Ok(v);
    }

    method Word(n: nat) returns (v: nat)
      requires pos + n <= |data|
      modifies this
      ensures v == Read(data[old(pos)..old(pos) + n]) && pos == old(pos) + n
    {
      var i := 0;
      v := 0;
      while i < n
        invariant 0 <= i <= n && pos == old(pos)
        invariant v == Read(data[pos..pos + i])
      {
        v := v * 256 + data[pos + i] as int;
        i := i + 1;
        assert data[pos..pos + i][..i - 1] == data[pos..pos + i - 1];
      }
      pos := pos + n;
    }
  }

  function Word32(b: Text): (v: u32)
    requires |b| == 4
    ensures Write(v, 4) == b
  {
    Ranges();
    WriteRead(b);
    Read(b)
  }

  function Word64(b: Text): (v: u64)
    requires |b| == 8
    ensures Write(v, 8) == b
  {
    Ranges();
    WriteRead(b);
    Read(b)
  }

  lemma Word32Written(v: u32)
    ensures Word32(Write(v, 4)) == v
  {
    hide Write, Read;
    Ranges();
    ReadWrite(v, 4);
  }

  lemma Word64Written(v: u64)
    ensures Word64(Write(v, 8)) == v
  {
    hide Write, Read;
    Ranges();
    ReadWrite(v, 8);
  }

  /** What reading comes to: a value, an exception, or a copy that runs past the end of the buffer. */
  datatype Parsed<+T> = Done(value: T) | Thrown | PastEnd

  /** The bytes from pos on start with the encoding of a well-formed tree c, which ends no later than end. */
  ghost predicate At(data: Text, pos: nat, end: nat, c: Canon) {
    && WellFormed(c)
    && pos + |Encode(c)| <= end && pos + |Encode(c)| <= |data|
    && data[pos..pos + |Encode(c)|] == Encode(c)
  }

  lemma AtShape(data: Text, pos: nat, end: nat, c: Canon)
    ensures At(data, pos, end, c) <==>
              && WellFormed(c)
              && pos + 5 + |Body(c)| <= end && pos + 5 + |Body(c)| <= |data|
              && data[pos] == Tag(c)
              && Word32(data[pos + 1..pos + 5]) == |Body(c)|
              && data[pos + 5..pos + 5 + |Body(c)|] == Body(c)
  {
    assert WellFormed(c) ==> |Body(c)| < TWO_32;
    assert Encode(c) == Framed(Tag(c), Body(c));
    hide WellFormed, Body, Encode, Tag, Word32, Framed;
    if WellFormed(c) && pos + 5 + |Body(c)| <= end && pos + 5 + |Body(c)| <= |data| {
      FramedAt(data, pos, Tag(c), Body(c));
    }
  }

  lemma FramedAt(data: Text, pos: nat, kind: byte, body: Text)
    requires pos + 5 + |body| <= |data| && |body| < TWO_32
    ensures data[pos..pos + 5 + |body|] == Framed(kind, body) <==>
              && data[pos] == kind
              && Word32(data[pos + 1..pos + 5]) == |body|
              && data[pos + 5..pos + 5 + |body|] == body
  {
    var end := pos + 5 + |body|;
    var s := data[pos..end];
    ThreeParts(s, [kind], Write(|body|, 4), body);
    assert s[..1] == [data[pos]];
    SliceOfSlice(data, pos, end, 1, 5);
    SliceOfSlice(data, pos, end, 5, |s|);
    assert s[5..] == s[5..|s|];
    Word32Written(|body|);
  }

  ghost predicate NothingAt(data: Text, pos: nat, end: nat) {
    forall c :: !At(data, pos, end, c)
  }

  ghost predicate Fits(c: Canon, kind: nat, body: Text) {
    WellFormed(c) && Tag(c) == kind && Body(c) == body
  }

  ghost predicate NothingFits(kind: nat, body: Text) {
    forall c :: !Fits(c, kind, body)
  }

  // ---- Segments ----

  // Headers are read within the buffer, not within the segment, so a header can cross the end of its
  // segment, by at most 8 bytes. What is left of the segment is then an unsigned difference that has
  // wrapped round, and no length exceeds it.

  /** The difference that bounds a length: as 64-bit arithmetic has it, and beyond every length once the end is crossed. */
  function UnsignedDifference(end: nat, pos: nat): (d: nat)
    requires pos <= end + 8
    ensures end < TWO_64 && pos < TWO_64 ==> d == (end - pos) % TWO_64
    ensures if pos <= end then pos + d == end else d >= TWO_32
  {
    if end < TWO_64 && pos < TWO_64 then
      DifferenceWraps(end, pos);
      (end - pos) % TWO_64
    else if pos <= end then end - pos else TWO_64 + end - pos
  }

  lemma DifferenceWraps(end: u64, pos: u64)
    ensures (end - pos) % TWO_64 == if pos <= end then end - pos else TWO_64 + end - pos
  {
    if pos <= end {
      Remainder(end - pos, TWO_64, 0, end - pos);
    } else {
      Remainder(end - pos, TWO_64, -1, TWO_64 + end - pos);
    }
  }

  /** The tree that is read at pos within a segment that ends at end: beyond the segment if its header crosses the end. */
  ghost predicate ReadAt(data: Text, pos: nat, end: nat, c: Canon) {
    At(data, pos, if pos + 5 <= end then end else |data|, c)
  }

  ghost predicate NothingReadAt(data: Text, pos: nat, end: nat) {
    forall c :: !ReadAt(data, pos, end, c)
  }

  /** Reading the element at pos, or one within it, copies bytes from beyond the end of the buffer. */
  ghost predicate Overreads(data: Text, pos: nat, end: nat)
    decreases if pos <= |data| then |data| - pos else 0, 0
  {
    && pos + 5 <= |data|
    && var stop := pos + 5 + Word32(data[pos + 1..pos + 5]);
       (pos + 5 <= end ==> stop <= end) && BodyOverreads(data, data[pos], pos + 5, stop)
  }

  /** Only texts and byte strings are copied before their end is checked. */
  ghost predicate BodyOverreads(data: Text, kk: byte, start: nat, stop: nat)
    requires start <= |data|
    decreases |data| - start, 2
  {
    if kk == 4 || kk == 5 then stop > |data|
    else if kk == 8 then FieldsOverread(data, start, stop)
    else kk == 9 && ElemsOverread(data, start, stop)
  }

  /** From start on there are these elements, and the segment is not yet at its end. */
  ghost predicate ElemsTo(data: Text, start: nat, es: seq<Canon>, stop: nat) {
    && WellFormedElems(es)
    && start + |EncodeElems(es)| < stop && start + |EncodeElems(es)| <= |data|
    && data[start..start + |EncodeElems(es)|] == EncodeElems(es)
  }

  /** After some complete elements comes one that overreads. */
  ghost predicate ElemsOverread(data: Text, start: nat, stop: nat)
    requires start <= |data|
    decreases |data| - start, 1
  {
    exists es :: ElemsTo(data, start, es, stop) && Overreads(data, start + |EncodeElems(es)|, stop)
  }

  ghost predicate FieldsTo(data: Text, start: nat, fs: seq<Field>, stop: nat) {
    && WellFormedFields(fs)
    && var q := start + |EncodeFields(fs)|;
       && q < stop && q + 4 <= |data|
       && data[start..q] == EncodeFields(fs)
       && (fs != [] ==> fs[|fs| - 1].tag < Word32(data[q..q + 4]))
  }

  /** After some complete fields comes one, with a greater tag, whose value overreads. */
  ghost predicate FieldsOverread(data: Text, start: nat, stop: nat)
    requires start <= |data|
    decreases |data| - start, 1
  {
    exists fs :: FieldsTo(data, start, fs, stop) && Overreads(data, start + |EncodeFields(fs)| + 4, stop)
  }

  /** What is read to its end is not overread. */
  lemma {:induction false} ReadIsNotOverread(data: Text, pos: nat, end: nat, c: Canon)
    requires ReadAt(data, pos, end, c)
    ensures !Overreads(data, pos, end)
    decreases c
  {
    hide WellFormed, Word32, ElemsOverread, FieldsOverread, Encode;
    AtShape(data, pos, if pos + 5 <= end then end else |data|, c);
    var start, stop := pos + 5, pos + 5 + |Body(c)|;
    FitsComposite(data[start..stop]);
    assert Fits(c, Tag(c), data[start..stop]);
    assert |data[start..stop]| < TWO_32;
    if c.Record? {
      FieldsNotOverread(data, start, stop, c.fields);
    } else if c.Sequence? {
      ElemsNotOverread(data, start, stop, c.elems);
    }
  }

  lemma {:induction false} ElemsNotOverread(data: Text, start: nat, stop: nat, es: seq<Canon>)
    requires start <= stop <= |data| && WellFormedElems(es) && EncodeElems(es) == data[start..stop]
    ensures !ElemsOverread(data, start, stop)
    decreases es
  {
    hide WellFormed, Encode, EncodeElems, Overreads;
    forall ds | ElemsTo(data, start, ds, stop) ensures !Overreads(data, start + |EncodeElems(ds)|, stop) {
      var q := start + |EncodeElems(ds)|;
      SplitAt(data, start, q, stop);
      ElemsCut(ds, data[q..stop], es);
      ElemComesNext(data, q, stop, |ds|, es);
      IsMember(es, |ds|);
      AtIsRead(data, q, stop, es[|ds|]);
      ReadIsNotOverread(data, q, stop, es[|ds|]);
    }
  }

  lemma {:induction false} FieldsNotOverread(data: Text, start: nat, stop: nat, fs: seq<Field>)
    requires start <= stop <= |data| && WellFormedFields(fs) && EncodeFields(fs) == data[start..stop]
    ensures !FieldsOverread(data, start, stop)
    decreases fs
  {
    hide WellFormed, Encode, EncodeFields, Overreads, Word32;
    forall gs | FieldsTo(data, start, gs, stop) ensures !Overreads(data, start + |EncodeFields(gs)| + 4, stop) {
      var q := start + |EncodeFields(gs)|;
      SplitAt(data, start, q, stop);
      FieldsCut(gs, data[q..stop], fs);
      FieldComesNext(data, q, stop, |gs|, fs);
      IsMember(fs, |gs|);
      FieldNotOverread(data, q + 4, stop, fs[|gs|]);
    }
  }

  lemma {:induction false} FieldNotOverread(data: Text, pos: nat, end: nat, f: Field)
    requires At(data, pos, end, f.value)
    ensures !Overreads(data, pos, end)
    decreases f
  {
    hide WellFormed, Encode, Overreads;
    AtIsRead(data, pos, end, f.value);
    ReadIsNotOverread(data, pos, end, f.value);
  }

  lemma AtIsRead(data: Text, pos: nat, end: nat, c: Canon)
    ensures At(data, pos, end, c) ==> ReadAt(data, pos, end, c)
    ensures NothingReadAt(data, pos, end) ==> NothingAt(data, pos, end)
    ensures pos + 5 > end ==> NothingAt(data, pos, end)
  {
    hide WellFormed, Encode;
    forall d ensures At(data, pos, end, d) ==> ReadAt(data, pos, end, d) && pos + 5 <= end {
    }
  }

  /** An element is read off its header: where its body ends and what kind it is. */
  lemma ReadHeader(data: Text, pos: nat, end: nat)
    ensures pos + 5 > |data| ==> NothingReadAt(data, pos, end) && !Overreads(data, pos, end)
    ensures pos + 5 <= |data| ==>
              var stop := pos + 5 + Word32(data[pos + 1..pos + 5]);
              if pos + 5 <= end < stop then NothingReadAt(data, pos, end) && !Overreads(data, pos, end)
              else
                && (Overreads(data, pos, end) <==> BodyOverreads(data, data[pos], pos + 5, stop))
                && (stop > |data| ==> NothingReadAt(data, pos, end))
                && (stop <= |data| ==> forall c :: ReadAt(data, pos, end, c) <==> Fits(c, data[pos], data[pos + 5..stop]))
  {
    forall c {
      AtShape(data, pos, if pos + 5 <= end then end else |data|, c);
    }
    hide BodyOverreads, WellFormed, Body, Encode, Word32;
  }

  /** Accepts exactly what is read at the cursor, and moves past it; tells when bytes beyond the buffer would be copied. */
  method ParseElement(rd: Reader, end: nat) returns (r: Parsed<Canon>)
    requires rd.pos <= |rd.data| && rd.pos <= end + 3
    modifies rd
    ensures rd.pos <= |rd.data|
    ensures r.Done? ==> ReadAt(rd.data, old(rd.pos), end, r.value) && rd.pos == old(rd.pos) + |Encode(r.value)|
    ensures !r.Done? ==> NothingReadAt(rd.data, old(rd.pos), end)
    ensures r.PastEnd? <==> Overreads(rd.data, old(rd.pos), end)
    decreases |rd.data| - rd.pos, 0
  {
    hide WellFormed, Body, Encode, Tag, Word32, Fits, Overreads, BodyOverreads;
    ghost var start := rd.pos;
    ReadHeader(rd.data, start, end);
    var kk := rd.U8();
    if kk.Err? {
      return Thrown;
    }
    var len := rd.U32();
    if len.Err? {
      return Thrown;
    }
    assert rd.pos <= end + 8;
    if UnsignedDifference(end, rd.pos) < len.value {
      return Thrown;
    }
    r := ParseBody(rd, kk.value, rd.pos + len.value);
    if r.Done? {
      DoneAtEnd(rd.data, start, end, r.value);
    }
  }

  lemma DoneAtEnd(data: Text, pos: nat, end: nat, c: Canon)
    requires ReadAt(data, pos, end, c)
    ensures pos + 5 <= |data| && pos + |Encode(c)| == pos + 5 + Word32(data[pos + 1..pos + 5])
  {
    AtShape(data, pos, if pos + 5 <= end then end else |data|, c);
  }

  lemma FitsComposite(body: Text)
    requires |body| < TWO_32
    ensures forall c :: Fits(c, 8, body) <==> c.Record? && WellFormedFields(c.fields) && EncodeFields(c.fields) == body
    ensures forall c :: Fits(c, 9, body) <==> c.Sequence? && WellFormedElems(c.elems) && EncodeElems(c.elems) == body
  {
  }

  /** The switch on the kind byte. */
  method ParseBody(rd: Reader, kk: byte, payloadEnd: nat) returns (r: Parsed<Canon>)
    requires rd.pos <= |rd.data| && rd.pos <= payloadEnd && payloadEnd - rd.pos < TWO_32
    modifies rd
    ensures rd.pos <= |rd.data|
    ensures r.Done? ==>
              payloadEnd <= |rd.data| && Fits(r.value, kk, rd.data[old(rd.pos)..payloadEnd]) && rd.pos == payloadEnd
    ensures !r.Done? && payloadEnd <= |rd.data| ==> NothingFits(kk, rd.data[old(rd.pos)..payloadEnd])
    ensures r.PastEnd? <==> BodyOverreads(rd.data, kk, old(rd.pos), payloadEnd)
    decreases |rd.data| - rd.pos, 2
  {
    hide ElemsOverread, FieldsOverread;
    ghost var start := rd.pos;
    if payloadEnd <= |rd.data| {
      FitsComposite(rd.data[start..payloadEnd]);
    }
    if kk == 8 {
      var fs := ParseRecord(rd, payloadEnd);
      r := match fs case Done(v) => Done(Record(v)) case Thrown => Thrown case PastEnd => PastEnd;
    } else if kk == 9 {
      var es := ParseSequence(rd, payloadEnd);
      r := match es case Done(v) => Done(Sequence(v)) case Thrown => Thrown case PastEnd => PastEnd;
    } else {
      r := ParseScalar(rd, kk, payloadEnd);
      if payloadEnd <= |rd.data| {
        ScalarOfFits(kk, rd.data[start..payloadEnd]);
        forall c ensures Fits(c, kk, rd.data[start..payloadEnd]) ==> r == Done(c) {
          if Fits(c, kk, rd.data[start..payloadEnd]) { ScalarOfOnly(kk, c); }
        }
      }
    }
  }

  /** What the cases of the switch other than Record and Sequence read. */
  function ScalarOf(kk: byte, body: Text): Result<Canon> {
    match kk
    case 0 => if body == [] then Ok(Null) else Err
    case 1 => if |body| == 8 then Ok(Uint(Word64(body))) else Err
    case 2 => if |body| == 8 then Ok(Int(IntOfBits(Word64(body)))) else Err
    case 3 => if body == [0] || body == [1] then Ok(Bool(body == [1])) else Err
    case 4 => Ok(Str(body))
    case 5 => Ok(Bytes(body))
    case 6 => if |body| == 16 then Ok(Id(body)) else Err
    case 7 => if |body| == 8 && Finite(Word64(body)) then Ok(Float(Word64(body))) else Err
    case _ => Err
  }

  lemma ScalarOfFits(kk: byte, body: Text)
    requires kk != 8 && kk != 9 && |body| < TWO_32
    ensures ScalarOf(kk, body).Ok? ==> Fits(ScalarOf(kk, body).value, kk, body)
  {
  }

  lemma ScalarOfOnly(kk: byte, c: Canon)
    requires kk != 8 && kk != 9 && WellFormed(c) && Tag(c) == kk
    ensures ScalarOf(kk, Body(c)) == Ok(c)
  {
    match c {
      case Uint(u) => Word64Written(u);
      case Int(i) => Word64Written(BitsOfInt(i));
      case Float(bits) => Word64Written(bits);
      case _ =>
    }
  }

  method ParseScalar(rd: Reader, kk: byte, payloadEnd: nat) returns (r: Parsed<Canon>)
    requires rd.pos <= |rd.data| && rd.pos <= payloadEnd && payloadEnd - rd.pos < TWO_32
    requires kk != 8 && kk != 9
    modifies rd
    ensures rd.pos <= |rd.data|
    ensures payloadEnd <= |rd.data| ==>
              var v := ScalarOf(kk, rd.data[old(rd.pos)..payloadEnd]);
              r == if v.Ok? then Done(v.value) else Thrown
    ensures payloadEnd > |rd.data| ==> r == if kk == 4 || kk == 5 then PastEnd else Thrown
    ensures r.Done? ==> rd.pos == payloadEnd
  {
    var len := payloadEnd - rd.pos;
    r := Thrown;
    match kk {
      case 0 =>
        if len != 0 { return Thrown; }
        r := Done(Null);
      case 1 =>
        if len != 8 { return Thrown; }
        var v := rd.U64();
        if v.Ok? { r := Done(Uint(v.value)); }
      case 2 =>
        if len != 8 { return Thrown; }
        var v := rd.U64();
        if v.Ok? { r := Done(Int(IntOfBits(v.value))); }
      case 3 =>
        if len != 1 { return Thrown; }
        var v := rd.U8();
        if v.Ok? && (v.value == 0 || v.value == 1) { r := Done(Bool(v.value == 1)); }
      case 4 =>
        if payloadEnd > |rd.data| { return PastEnd; }
        rd.pos := payloadEnd;
        r := Done(Str(rd.data[payloadEnd - len..payloadEnd]));
      case 5 =>
        if payloadEnd > |rd.data| { return PastEnd; }
        rd.pos := payloadEnd;
        r := Done(Bytes(rd.data[payloadEnd - len..payloadEnd]));
      case 6 =>
        if len != 16 || payloadEnd > |rd.data| { return Thrown; }
        rd.pos := payloadEnd;
        r := Done(Id(rd.data[payloadEnd - len..payloadEnd]));
      case 7 =>
        if len != 8 { return Thrown; }
        var v := rd.U64();
        if v.Ok? && Finite(v.value) { r := Done(Float(v.value)); }
      case _ =>
    }
  }

  lemma EncodeNothing()
    ensures EncodeFields([]) == [] && EncodeElems([]) == []
  {
  }

  method ParseSequence(rd: Reader, payloadEnd: nat) returns (r: Parsed<seq<Canon>>)
    requires rd.pos <= |rd.data| && rd.pos <= payloadEnd
    modifies rd
    ensures rd.pos <= |rd.data|
    ensures r.Done? ==>
              && payloadEnd <= |rd.data| && rd.pos == payloadEnd
              && WellFormedElems(r.value) && EncodeElems(r.value) == rd.data[old(rd.pos)..payloadEnd]
    ensures !r.Done? && payloadEnd <= |rd.data| ==> NoElemsEncode(rd.data[old(rd.pos)..payloadEnd])
    ensures r.PastEnd? <==> ElemsOverread(rd.data, old(rd.pos), payloadEnd)
    decreases |rd.data| - rd.pos, 1
  {
    hide WellFormed, Encode, EncodeElems, ElemsOverread, Overreads, NoElemsEncode, WellFormedElems, ReadAt, NothingReadAt,
         NothingAt;
    EncodeNothing();
    NothingElems();
    ghost var start := rd.pos;
    var q: seq<Canon> := [];
    while rd.pos < payloadEnd
      invariant start <= rd.pos <= |rd.data|
      invariant rd.pos <= payloadEnd ==> WellFormedElems(q) && EncodeElems(q) == rd.data[start..rd.pos]
      invariant rd.pos > payloadEnd ==>
                  && !ElemsOverread(rd.data, start, payloadEnd)
                  && (payloadEnd <= |rd.data| ==> NoElemsEncode(rd.data[start..payloadEnd]))
      decreases |rd.data| - rd.pos
    {
      ghost var before := rd.pos;
      var e := ParseElement(rd, payloadEnd);
      AtIsRead(rd.data, before, payloadEnd, Null);
      if !e.Done? || rd.pos > payloadEnd {
        if e.Done? { ElementRead(rd.data, before, payloadEnd, e.value); }
        if payloadEnd <= |rd.data| { NoElems(rd.data, start, before, payloadEnd, q); }
        if !e.PastEnd? { NoElemsOverread(rd.data, start, before, payloadEnd, q); }
      }
      if e.Thrown? {
        return Thrown;
      }
      if e.PastEnd? {
        ElemsReachOverread(rd.data, start, before, payloadEnd, q);
        return PastEnd;
      }
      ElementRead(rd.data, before, payloadEnd, e.value);
      if rd.pos <= payloadEnd {
        ElemParsed(rd.data, start, before, rd.pos, q, e.value);
        q := q + [e.value];
      }
    }
    if rd.pos != payloadEnd {
      return Thrown;
    }
    ElemsNotOverread(rd.data, start, payloadEnd, q);
    return Done(q);
  }

  ghost predicate NoElemsEncode(body: Text) {
    forall es :: WellFormedElems(es) ==> EncodeElems(es) != body
  }

  lemma NothingElems()
    ensures WellFormedElems([]) && WellFormedFields([])
  {
  }

  lemma ElementRead(data: Text, pos: nat, end: nat, c: Canon)
    requires ReadAt(data, pos, end, c)
    ensures !Overreads(data, pos, end)
    ensures pos + |Encode(c)| <= |data| && data[pos..pos + |Encode(c)|] == Encode(c) && WellFormed(c)
    ensures |Encode(c)| >= 5 && (pos + |Encode(c)| > end ==> NothingAt(data, pos, end))
  {
    hide WellFormed, Overreads, Encode;
    ReadIsNotOverread(data, pos, end, c);
    AtIsRead(data, pos, end, c);
  }

  lemma ElemParsed(data: Text, start: nat, before: nat, pos: nat, q: seq<Canon>, e: Canon)
    requires start <= before <= pos <= |data| && WellFormedElems(q) && WellFormed(e)
    requires EncodeElems(q) == data[start..before] && data[before..pos] == Encode(e)
    ensures WellFormedElems(q + [e]) && EncodeElems(q + [e]) == data[start..pos]
  {
    hide WellFormed, Encode, EncodeElems;
    EncodeElemsAppend(q, [e]);
    OneElem(e);
    SplitAt(data, start, before, pos);
  }

  lemma ElemsReachOverread(data: Text, start: nat, pos: nat, stop: nat, q: seq<Canon>)
    requires start <= pos < stop && pos <= |data|
    requires WellFormedElems(q) && EncodeElems(q) == data[start..pos] && Overreads(data, pos, stop)
    ensures ElemsOverread(data, start, stop)
  {
    hide WellFormed, EncodeElems, Overreads;
    assert ElemsTo(data, start, q, stop);
  }

  /** If more elements follow those that end at pos, one follows right there. */
  lemma NextElem(data: Text, start: nat, pos: nat, p: nat, stop: nat, q: seq<Canon>, es: seq<Canon>)
    requires start <= pos < p <= stop && p <= |data|
    requires WellFormedElems(q) && EncodeElems(q) == data[start..pos]
    requires WellFormedElems(es) && EncodeElems(es) == data[start..p]
    ensures |q| < |es| && At(data, pos, stop, es[|q|])
  {
    hide WellFormed, Encode, EncodeElems;
    SplitAt(data, start, pos, p);
    ElemsCut(q, data[pos..p], es);
    ElemComesNext(data, pos, p, |q|, es);
    AtLater(data, pos, p, stop, es[|q|]);
  }

  lemma AtLater(data: Text, pos: nat, end: nat, stop: nat, c: Canon)
    requires At(data, pos, end, c) && end <= stop
    ensures At(data, pos, stop, c) && ReadAt(data, pos, stop, c)
  {
    hide WellFormed, Encode;
  }

  /** Where the elements so far end, nothing follows within the segment; so they cannot be completed. */
  lemma NoElems(data: Text, start: nat, pos: nat, stop: nat, q: seq<Canon>)
    requires start <= pos < stop <= |data|
    requires WellFormedElems(q) && EncodeElems(q) == data[start..pos] && NothingAt(data, pos, stop)
    ensures NoElemsEncode(data[start..stop])
  {
    hide WellFormed, Encode, EncodeElems, At;
    forall es: seq<Canon> | WellFormedElems(es) ensures EncodeElems(es) != data[start..stop] {
      if EncodeElems(es) == data[start..stop] {
        NextElem(data, start, pos, stop, stop, q, es);
      }
    }
  }

  /** And unless it is right there that something is overread, nothing is. */
  lemma NoElemsOverread(data: Text, start: nat, pos: nat, stop: nat, q: seq<Canon>)
    requires start <= pos < stop && pos <= |data|
    requires WellFormedElems(q) && EncodeElems(q) == data[start..pos] && NothingAt(data, pos, stop)
    requires !Overreads(data, pos, stop)
    ensures !ElemsOverread(data, start, stop)
  {
    hide WellFormed, Encode, EncodeElems, Overreads, At;
    forall es | ElemsTo(data, start, es, stop) ensures !Overreads(data, start + |EncodeElems(es)|, stop) {
      var p := start + |EncodeElems(es)|;
      if p > pos {
        NextElem(data, start, pos, p, stop, q, es);
      } else if p < pos {
        NextElem(data, start, p, pos, stop, es, q);
        AtIsRead(data, p, stop, q[|es|]);
        ReadIsNotOverread(data, p, stop, q[|es|]);
      }
    }
  }

  lemma ElemComesNext(data: Text, pos: nat, end: nat, n: nat, es: seq<Canon>)
    requires pos < end <= |data| && n <= |es| && WellFormedElems(es)
    requires EncodeElems(es[n..]) == data[pos..end]
    ensures n < |es| && At(data, pos, end, es[n])
  {
    hide WellFormed, Encode;
    assert es[n] in es;
    var k := |Encode(es[n])|;
    assert data[pos..end] == Encode(es[n]) + EncodeElems(es[n..][1..]);
    assert data[pos..end][0..k] == Encode(es[n]);
    SliceOfSlice(data, pos, end, 0, k);
  }

  method ParseRecord(rd: Reader, payloadEnd: nat) returns (r: Parsed<seq<Field>>)
    requires rd.pos <= |rd.data| && rd.pos <= payloadEnd
    modifies rd
    ensures rd.pos <= |rd.data|
    ensures r.Done? ==>
              && payloadEnd <= |rd.data| && rd.pos == payloadEnd
              && WellFormedFields(r.value) && EncodeFields(r.value) == rd.data[old(rd.pos)..payloadEnd]
    ensures !r.Done? && payloadEnd <= |rd.data| ==> NoFieldsEncode(rd.data[old(rd.pos)..payloadEnd])
    ensures r.PastEnd? <==> FieldsOverread(rd.data, old(rd.pos), payloadEnd)
    decreases |rd.data| - rd.pos, 1
  {
    hide WellFormed, Encode, EncodeFields, FieldsOverread, Overreads, NoFieldsEncode, Word32, WellFormedFields, ReadAt,
         NothingReadAt, NothingAt;
    EncodeNothing();
    NothingElems();
    ghost var start := rd.pos;
    var fs: seq<Field> := [];
    var lastTag, first := 0, true;
    while rd.pos < payloadEnd
      invariant start <= rd.pos <= |rd.data|
      invariant rd.pos <= payloadEnd ==> WellFormedFields(fs) && EncodeFields(fs) == rd.data[start..rd.pos]
      invariant rd.pos > payloadEnd ==>
                  && !FieldsOverread(rd.data, start, payloadEnd)
                  && (payloadEnd <= |rd.data| ==> NoFieldsEncode(rd.data[start..payloadEnd]))
      invariant first <==> fs == []
      invariant !first && rd.pos <= payloadEnd ==> lastTag == fs[|fs| - 1].tag
      decreases |rd.data| - rd.pos
    {
      ghost var before := rd.pos;
      var tag := rd.U32();
      if tag.Err? || (!first && tag.value <= lastTag) {
        if payloadEnd <= |rd.data| { NoFields(rd.data, start, before, payloadEnd, fs); }
        NoFieldsOverread(rd.data, start, before, payloadEnd, fs);
        return Thrown;
      }
      lastTag, first := tag.value, false;
      var v := ParseElement(rd, payloadEnd);
      AtIsRead(rd.data, before + 4, payloadEnd, Null);
      if !v.Done? || rd.pos > payloadEnd {
        if v.Done? { ElementRead(rd.data, before + 4, payloadEnd, v.value); }
        if payloadEnd <= |rd.data| { NoFields(rd.data, start, before, payloadEnd, fs); }
        if !v.PastEnd? { NoFieldsOverread(rd.data, start, before, payloadEnd, fs); }
      }
      if v.Thrown? {
        return Thrown;
      }
      if v.PastEnd? {
        FieldsReachOverread(rd.data, start, before, payloadEnd, fs);
        return PastEnd;
      }
      ElementRead(rd.data, before + 4, payloadEnd, v.value);
      var f := Field(tag.value, v.value);
      if rd.pos <= payloadEnd {
        FieldParsed(rd.data, start, before, rd.pos, fs, f);
      }
      fs := fs + [f];
    }
    if rd.pos != payloadEnd {
      return Thrown;
    }
    FieldsNotOverread(rd.data, start, payloadEnd, fs);
    return Done(fs);
  }

  ghost predicate NoFieldsEncode(body: Text) {
    forall fs :: WellFormedFields(fs) ==> EncodeFields(fs) != body
  }

  lemma FieldsReachOverread(data: Text, start: nat, pos: nat, stop: nat, fs: seq<Field>)
    requires start <= pos < stop && pos + 4 <= |data|
    requires WellFormedFields(fs) && EncodeFields(fs) == data[start..pos] && Overreads(data, pos + 4, stop)
    requires fs != [] ==> fs[|fs| - 1].tag < Word32(data[pos..pos + 4])
    ensures FieldsOverread(data, start, stop)
  {
    hide WellFormed, EncodeFields, Overreads, Word32;
    assert FieldsTo(data, start, fs, stop);
  }

  lemma FieldsExtended(fs: seq<Field>, f: Field)
    requires WellFormedFields(fs) && WellFormed(f.value) && (fs != [] ==> fs[|fs| - 1].tag < f.tag)
    ensures WellFormedFields(fs + [f])
  {
    hide WellFormed;
    assert WellFormedField(f);
    assert forall g :: g in fs + [f] <==> g in fs || g == f;
    forall i, j | 0 <= i < j < |fs + [f]| ensures (fs + [f])[i].tag < (fs + [f])[j].tag {
      assert j < |fs| ==> fs[i].tag < fs[j].tag;
      assert i < |fs| - 1 ==> fs[i].tag < fs[|fs| - 1].tag;
    }
  }

  lemma FieldParsed(data: Text, start: nat, before: nat, pos: nat, fs: seq<Field>, f: Field)
    requires start <= before && before + 4 <= pos <= |data|
    requires WellFormedFields(fs) && WellFormed(f.value) && EncodeFields(fs) == data[start..before]
    requires fs != [] ==> fs[|fs| - 1].tag < f.tag
    requires Word32(data[before..before + 4]) == f.tag && data[before + 4..pos] == Encode(f.value)
    ensures WellFormedFields(fs + [f]) && EncodeFields(fs + [f]) == data[start..pos]
  {
    hide EncodeFields, Encode, Word32, WellFormed, WellFormedFields;
    FieldsExtended(fs, f);
    EncodeFieldsAppend(fs, [f]);
    OneField(f);
    SplitAt(data, before, before + 4, pos);
    SplitAt(data, start, before, pos);
  }

  lemma SplitAt<T>(s: seq<T>, a: nat, b: nat, c: nat)
    requires a <= b <= c <= |s|
    ensures s[a..c] == s[a..b] + s[b..c]
  {
  }

  ghost predicate NoFieldAt(data: Text, pos: nat, stop: nat, fs: seq<Field>) {
    || |data| < pos + 4
    || (fs != [] && Word32(data[pos..pos + 4]) <= fs[|fs| - 1].tag)
    || NothingAt(data, pos + 4, stop)
  }

  lemma SameFields(data: Text, start: nat, pos: nat, fs: seq<Field>, gs: seq<Field>)
    requires start <= pos <= |data| && WellFormedFields(fs) && WellFormedFields(gs)
    requires EncodeFields(fs) == data[start..pos] == EncodeFields(gs)
    ensures fs == gs
  {
    hide WellFormed, Encode, EncodeFields;
    Unframed(EncodeFields(fs));
    Unframed(EncodeFields(gs));
    FieldsCut(fs, [], gs);
    FieldsCut(gs, [], fs);
  }

  /** If more fields follow those that end at pos, one follows right there, with a greater tag. */
  lemma NextOfFields(data: Text, start: nat, pos: nat, p: nat, stop: nat, fs: seq<Field>, gs: seq<Field>)
    requires start <= pos < p <= stop && p <= |data|
    requires WellFormedFields(fs) && EncodeFields(fs) == data[start..pos]
    requires WellFormedFields(gs) && EncodeFields(gs) == data[start..p]
    ensures |fs| < |gs| && pos + 4 <= |data| && At(data, pos + 4, stop, gs[|fs|].value)
    ensures fs != [] ==> fs[|fs| - 1].tag < Word32(data[pos..pos + 4])
  {
    hide WellFormed, Encode, EncodeFields, Word32, WellFormedFields, At;
    SplitAt(data, start, pos, p);
    FieldsCut(fs, data[pos..p], gs);
    FieldComesNext(data, pos, p, |fs|, gs);
    AtLater(data, pos + 4, p, stop, gs[|fs|].value);
    assert fs != [] ==> gs[..|fs|][|fs| - 1] == gs[|fs| - 1];
  }

  /** Where the fields so far end, no field follows within the segment; so they cannot be completed. */
  lemma NoFields(data: Text, start: nat, pos: nat, stop: nat, fs: seq<Field>)
    requires start <= pos < stop <= |data|
    requires WellFormedFields(fs) && EncodeFields(fs) == data[start..pos] && NoFieldAt(data, pos, stop, fs)
    ensures NoFieldsEncode(data[start..stop])
  {
    hide WellFormed, Encode, EncodeFields, At, Word32;
    forall gs: seq<Field> | WellFormedFields(gs) ensures EncodeFields(gs) != data[start..stop] {
      if EncodeFields(gs) == data[start..stop] {
        NextOfFields(data, start, pos, stop, stop, fs, gs);
      }
    }
  }

  /** And unless it is right there that something is overread, nothing is. */
  lemma NoFieldsOverread(data: Text, start: nat, pos: nat, stop: nat, fs: seq<Field>)
    requires start <= pos < stop && pos <= |data|
    requires WellFormedFields(fs) && EncodeFields(fs) == data[start..pos] && NoFieldAt(data, pos, stop, fs)
    requires pos + 4 <= |data| && (fs != [] ==> fs[|fs| - 1].tag < Word32(data[pos..pos + 4])) ==> !Overreads(data, pos + 4, stop)
    ensures !FieldsOverread(data, start, stop)
  {
    hide WellFormed, Encode, EncodeFields, Overreads, At, Word32;
    forall gs | FieldsTo(data, start, gs, stop) ensures !Overreads(data, start + |EncodeFields(gs)| + 4, stop) {
      var p := start + |EncodeFields(gs)|;
      if p > pos {
        NextOfFields(data, start, pos, p, stop, fs, gs);
      } else if p < pos {
        NextOfFields(data, start, p, pos, stop, gs, fs);
        AtIsRead(data, p + 4, stop, fs[|gs|].value);
        ReadIsNotOverread(data, p + 4, stop, fs[|gs|].value);
      } else {
        SameFields(data, start, pos, fs, gs);
      }
    }
  }

  lemma FieldComesNext(data: Text, pos: nat, end: nat, n: nat, gs: seq<Field>)
    requires pos < end <= |data| && n <= |gs| && WellFormedFields(gs)
    requires EncodeFields(gs[n..]) == data[pos..end]
    ensures n < |gs| && pos + 4 <= end && Word32(data[pos..pos + 4]) == gs[n].tag && At(data, pos + 4, end, gs[n].value)
    ensures n > 0 ==> gs[n - 1].tag < gs[n].tag
  {
    hide WellFormed, Encode, EncodeField, Word32;
    assert gs[n] in gs;
    NextField(data, pos, end, gs[n], EncodeFields(gs[n..][1..]));
  }

  lemma NextField(data: Text, pos: nat, end: nat, f: Field, rest: Text)
    requires pos <= end <= |data| && data[pos..end] == EncodeField(f) + rest
    requires WellFormed(f.value)
    ensures pos + 4 <= end && Word32(data[pos..pos + 4]) == f.tag && At(data, pos + 4, end, f.value)
  {
    hide WellFormed, Encode, Word32;
    var k := |Encode(f.value)|;
    ThreeParts(data[pos..end], Write(f.tag, 4), Encode(f.value), rest);
    assert data[pos..end][..4] == data[pos..end][0..4];
    SliceOfSlice(data, pos, end, 0, 4);
    SliceOfSlice(data, pos, end, 4, 4 + k);
    Word32Written(f.tag);
  }

  /** Decoding copies bytes from beyond the end of its input. */
  ghost predicate ReadsPast(bytes: Text) {
    |bytes| >= 6 && bytes[..4] == MAGIC && bytes[4] == VERSION && Overreads(bytes, 5, |bytes|)
  }

  /**
    * The decoder accepts a byte string exactly if it is the encoding of a well-formed tree, and returns
    * that tree. On some others it copies from beyond their end before it could refuse them.
    */
  method CanonicalDecode(bytes: Text) returns (r: Result<Canon>, past: bool)
    ensures r == Decode(bytes)
    ensures past <==> ReadsPast(bytes)
    ensures past ==> r.Err?
  {
    hide WellFormed, Encode, Overreads;
    forall c {
      EncodingShape(bytes, c);
    }
    if |bytes| < 6 || bytes[..4] != MAGIC || bytes[4] != VERSION {
      return Err, false;
    }
    var rd := new Reader(bytes, 5);
    var root := ParseElement(rd, |bytes|);
    AtIsRead(bytes, 5, |bytes|, Null);
    if !root.Done? {
      return Err, root.PastEnd?;
    }
    if rd.pos != |bytes| {
      NoTree(bytes, rd.pos, root.value);
      return Err, false;
    }
    DecodeEncode(root.value);
    return Ok(root.value), false;
  }

  /** No encoding of a tree is read past; so what is read past would have been refused. */
  lemma EncodingsAreNotReadPast(bytes: Text)
    requires ReadsPast(bytes)
    ensures Decode(bytes).Err?
  {
    hide WellFormed, Encode, Overreads;
    if Decode(bytes).Ok? {
      var c := Decode(bytes).value;
      EncodingShape(bytes, c);
      ReadIsNotOverread(bytes, 5, |bytes|, c);
    }
  }

  // A record of one byte, whose only field crosses its end with a text of 2^32 - 1 bytes.
  const CROSSING: Text := [0x43, 0x52, 0x43, 0x46, 1, 8, 0, 0, 0, 1, 0, 0, 0, 0, 4, 0xFF, 0xFF, 0xFF, 0xFF]

  lemma CrossingIsReadPast()
    ensures ReadsPast(CROSSING)
  {
    hide Word32, Overreads, WellFormedFields;
    CrossingOverread();
    assert CROSSING[..4] == MAGIC;
  }

  lemma CrossingOverread()
    ensures Overreads(CROSSING, 5, 19)
  {
    hide Word32, WellFormedFields, ElemsOverread;
    var data := CROSSING;
    WordsOfCrossing();
    assert data[6..10] == [0, 0, 0, 1] && data[15..19] == [0xFF, 0xFF, 0xFF, 0xFF];
    assert Overreads(data, 14, 11);
    NothingElems();
    EncodeNothing();
    assert data[10..10] == [];
    FieldsReachOverread(data, 10, 10, 11, []);
  }

  lemma WordsOfCrossing()
    ensures Word32([0, 0, 0, 1]) == 1 && Word32([0, 0, 0, 0]) == 0 && Word32([0xFF, 0xFF, 0xFF, 0xFF]) == TWO_32 - 1
  {
    hide Write;
    FourBytes(0, 0, 0, 1);
    FourBytes(0, 0, 0, 0);
    FourBytes(0xFF, 0xFF, 0xFF, 0xFF);
  }

  lemma FourBytes(a: byte, b: byte, c: byte, d: byte)
    ensures Word32([a, b, c, d]) == ((a * 256 + b) * 256 + c) * 256 + d
  {
    hide Write;
    assert [a, b, c, d][..3] == [a, b, c] && [a, b, c][..2] == [a, b] && [a, b][..1] == [a] && [a][..0] == [];
    assert Read([a]) == a;
    assert Read([a, b]) == a * 256 + b as int;
    assert Read([a, b, c]) == (a * 256 + b as int) * 256 + c as int;
  }

  lemma EncodingShape(bytes: Text, c: Canon)
    ensures CanonicalEncode(c) == bytes <==>
              && |bytes| >= 6 && bytes[..4] == MAGIC && bytes[4] == VERSION
              && bytes[5..] == Encode(c)
    ensures WellFormed(c) && CanonicalEncode(c) == bytes ==> At(bytes, 5, |bytes|, c)
    ensures At(bytes, 5, |bytes|, c) && |bytes| == 5 + |Encode(c)| ==> bytes[5..] == Encode(c)
  {
    hide WellFormed, Encode, Body;
    if |bytes| == 5 + |Encode(c)| {
      ThreeParts(bytes, MAGIC, [VERSION], Encode(c));
      assert bytes[4..5] == [bytes[4]];
      assert bytes[5..5 + |Encode(c)|] == bytes[5..];
    }
  }

  /** Bytes left over after the first element belong to no tree. */
  lemma NoTree(bytes: Text, pos: nat, c: Canon)
    requires At(bytes, 5, |bytes|, c) && pos == 5 + |Encode(c)| < |bytes|
    ensures Decode(bytes).Err?
  {
    hide WellFormed, Encode;
    var d := Decode(bytes);
    if d.Ok? {
      EncodingShape(bytes, d.value);
      SplitAt(bytes, 5, pos, |bytes|);
      PrefixFree(c, bytes[pos..], d.value, []);
      assert false;
    }
  }
}
