/** Message frames: magic, version, type, length, canonical payload, checksum. */
module Frames {
  import opened Prelude
  import opened Canonical
  import opened Codec
  import opened Crc

  const FRAME_MAGIC: u32 := 0x4352_4E57  // "CRNW"
  const PROTOCOL_VERSION: byte := 1

  datatype Message = Message(kind: byte, payload: Canon)

  function Head(kind: byte, length: nat): (h: Text)
    ensures |h| == 10
  {
    Write(FRAME_MAGIC, 4) + [PROTOCOL_VERSION] + [kind] + Write(length, 4)
  }

  function FrameOf(kind: byte, body: Text): (f: Text)
    ensures |f| == 14 + |body|
  {
    Head(kind, |body|) + body + Write(Crc32(body), 4)
  }

  function Frame(m: Message): Text {
    FrameOf(m.kind, CanonicalEncode(m.payload))
  }

  /** A payload whose encoding has a 32-bit length. */
  predicate Sendable(c: Canon) {
    WellFormed(c) && |CanonicalEncode(c)| < TWO_32
  }

  method FrameMessage(m: Message) returns (f: Text)
    requires Built(m.payload)
    ensures f == Frame(m)
  {
    hide Write, Crc32, CanonicalEncode;
    var pl := CanonicalEncodeTree(m.payload);
    var out := new Buffer();
    out.Put(Write(FRAME_MAGIC, 4));
    out.Put([PROTOCOL_VERSION]);
    out.Put([m.kind]);
    out.Put(Write(|pl|, 4));
    out.Put(pl);
    var crc := ComputeCrc32(pl);
    out.Put(Write(crc, 4));
    f := out.data;
  }

  /** The first n bytes are the frame of a message that could be sent. */
  ghost predicate StartsWith(bytes: Text, n: nat, m: Message) {
    Sendable(m.payload) && n <= |bytes| && bytes[..n] == Frame(m)
  }

  /** Everything about the frame is right, but decoding its payload copies from beyond the payload. */
  ghost predicate PayloadReadsPast(bytes: Text) {
    && |bytes| >= 14
    && var n: nat := 14 + Word32(bytes[6..10]) as int;
       && n <= |bytes| && Word32(bytes[0..4]) == FRAME_MAGIC && bytes[4] == PROTOCOL_VERSION
       && Word32(bytes[n - 4..n]) == Crc32(bytes[10..n - 4]) && ReadsPast(bytes[10..n - 4])
  }

  /** Accepts exactly the byte strings that start with a frame, and returns its message and its length. */
  method UnframeMessage(bytes: Text) returns (r: Result<(Message, nat)>, past: bool)
    ensures r.Ok? ==> StartsWith(bytes, r.value.1, r.value.0)
    ensures r.Err? ==> forall m, n: nat :: !StartsWith(bytes, n, m)
    ensures past <==> PayloadReadsPast(bytes)
    ensures past ==> r.Err?
  {
    hide StartsWith, Read, Crc32, Write, ReadsPast, Word32;
    FrameShapes(bytes);
    past := false;
    if |bytes| < 10 {
      return Err, false;
    }
    var rd := new Reader(bytes, 0);
    var magic := rd.U32();
    if magic.value != FRAME_MAGIC {
      return Err, false;
    }
    var ver := rd.U8();
    if ver.value != PROTOCOL_VERSION {
      return Err, false;
    }
    var kind := rd.U8();
    var len := rd.U32();
    var n: int := len.value;
    if n > |bytes| - 10 {
      return Err, false;
    }
    if |bytes| - 10 - n < 4 {
      return Err, false;
    }
    var pl := bytes[10..10 + n];
    var stored := Word32(bytes[10 + n..14 + n]);
    var computed := ComputeCrc32(pl);
    if computed != stored {
      return Err, false;
    }
    var payload: Result<Canon>;
    payload, past := CanonicalDecode(pl);
    if payload.Err? {
      return Err, past;
    }
    r := Ok((Message(kind.value, payload.value), 14 + n));
  }

  /** The length field fixes the only frame that the bytes could start with. */
  lemma FrameShapes(bytes: Text)
    ensures |bytes| < 14 ==> forall m, n: nat :: !StartsWith(bytes, n, m)
    ensures |bytes| >= 14 ==>
              var n: nat := 14 + Word32(bytes[6..10]) as int;
              if n > |bytes| || Word32(bytes[0..4]) != FRAME_MAGIC || bytes[4] != PROTOCOL_VERSION
                 || Word32(bytes[n - 4..n]) != Crc32(bytes[10..n - 4]) || Decode(bytes[10..n - 4]).Err?
              then forall m, n': nat :: !StartsWith(bytes, n', m)
              else StartsWith(bytes, n, Message(bytes[5], Decode(bytes[10..n - 4]).value))
  {
    hide StartsWith, Read, Crc32, Write;
    forall m, n: nat ensures StartsWith(bytes, n, m) ==>
        14 <= n <= |bytes| && n == 14 + Word32(bytes[6..10]) && Word32(bytes[0..4]) == FRAME_MAGIC
        && bytes[4] == PROTOCOL_VERSION && Word32(bytes[n - 4..n]) == Crc32(bytes[10..n - 4])
        && Decode(bytes[10..n - 4]).Ok?
    {
      FrameShape(bytes, n, m);
    }
    if |bytes| >= 14 {
      var n: nat := 14 + Word32(bytes[6..10]) as int;
      if n <= |bytes| && Decode(bytes[10..n - 4]).Ok? {
        FrameShape(bytes, n, Message(bytes[5], Decode(bytes[10..n - 4]).value));
      }
    }
  }

  lemma FrameShape(bytes: Text, n: nat, m: Message)
    ensures StartsWith(bytes, n, m) <==>
              && 14 <= n <= |bytes|
              && Word32(bytes[0..4]) == FRAME_MAGIC && bytes[4] == PROTOCOL_VERSION && bytes[5] == m.kind
              && n == 14 + Word32(bytes[6..10])
              && Decode(bytes[10..n - 4]) == Ok(m.payload)
              && Word32(bytes[n - 4..n]) == Crc32(bytes[10..n - 4])
  {
    var pl := CanonicalEncode(m.payload);
    hide CanonicalEncode;
    if 14 <= n <= |bytes| {
      if n == 14 + |pl| && |pl| < TWO_32 {
        FrameOfShape(bytes, n, m.kind, pl);
      }
      DecodeEncode(m.payload);
      if Decode(bytes[10..n - 4]) == Ok(m.payload) {
        assert bytes[10..n - 4] == pl;
      }
    }
  }

  lemma FrameOfShape(bytes: Text, n: nat, kind: byte, pl: Text)
    requires 14 <= n <= |bytes| && n == 14 + |pl| && |pl| < TWO_32
    ensures bytes[..n] == FrameOf(kind, pl) <==>
              && Word32(bytes[0..4]) == FRAME_MAGIC && bytes[4] == PROTOCOL_VERSION && bytes[5] == kind
              && Word32(bytes[6..10]) == |pl| && bytes[10..n - 4] == pl
              && Word32(bytes[n - 4..n]) == Crc32(pl)
  {
    hide Read, Crc32, Write;
    var f, crc := bytes[..n], Crc32(pl);
    ThreeParts(f, Head(kind, |pl|), pl, Write(crc, 4));
    ThreeParts(f[..10], Write(FRAME_MAGIC, 4), [PROTOCOL_VERSION] + [kind], Write(|pl|, 4));
    Associate(Write(FRAME_MAGIC, 4), [PROTOCOL_VERSION], [kind]);
    assert f[..10][..4] == bytes[0..4] && f[..10][4..6] == [bytes[4]] + [bytes[5]] && f[..10][6..] == bytes[6..10];
    assert f[10..n - 4] == bytes[10..n - 4] && f[n - 4..] == bytes[n - 4..n];
    Word32Written(FRAME_MAGIC);
    Word32Written(|pl|);
    Word32Written(crc);
  }

  /** Unframing undoes framing, whatever follows the frame, and finds where it ends. */
  lemma FrameUnique(bytes: Text, m: Message, n: nat, m': Message, n': nat)
    requires StartsWith(bytes, n, m) && StartsWith(bytes, n', m')
    ensures m == m' && n == n'
  {
    hide StartsWith, Read, Crc32, Write;
    FrameShape(bytes, n, m);
    FrameShape(bytes, n', m');
  }

  lemma WholeFrame(m: Message)
    requires Sendable(m.payload)
    ensures StartsWith(Frame(m), |Frame(m)|, m)
  {
    hide FrameOf, Sendable;
    assert Frame(m)[..|Frame(m)|] == Frame(m);
  }

  /** A frame whose payload was altered within four consecutive bytes is no frame at all. */
  lemma AlteredPayloadRefused(m: Message, bytes: Text, k: nat)
    requires Sendable(m.payload) && |bytes| == |Frame(m)| && bytes != Frame(m)
    requires forall i :: 0 <= i < |bytes| && !(k <= i < k + 4) ==> bytes[i] == Frame(m)[i]
    requires forall i :: 0 <= i < |bytes| && (i < 10 || i >= |bytes| - 4) ==> bytes[i] == Frame(m)[i]
    ensures forall m', n: nat :: !StartsWith(bytes, n, m')
  {
    hide FrameOf, Sendable, Crc32, Read, Word32, StartsWith;
    var f := Frame(m);
    var n := |f|;
    WholeFrame(m);
    FrameShape(f, n, m);
    SameEnds(f, bytes);
    AlteredSegment(f, bytes, f[10..n - 4], bytes[10..n - 4], k);
    forall m', n': nat ensures !StartsWith(bytes, n', m') {
      FrameShape(bytes, n', m');
    }
  }

  lemma SameEnds(f: Text, g: Text)
    requires |f| == |g| >= 14 && f != g
    requires forall i :: 0 <= i < |g| && (i < 10 || i >= |g| - 4) ==> g[i] == f[i]
    ensures f[0..4] == g[0..4] && f[6..10] == g[6..10] && f[|f| - 4..|f|] == g[|g| - 4..|g|]
    ensures f[10..|f| - 4] != g[10..|g| - 4]
  {
    var i :| 0 <= i < |f| && g[i] != f[i];
    assert f[10..|f| - 4][i - 10] == f[i] && g[10..|g| - 4][i - 10] == g[i];
  }

  lemma AlteredSegment(f: Text, g: Text, p: Text, q: Text, k: nat)
    requires |f| == |g| >= 14 && p == f[10..|f| - 4] && q == g[10..|g| - 4] && p != q
    requires forall i :: 0 <= i < |g| && !(k <= i < k + 4) ==> g[i] == f[i]
    ensures Crc32(p) != Crc32(q)
  {
    hide Crc32;
    if k >= 10 {
      assert forall j :: 0 <= j < |p| && !(k - 10 <= j < k - 10 + 4) ==> p[j] == f[j + 10] == g[j + 10] == q[j];
      BurstDetected(p, q, k - 10);
    } else {
      assert forall j :: 0 <= j < |p| && !(0 <= j < 4) ==> p[j] == f[j + 10] == g[j + 10] == q[j];
      BurstDetected(p, q, 0);
    }
  }
}
