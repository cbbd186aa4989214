/** The frame checksum: CRC-32 as in section 8 of RFC 1952, one bit at a time. */
module Crc {
  import opened Prelude

  const POLYNOMIAL: bv32 := 0xEDB8_8320

  function Shift(c: bv32): bv32 {
    if c & 1 == 1 then (c >> 1) ^ POLYNOMIAL else c >> 1
  }

  function Shifts(c: bv32, n: nat): bv32
    decreases n
  {
    if n == 0 then c else Shifts(Shift(c), n - 1)
  }

  function Xor(a: bv32, b: bv32): bv32 { a ^ b }

  /** A byte as a word, from its binary digits. */
  function Word(b: byte): bv32 { Digits(b, 8) }

  function Digits(b: nat, n: nat): bv32
    decreases n
  {
    if n == 0 then 0 else Push(Digits(b / 2, n - 1), b % 2 == 1)
  }

  function Push(w: bv32, digit: bool): bv32 { (w << 1) | (if digit then 1 else 0) }

  function Feed(c: bv32, b: byte): bv32 { Shifts(Xor(c, Word(b)), 8) }

  function FeedAll(c: bv32, data: Text): bv32
    decreases |data|
  {
    if data == [] then c else FeedAll(Feed(c, data[0]), data[1..])
  }

  function Number(x: bv32): u32 { x as int }

  function Flip(x: bv32): bv32 { x ^ 0xFFFF_FFFF }

  function Crc32(data: Text): u32 {
    Number(Flip(FeedAll(0xFFFF_FFFF, data)))
  }

  method ComputeCrc32(data: Text) returns (r: u32)
    ensures r == Crc32(data)
  {
    hide Number, Flip, Word;
    var c: bv32 := 0xFFFF_FFFF;
    var i := 0;
    while i < |data|
      invariant 0 <= i <= |data|
      invariant FeedAll(c, data[i..]) == FeedAll(0xFFFF_FFFF, data)
    {
      ghost var fed := Feed(c, data[i]);
      c := Xor(c, Word(data[i]));
      var b := 0;
      while b < 8
        invariant 0 <= b <= 8
        invariant Shifts(c, 8 - b) == fed
      {
        if c & 1 == 1 {
          c := (c >> 1) ^ POLYNOMIAL;
        } else {
          c := c >> 1;
        }
        b := b + 1;
      }
      assert data[i..][1..] == data[i + 1..];
      i := i + 1;
    }
    r := Number(Flip(c));
  }

  // ---- Shifting is linear and injective ----

  lemma LowBit(a: bv32, b: bv32)
    ensures (a ^ b) & 1 == 1 <==> (a & 1 == 1) != (b & 1 == 1)
  {
  }

  lemma XorPolynomial(a: bv32, b: bv32)
    ensures (a ^ POLYNOMIAL) ^ b == (a ^ b) ^ POLYNOMIAL
    ensures a ^ (b ^ POLYNOMIAL) == (a ^ b) ^ POLYNOMIAL
    ensures (a ^ POLYNOMIAL) ^ (b ^ POLYNOMIAL) == a ^ b
  {
  }

  lemma ShiftLinear(a: bv32, b: bv32)
    ensures Shift(Xor(a, b)) == Xor(Shift(a), Shift(b))
  {
    ShiftXor(a, b);
  }

  lemma ShiftXor(a: bv32, b: bv32)
    ensures Shift(a ^ b) == Shift(a) ^ Shift(b)
  {
    LowBit(a, b);
    assert (a ^ b) >> 1 == (a >> 1) ^ (b >> 1);
    XorPolynomial(a >> 1, b >> 1);
  }

  // The polynomial has its top bit set, so the top bit of the result tells which bit was shifted out.
  lemma ShiftInjective(a: bv32)
    ensures Shift(a) == 0 <==> a == 0
  {
  }

  lemma {:induction false} ShiftsLinear(a: bv32, b: bv32, n: nat)
    ensures Shifts(Xor(a, b), n) == Xor(Shifts(a, n), Shifts(b, n))
    decreases n
  {
    hide Shift, Xor;
    if n > 0 {
      ShiftLinear(a, b);
      ShiftsLinear(Shift(a), Shift(b), n - 1);
    }
  }

  lemma {:induction false} ShiftsInjective(a: bv32, n: nat)
    ensures Shifts(a, n) == 0 <==> a == 0
    decreases n
  {
    if n > 0 {
      ShiftInjective(a);
      ShiftsInjective(Shift(a), n - 1);
    }
  }

  lemma {:induction false} ShiftsAdd(a: bv32, m: nat, n: nat)
    ensures Shifts(a, m + n) == Shifts(Shifts(a, m), n)
    decreases m
  {
    if m > 0 {
      ShiftsAdd(Shift(a), m - 1, n);
    }
  }

  lemma UndoShift(a: bv32)
    requires a < 0x8000_0000
    ensures Shift(a << 1) == a
  {
  }

  lemma ShiftsNone(a: bv32)
    ensures Shifts(a, 0) == a
  {
  }

  lemma UndoOne(a: bv32, n: nat)
    requires a < 0x8000_0000
    ensures Shifts(a << 1, n + 1) == Shifts(a, n)
  {
    UndoShift(a);
  }

  lemma UndoTwo(a: bv32, n: nat)
    requires a < 0x4000_0000
    ensures Shifts(a << 2, n + 2) == Shifts(a, n)
  {
    hide Shifts;
    assert (a << 1) << 1 == a << 2;
    UndoOne(a << 1, n + 1);
    UndoOne(a, n);
  }

  lemma UndoFour(a: bv32, n: nat)
    requires a < 0x1000_0000
    ensures Shifts(a << 4, n + 4) == Shifts(a, n)
  {
    hide Shifts;
    assert (a << 2) << 2 == a << 4;
    UndoTwo(a << 2, n + 2);
    UndoTwo(a, n);
  }

  lemma UndoByte(a: bv32)
    requires a < 0x100_0000
    ensures Shifts(a << 8, 8) == a
  {
    hide Shifts;
    assert (a << 4) << 4 == a << 8;
    UndoFour(a << 4, 4);
    UndoFour(a, 0);
    ShiftsNone(a);
  }

  // ---- Bytes as words ----

  /** w has no digit beyond the n low ones. */
  predicate Within(w: bv32, n: nat) {
    w < if n == 0 then 1 else if n == 1 then 2 else if n == 2 then 4 else if n == 3 then 8 else if n == 4 then 16
        else if n == 5 then 32 else if n == 6 then 64 else if n == 7 then 128 else 256
  }

  lemma PushDiffers(x: bv32, y: bv32, p: bool, q: bool, n: nat)
    requires 1 <= n <= 8 && Within(x, n - 1) && Within(y, n - 1)
    ensures Within(Push(x, p), n)
    ensures Push(x, p) == Push(y, q) <==> x == y && p == q
  {
  }

  lemma Halves(a: nat, b: nat, n: nat)
    requires n > 0 && a < PowerOfTwo(n) && b < PowerOfTwo(n)
    ensures a / 2 < PowerOfTwo(n - 1) && b / 2 < PowerOfTwo(n - 1)
    ensures a == b <==> a / 2 == b / 2 && (a % 2 == 1) == (b % 2 == 1)
  {
    assert a == a / 2 * 2 + a % 2 && b == b / 2 * 2 + b % 2;
  }

  lemma {:induction false} DigitsWithin(a: nat, n: nat)
    requires n <= 8
    ensures Within(Digits(a, n), n)
    decreases n
  {
    if n > 0 {
      hide Push, Within;
      DigitsWithin(a / 2, n - 1);
      PushDiffers(Digits(a / 2, n - 1), Digits(a / 2, n - 1), a % 2 == 1, a % 2 == 1, n);
    } else {
      assert Digits(a, 0) == 0;
    }
  }

  lemma DigitsDifferMore(a: nat, b: nat, n: nat)
    requires 0 < n <= 8 && (Digits(a / 2, n - 1) == Digits(b / 2, n - 1) <==> a / 2 == b / 2)
    ensures Digits(a, n) == Digits(b, n) <==> a == b
  {
    hide Push, Within;
    DigitsWithin(a / 2, n - 1);
    DigitsWithin(b / 2, n - 1);
    PushDiffers(Digits(a / 2, n - 1), Digits(b / 2, n - 1), a % 2 == 1, b % 2 == 1, n);
  }

  lemma {:induction false} DigitsDiffer(a: nat, b: nat, n: nat)
    requires n <= 8 && a < PowerOfTwo(n) && b < PowerOfTwo(n)
    ensures Digits(a, n) == Digits(b, n) <==> a == b
    decreases n
  {
    if n > 0 {
      hide Digits, PowerOfTwo;
      Halves(a, b, n);
      DigitsDiffer(a / 2, b / 2, n - 1);
      DigitsDifferMore(a, b, n);
    }
  }

  function PowerOfTwo(n: nat): nat { if n == 0 then 1 else 2 * PowerOfTwo(n - 1) }

  lemma XorSmall(x: bv32, y: bv32)
    requires x < 256 && y < 256
    ensures Xor(x, y) < 256
  {
  }

  lemma WordSmall(b: byte)
    ensures Word(b) < 256
  {
    hide Digits;
    DigitsWithin(b, 8);
  }

  lemma WordDifference(a: byte, b: byte)
    ensures Xor(Word(a), Word(b)) == 0 <==> a == b
    ensures Xor(Word(a), Word(b)) < 256
  {
    hide Xor, Digits;
    WordSmall(a);
    WordSmall(b);
    DigitsDiffer(a, b, 8);
    Apart(Word(a), Word(b));
    XorSmall(Word(a), Word(b));
  }

  // ---- Bursts ----

  /** A byte as the i-th byte, from the low end, of a word. */
  function Place(e: bv32, i: nat): bv32 {
    if i == 0 then e else if i == 1 then e << 8 else if i == 2 then e << 16 else e << 24
  }

  /** w uses only its i low bytes. */
  predicate Below(w: bv32, i: nat) {
    if i == 0 then w == 0 else if i == 1 then w < 0x100 else if i == 2 then w < 0x1_0000
    else if i == 3 then w < 0x100_0000 else true
  }

  lemma PlaceByte(w: bv32, e: bv32, i: nat)
    requires i < 4 && Below(w, i) && e < 256
    ensures Below(Xor(w, Place(e, i)), i + 1)
    ensures Xor(w, Place(e, i)) == 0 <==> w == 0 && e == 0
  {
    hide Xor;
    if i == 0 {
      XorZero(e);
    } else if i == 1 {
      PlaceSecond(w, e);
    } else if i == 2 {
      PlaceThird(w, e);
    } else {
      PlaceFourth(w, e);
    }
  }

  lemma PlaceSecond(w: bv32, e: bv32)
    requires w < 0x100 && e < 256
    ensures Xor(w, e << 8) < 0x1_0000 && (Xor(w, e << 8) == 0 <==> w == 0 && e == 0)
  {
  }

  lemma PlaceThird(w: bv32, e: bv32)
    requires w < 0x1_0000 && e < 256
    ensures Xor(w, e << 16) < 0x100_0000 && (Xor(w, e << 16) == 0 <==> w == 0 && e == 0)
  {
  }

  lemma PlaceFourth(w: bv32, e: bv32)
    requires w < 0x100_0000 && e < 256
    ensures Xor(w, e << 24) == 0 <==> w == 0 && e == 0
  {
  }

  lemma UndoPlace(e: bv32, i: nat)
    requires i < 4 && e < 256
    ensures Shifts(Place(e, i), 8 * i) == e
  {
    hide Shifts;
    ShiftsNone(e);
    Twice(e);
    UndoByte(e);
    UndoByte(e << 8);
    UndoByte(e << 16);
    ShiftsAdd(e << 16, 8, 8);
    ShiftsAdd(e << 24, 8, 16);
  }

  lemma Twice(e: bv32)
    requires e < 256
    ensures (e << 8) << 8 == e << 16 && (e << 16) << 8 == e << 24
    ensures e < 0x100_0000 && (e << 8) < 0x100_0000 && (e << 16) < 0x100_0000
  {
  }

  /**
    * Two registers that differ by the word w, shifted for the i bytes read since they parted, are still
    * apart at the end if any difference lies in w or in the next 4 - i bytes.
    */
  lemma {:induction false} Burst(c: bv32, d: bv32, p: Text, q: Text, i: nat, w: bv32)
    requires i <= 4 && Below(w, i) && Xor(c, d) == Shifts(w, 8 * i)
    requires |p| == |q| && forall j :: 4 - i <= j < |p| ==> p[j] == q[j]
    requires w != 0 || p != q
    ensures FeedAll(c, p) != FeedAll(d, q)
    decreases |p|
  {
    hide Shifts, Place, Below, Feed, Word, Xor;
    if p == [] {
      ShiftsInjective(w, 8 * i);
      Apart(c, d);
    } else {
      assert p == [p[0]] + p[1..] && q == [q[0]] + q[1..];
      var e := Xor(Word(p[0]), Word(q[0]));
      WordDifference(p[0], q[0]);
      FeedDifference(c, d, p[0], q[0]);
      if i < 4 {
        PlaceByte(w, e, i);
        UndoPlace(e, i);
        var w' := Xor(w, Place(e, i));
        ShiftsLinear(w, Place(e, i), 8 * i);
        ShiftsAdd(w', 8 * i, 8);
        Burst(Feed(c, p[0]), Feed(d, q[0]), p[1..], q[1..], i + 1, w');
      } else {
        assert p == q;
        SameBytes(c, d, p, w);
      }
    }
  }

  lemma XorCancels(c: bv32, d: bv32)
    ensures Xor(Xor(c, d), d) == c && Xor(c, c) == 0
  {
  }

  lemma Apart(c: bv32, d: bv32)
    ensures Xor(c, d) == 0 <==> c == d
  {
    hide Xor;
    XorCancels(c, d);
    XorZero(d);
  }

  lemma XorZero(a: bv32)
    ensures Xor(a, 0) == a && Xor(0, a) == a
  {
  }

  lemma XorAssociative(a: bv32, b: bv32, c: bv32)
    ensures Xor(Xor(a, b), c) == Xor(a, Xor(b, c))
  {
  }

  lemma XorCommutative(a: bv32, b: bv32)
    ensures Xor(a, b) == Xor(b, a)
  {
  }

  lemma XorSwap(c: bv32, d: bv32, a: bv32, b: bv32)
    ensures Xor(Xor(c, a), Xor(d, b)) == Xor(Xor(c, d), Xor(a, b))
  {
    hide Xor;
    XorAssociative(c, a, Xor(d, b));
    XorAssociative(a, d, b);
    XorCommutative(a, d);
    XorAssociative(d, a, b);
    XorAssociative(c, d, Xor(a, b));
  }

  lemma FeedDifference(c: bv32, d: bv32, a: byte, b: byte)
    ensures Xor(Feed(c, a), Feed(d, b)) == Shifts(Xor(Xor(c, d), Xor(Word(a), Word(b))), 8)
  {
    hide Shifts, Word, Xor;
    XorSwap(c, d, Word(a), Word(b));
    ShiftsLinear(Xor(c, Word(a)), Xor(d, Word(b)), 8);
  }

  lemma SameBytes(c: bv32, d: bv32, p: Text, w: bv32)
    requires w != 0 && Xor(c, d) == Shifts(w, 32)
    ensures FeedAll(c, p) != FeedAll(d, p)
  {
    ShiftsInjective(w, 32);
    Apart(c, d);
    StayApart(c, d, p);
  }

  lemma {:induction false} StayApart(c: bv32, d: bv32, p: Text)
    requires c != d
    ensures FeedAll(c, p) != FeedAll(d, p)
    decreases |p|
  {
    hide Shifts, Word, Feed, Xor;
    if p != [] {
      Apart(c, d);
      WordDifference(p[0], p[0]);
      FeedDifference(c, d, p[0], p[0]);
      XorZero(Xor(c, d));
      ShiftsInjective(Xor(c, d), 8);
      Apart(Feed(c, p[0]), Feed(d, p[0]));
      StayApart(Feed(c, p[0]), Feed(d, p[0]), p[1..]);
    }
  }

  lemma {:induction false} BurstAfter(c: bv32, p: Text, q: Text, k: nat)
    requires |p| == |q| && p != q
    requires forall j :: 0 <= j < |p| && !(k <= j < k + 4) ==> p[j] == q[j]
    ensures FeedAll(c, p) != FeedAll(c, q)
    decreases k
  {
    if k == 0 {
      Apart(c, c);
      Burst(c, c, p, q, 0, 0);
    } else {
      assert p == [p[0]] + p[1..] && q == [q[0]] + q[1..];
      BurstAfter(Feed(c, p[0]), p[1..], q[1..], k - 1);
    }
  }

  lemma NumberOfWord(x: bv32)
    ensures (x as int) as bv32 == x
  {
  }

  /** Data that differ only within four consecutive bytes have different checksums. */
  lemma BurstDetected(p: Text, q: Text, k: nat)
    requires |p| == |q| && p != q
    requires forall j :: 0 <= j < |p| && !(k <= j < k + 4) ==> p[j] == q[j]
    ensures Crc32(p) != Crc32(q)
  {
    hide FeedAll, Number, Flip;
    var x, y := FeedAll(0xFFFF_FFFF, p), FeedAll(0xFFFF_FFFF, q);
    BurstAfter(0xFFFF_FFFF, p, q, k);
    FlipInjective(x, y);
    if Number(Flip(x)) == Number(Flip(y)) {
      NumberInjective(Flip(x), Flip(y));
    }
  }

  lemma FlipInjective(x: bv32, y: bv32)
    ensures Flip(x) == Flip(y) <==> x == y
  {
    assert Flip(Flip(x)) == x && Flip(Flip(y)) == y;
  }

  lemma NumberInjective(x: bv32, y: bv32)
    requires Number(x) == Number(y)
    ensures x == y
  {
    hide Flip;
    NumberOfWord(x);
    NumberOfWord(y);
  }
}
