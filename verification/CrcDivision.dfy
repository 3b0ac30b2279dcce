/**
 The checksum of the shift register is the remainder of polynomial long division over GF(2), which
 is written out here on bit sequences without reference to registers, shifts or tables.
 */
module CrcDivision {
  import opened Slot

  type Bits = seq<bool>

  // The reference: long division

  function XorBits(a: Bits, b: Bits): (r: Bits)
    requires |a| == |b|
    ensures |r| == |a| && forall i :: 0 <= i < |a| ==> r[i] == (a[i] != b[i])
  {
    seq(|a|, i requires 0 <= i < |a| => a[i] != b[i])
  }

  /** x^16 + x^12 + x^5 + 1 without its leading term. */
  const DIVISOR: Bits :=
    [false, false, false, true, false, false, false, false,
     false, false, true, false, false, false, false, true]

  const ZEROS: Bits :=
    [false, false, false, false, false, false, false, false,
     false, false, false, false, false, false, false, false]

  /** One step: if the leading bit is set, subtract the divisor below it; then drop it. */
  function Reduce(bits: Bits): (r: Bits)
    requires |bits| > 16
    ensures |r| == |bits| - 1
  {
    if bits[0] then XorBits(bits[1..17], DIVISOR) + bits[17..] else bits[1..]
  }

  function Remainder(bits: Bits): (r: Bits)
    requires |bits| >= 16
    ensures |r| == 16
    decreases |bits|
  {
    if |bits| == 16 then bits else Remainder(Reduce(bits))
  }

  /** The bits of a register, most significant first. */
  function TopBits(x: bv16, n: nat): (b: Bits)
    ensures |b| == n
    decreases n
  {
    if n == 0 then [] else [x & 0x8000 != 0] + TopBits(x << 1, n - 1)
  }

  function MessageBits(s: seq<bv8>): Bits {
    if s == [] then [] else MessageBits(s[..|s| - 1]) + TopBits(High(s[|s| - 1]), 8)
  }

  // The register fed bit by bit

  function TopBit(b: bool): bv16 {
    if b then 0x8000 else 0
  }

  function FeedBit(r: bv16, b: bool): bv16 {
    Shift(Xor(r, TopBit(b)))
  }

  function Feed(r: bv16, m: Bits): bv16
    decreases |m|
  {
    if m == [] then r else Feed(FeedBit(r, m[0]), m[1..])
  }

  lemma {:induction false} FeedConcat(r: bv16, a: Bits, b: Bits)
    ensures Feed(r, a + b) == Feed(Feed(r, a), b)
    decreases |a|
  {
    hide FeedBit;
    if a == [] {
      assert a + b == b;
    } else {
      assert (a + b)[1..] == a[1..] + b;
      FeedConcat(FeedBit(r, a[0]), a[1..], b);
    }
  }

  // Eight bits are one byte step

  function Drop(h: bv16, n: nat): bv16
    decreases n
  {
    if n == 0 then h else Drop(h << 1, n - 1)
  }

  lemma {:induction false} ShiftsFront(x: bv16, n: nat)
    ensures Shifts(x, n + 1) == Shifts(Shift(x), n)
  {
    hide Shift;
    if n > 0 {
      ShiftsFront(x, n - 1);
    }
  }

  /** Bits waiting below the top of the register do not disturb the step on the top bit. */
  lemma SplitTop(h: bv16)
    ensures Xor(h & 0x8000, h & 0x7FFF) == h
    ensures Shift(h & 0x7FFF) == h << 1
    ensures TopBit(h & 0x8000 != 0) == h & 0x8000
  {}

  lemma XorAssociates(x: bv16, y: bv16, z: bv16)
    ensures Xor(Xor(x, y), z) == Xor(x, Xor(y, z))
  {}

  lemma FeedTop(f: bv16, h: bv16)
    ensures Shift(Xor(f, h)) == Xor(FeedBit(f, h & 0x8000 != 0), h << 1)
  {
    hide Shift, Xor, TopBit;
    SplitTop(h);
    XorAssociates(f, h & 0x8000, h & 0x7FFF);
    ShiftLinear(Xor(f, h & 0x8000), h & 0x7FFF);
  }

  lemma {:induction false} FeedTopBits(f: bv16, h: bv16, n: nat)
    ensures Shifts(Xor(f, h), n) == Xor(Feed(f, TopBits(h, n)), Drop(h, n))
    decreases n
  {
    hide Shift, Xor, FeedBit;
    if n > 0 {
      ShiftsFront(Xor(f, h), n - 1);
      FeedTop(f, h);
      FeedTopBits(FeedBit(f, h & 0x8000 != 0), h << 1, n - 1);
      assert TopBits(h, n)[1..] == TopBits(h << 1, n - 1);
    }
  }

  lemma DropByte(b: bv8)
    ensures Drop(High(b), 8) == 0
  {
    var h := High(b);
    assert Drop(h << 7, 1) == 0;
    assert Drop(h << 6, 2) == 0;
    assert Drop(h << 5, 3) == 0;
    assert Drop(h << 4, 4) == 0;
    assert Drop(h << 3, 5) == 0;
    assert Drop(h << 2, 6) == 0;
    assert Drop(h << 1, 7) == 0;
  }

  lemma XorZero(x: bv16)
    ensures Xor(x, 0) == x
  {}

  /** The byte-wise checksum feeds every bit of the message into an initially zero register. */
  lemma {:induction false} ChecksumFeeds(s: seq<bv8>)
    ensures Checksum(s) == Feed(0, MessageBits(s))
  {
    hide Shifts, High, Xor, Drop;
    if s != [] {
      var init, last := s[..|s| - 1], s[|s| - 1];
      ChecksumFeeds(init);
      FeedTopBits(Checksum(init), High(last), 8);
      DropByte(last);
      XorZero(Feed(Checksum(init), TopBits(High(last), 8)));
      FeedConcat(0, MessageBits(init), TopBits(High(last), 8));
    }
  }

  // The register against long division

  function ToBits(x: bv16): (b: Bits)
    ensures |b| == 16
  {
    TopBits(x, 16)
  }

  lemma {:induction false} TopBitsXor(x: bv16, y: bv16, n: nat)
    ensures TopBits(Xor(x, y), n) == XorBits(TopBits(x, n), TopBits(y, n))
    decreases n
  {
    hide Xor, TopBits, XorBits;
    if n == 0 {
      NoTopBits(x, y);
    } else {
      XorTop(x, y);
      XorShift(x, y);
      TopBitsXor(x << 1, y << 1, n - 1);
      TopBitsFirst(Xor(x, y), n - 1);
      TopBitsFirst(x, n - 1);
      TopBitsFirst(y, n - 1);
      XorBitsFirst(x & 0x8000 != 0, TopBits(x << 1, n - 1), y & 0x8000 != 0, TopBits(y << 1, n - 1));
    }
  }

  lemma NoTopBits(x: bv16, y: bv16)
    ensures TopBits(Xor(x, y), 0) == XorBits(TopBits(x, 0), TopBits(y, 0))
  {}

  lemma XorBitsFirst(a: bool, s: Bits, b: bool, t: Bits)
    requires |s| == |t|
    ensures XorBits([a] + s, [b] + t) == [a != b] + XorBits(s, t)
  {}

  lemma XorTop(x: bv16, y: bv16)
    ensures (Xor(x, y) & 0x8000 != 0) == ((x & 0x8000 != 0) != (y & 0x8000 != 0))
  {}

  lemma XorShiftBits(x: bv16, y: bv16)
    ensures (x ^ y) << 1 == (x << 1) ^ (y << 1)
  {}

  lemma XorShift(x: bv16, y: bv16)
    ensures Xor(x, y) << 1 == Xor(x << 1, y << 1)
  {
    hide Xor;
    XorShiftBits(x, y);
    XorDef(x, y);
    XorDef(x << 1, y << 1);
  }

  lemma {:induction false} TopBitsLast(h: bv16, n: nat)
    ensures TopBits(h, n + 1) == TopBits(h, n) + [Drop(h, n) & 0x8000 != 0]
    decreases n
  {
    if n > 0 {
      TopBitsLast(h << 1, n - 1);
    }
  }

  lemma DropAll(x: bv16)
    ensures Drop(x << 1, 15) == 0
  {
    assert Drop(x << 15, 1) == 0;
    assert Drop(x << 14, 2) == 0;
    assert Drop(x << 13, 3) == 0;
    assert Drop(x << 12, 4) == 0;
    assert Drop(x << 11, 5) == 0;
    assert Drop(x << 10, 6) == 0;
    assert Drop(x << 9, 7) == 0;
    assert Drop(x << 8, 8) == 0;
    assert Drop(x << 7, 9) == 0;
    assert Drop(x << 6, 10) == 0;
    assert Drop(x << 5, 11) == 0;
    assert Drop(x << 4, 12) == 0;
    assert Drop(x << 3, 13) == 0;
    assert Drop(x << 2, 14) == 0;
  }

  lemma ShiftedBits(x: bv16)
    ensures ToBits(x << 1) == ToBits(x)[1..] + [false]
  {
    hide Drop, TopBits;
    TopBitsLast(x << 1, 15);
    DropAll(x);
    assert TopBits(x, 16) == [x & 0x8000 != 0] + TopBits(x << 1, 15) by { TopBitsFirst(x, 15); }
  }

  lemma TopBitsFirst(x: bv16, n: nat)
    ensures TopBits(x, n + 1) == [x & 0x8000 != 0] + TopBits(x << 1, n)
  {}

  lemma DivisorTail()
    ensures TopBits(0x2100, 8) == DIVISOR[8..]
  {
    assert TopBits(0x8000, 1) == DIVISOR[15..];
    assert TopBits(0x4000, 2) == DIVISOR[14..];
    assert TopBits(0x2000, 3) == DIVISOR[13..];
    assert TopBits(0x1000, 4) == DIVISOR[12..];
    assert TopBits(0x0800, 5) == DIVISOR[11..];
    assert TopBits(0x8400, 6) == DIVISOR[10..];
    assert TopBits(0x4200, 7) == DIVISOR[9..];
  }

  lemma DivisorMiddle()
    ensures TopBits(0x0210, 12) == DIVISOR[4..]
  {
    DivisorTail();
    assert TopBits(0x1080, 9) == DIVISOR[7..];
    assert TopBits(0x0840, 10) == DIVISOR[6..];
    assert TopBits(0x0420, 11) == DIVISOR[5..];
  }

  lemma DivisorBits()
    ensures ToBits(0x1021) == DIVISOR
  {
    DivisorMiddle();
    assert TopBits(0x8108, 13) == DIVISOR[3..];
    assert TopBits(0x4084, 14) == DIVISOR[2..];
    assert TopBits(0x2042, 15) == DIVISOR[1..];
  }

  lemma {:induction false} ZeroBits(n: nat)
    requires n <= 16
    ensures TopBits(0, n) == ZEROS[..n]
  {
    if n > 0 {
      ZeroBits(n - 1);
      assert ZEROS[..n] == [false] + ZEROS[..n - 1];
    }
  }

  /** What one fed bit does to the bits of the register. */
  lemma FeedBitBits(r: bv16, b: bool)
    ensures var shifted := ToBits(r)[1..] + [false];
            ToBits(FeedBit(r, b)) == if ToBits(r)[0] != b then XorBits(shifted, DIVISOR) else shifted
  {
    hide FeedBit, Xor, TopBits;
    if (r & 0x8000 != 0) == b {
      FeedBitStays(r, b);
    } else {
      FeedBitReduces(r, b);
    }
    TopBitsFirst(r, 15);
    ShiftedBits(r);
    DivisorBits();
    TopBitsXor(r << 1, 0x1021, 16);
  }

  lemma FeedBitStays(r: bv16, b: bool)
    requires (r & 0x8000 != 0) == b
    ensures FeedBit(r, b) == r << 1
  {}

  lemma FeedBitReduces(r: bv16, b: bool)
    requires (r & 0x8000 != 0) != b
    ensures FeedBit(r, b) == Xor(r << 1, 0x1021)
  {}

  /** A dividend whose first sixteen bits have the register mixed in. */
  function Mixed(m: Bits, r: Bits): (d: Bits)
    requires |r| == 16
    ensures |d| == |m| + 16
  {
    XorBits((m + ZEROS)[..16], r) + (m + ZEROS)[16..]
  }

  lemma MixedTail(m: Bits, r: Bits)
    requires m != [] && |r| == 16
    ensures var d, rest := Mixed(m, r), m[1..] + ZEROS;
            && d[0] == (m[0] != r[0])
            && d[1..17] == XorBits(rest[..16], r[1..] + [false])
            && d[17..] == rest[16..]
  {
    var whole, rest, d := m + ZEROS, m[1..] + ZEROS, Mixed(m, r);
    assert whole[1..] == rest;
    assert d[17..] == whole[17..] == rest[16..];
    forall i | 0 <= i < 16
      ensures d[1..17][i] == XorBits(rest[..16], r[1..] + [false])[i]
    {
      assert whole[i + 1] == rest[i];
    }
  }

  lemma XorBitsAssociates(a: Bits, b: Bits, c: Bits)
    requires |a| == |b| == |c|
    ensures XorBits(XorBits(a, b), c) == XorBits(a, XorBits(b, c))
  {}

  lemma ReduceMixed(m: Bits, r: bv16)
    requires m != []
    ensures Reduce(Mixed(m, ToBits(r))) == Mixed(m[1..], ToBits(FeedBit(r, m[0])))
  {
    hide ToBits, FeedBit, Mixed, XorBits;
    var shifted, rest := ToBits(r)[1..] + [false], m[1..] + ZEROS;
    FeedBitBits(r, m[0]);
    MixedTail(m, ToBits(r));
    XorBitsAssociates(rest[..16], shifted, DIVISOR);
    MixedDef(m[1..], ToBits(FeedBit(r, m[0])));
    var d := Mixed(m, ToBits(r));
    assert d[1..] == d[1..17] + d[17..];
  }

  lemma MixedDef(m: Bits, r: Bits)
    requires |r| == 16
    ensures Mixed(m, r) == XorBits((m + ZEROS)[..16], r) + (m + ZEROS)[16..]
  {}

  lemma {:induction false} FeedDivides(m: Bits, r: bv16)
    ensures Remainder(Mixed(m, ToBits(r))) == ToBits(Feed(r, m))
  {
    hide ToBits, FeedBit, Reduce;
    if m == [] {
      assert Mixed(m, ToBits(r)) == ToBits(r);
    } else {
      ReduceMixed(m, r);
      FeedDivides(m[1..], FeedBit(r, m[0]));
    }
  }

  lemma ZeroRegister()
    ensures ToBits(0) == ZEROS
  {
    ZeroBits(16);
  }

  /** The checksum of every message is the remainder of its bits times x^16. */
  lemma ChecksumIsRemainder(s: seq<bv8>)
    ensures ToBits(Checksum(s)) == Remainder(MessageBits(s) + ZEROS)
  {
    hide ToBits, Feed, Remainder, Checksum;
    ChecksumFeeds(s);
    ZeroRegister();
    FeedDivides(MessageBits(s), 0);
    assert Mixed(MessageBits(s), ZEROS) == MessageBits(s) + ZEROS;
  }
}
