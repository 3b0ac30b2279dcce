/**
 Hash slots: the table-driven CRC16 of a key, or of its hash tag, modulo 16384.

 The checksum is proved equal to the remainder of long division over GF(2): the bits of the message,
 followed by sixteen zero bits, divided by x^16 + x^12 + x^5 + 1.
 */
module Slot {

  const NUM_SLOTS: nat := 16384

  // The shift register

  function Xor(x: bv16, y: bv16): bv16 {
    x ^ y
  }

  /** One step of the register: shift left, subtract the divisor if a bit fell out. */
  function Shift(crc: bv16): bv16 {
    if crc & 0x8000 != 0 then (crc << 1) ^ 0x1021 else crc << 1
  }

  function Shifts(crc: bv16, n: nat): bv16 {
    if n == 0 then crc else Shift(Shifts(crc, n - 1))
  }

  lemma ShiftLinearClear(x: bv16, y: bv16)
    requires x & 0x8000 == 0 && y & 0x8000 == 0
    ensures Shift(Xor(x, y)) == Xor(Shift(x), Shift(y))
  {}

  lemma ShiftLinearMixed(x: bv16, y: bv16)
    requires x & 0x8000 != 0 && y & 0x8000 == 0
    ensures Shift(Xor(x, y)) == Xor(Shift(x), Shift(y))
  {}

  lemma ShiftLinearSet(x: bv16, y: bv16)
    requires x & 0x8000 != 0 && y & 0x8000 != 0
    ensures Shift(Xor(x, y)) == Xor(Shift(x), Shift(y))
  {}

  lemma XorCommutes(x: bv16, y: bv16)
    ensures Xor(x, y) == Xor(y, x)
  {}

  lemma ShiftLinear(x: bv16, y: bv16)
    ensures Shift(Xor(x, y)) == Xor(Shift(x), Shift(y))
  {
    hide Shift, Xor;
    if x & 0x8000 == 0 {
      if y & 0x8000 == 0 {
        ShiftLinearClear(x, y);
      } else {
        ShiftLinearMixed(y, x);
        XorCommutes(x, y);
        XorCommutes(Shift(x), Shift(y));
      }
    } else if y & 0x8000 == 0 {
      ShiftLinearMixed(x, y);
    } else {
      ShiftLinearSet(x, y);
    }
  }

  lemma {:induction false} ShiftsLinear(x: bv16, y: bv16, n: nat)
    ensures Shifts(Xor(x, y), n) == Xor(Shifts(x, n), Shifts(y, n))
  {
    hide Shift, Xor;
    if n > 0 {
      ShiftsLinear(x, y, n - 1);
      ShiftLinear(Shifts(x, n - 1), Shifts(y, n - 1));
    }
  }

  // A byte at a time

  /** A byte of the message enters the register at its high end. */
  function High(b: bv8): bv16 {
    (b as bv16) << 8
  }

  function LowByte(crc: bv16): bv16 {
    crc & 0x00FF
  }

  function TableIndex(crc: bv16, b: bv8): bv8 {
    ((crc >> 8) as bv8) ^ b
  }

  /** The table entry for a byte. */
  ghost function Entry(i: bv8): bv16 {
    Shifts(High(i), 8)
  }

  ghost predicate IsTable(t: seq<bv16>) {
    |t| == 256 && forall i :: 0 <= i < 256 ==> t[i] == Entry(i as bv8)
  }

  /** The table as it is built at startup. */
  method BuildTable() returns (t: array<bv16>)
    ensures fresh(t) && t.Length == 256 && IsTable(t[..])
  {
    hide Shift, High;
    t := new bv16[256];
    for i := 0 to 256
      invariant forall j :: 0 <= j < i ==> t[j] == Entry(j as bv8)
    {
      var crc := High(i as bv8);
      for k := 0 to 8
        invariant crc == Shifts(High(i as bv8), k)
      {
        crc := Shift(crc);
      }
      t[i] := crc;
    }
  }

  /** The low byte only moves up: no bit of it falls out within eight steps. */
  lemma LowByteMovesUp(crc: bv16)
    ensures Shifts(LowByte(crc), 8) == crc << 8
  {
    var x := LowByte(crc);
    assert Shifts(x, 1) == x << 1;
    assert Shifts(x, 2) == x << 2;
    assert Shifts(x, 3) == x << 3;
    assert Shifts(x, 4) == x << 4;
    assert Shifts(x, 5) == x << 5;
    assert Shifts(x, 6) == x << 6;
    assert Shifts(x, 7) == x << 7;
  }

  lemma SplitBits(crc: bv16, b: bv8)
    ensures crc ^ High(b) == High(TableIndex(crc, b)) ^ (crc & 0x00FF)
  {}

  lemma XorDef(x: bv16, y: bv16)
    ensures Xor(x, y) == x ^ y
  {}

  lemma SplitRegister(crc: bv16, b: bv8)
    ensures Xor(crc, High(b)) == Xor(High(TableIndex(crc, b)), LowByte(crc))
  {
    hide High, TableIndex, Xor;
    SplitBits(crc, b);
    XorDef(crc, High(b));
    XorDef(High(TableIndex(crc, b)), crc & 0x00FF);
  }

  /** One table step is eight single-bit steps on the register with the byte mixed in. */
  lemma TableStep(crc: bv16, b: bv8)
    ensures Xor(crc << 8, Entry(TableIndex(crc, b))) == Shifts(Xor(crc, High(b)), 8)
  {
    hide Shifts, High, TableIndex, Xor, LowByte;
    var i := TableIndex(crc, b);
    SplitRegister(crc, b);
    LowByteMovesUp(crc);
    ShiftsLinear(High(i), LowByte(crc), 8);
    XorCommutes(Shifts(High(i), 8), crc << 8);
  }

  /** The checksum of a message. */
  function Checksum(s: seq<bv8>): bv16 {
    if s == [] then 0 else Shifts(Xor(Checksum(s[..|s| - 1]), High(s[|s| - 1])), 8)
  }

  lemma ByteIndex(t: seq<bv16>, k: bv8)
    requires IsTable(t)
    ensures t[k as int] == Entry(k)
  {
    hide Entry;
    assert (k as int) as bv8 == k;
  }

  /** The table-driven loop computes the checksum. */
  method CRC16(s: seq<bv8>, table: array<bv16>) returns (crc: bv16)
    requires table.Length == 256 && IsTable(table[..])
    ensures crc == Checksum(s)
  {
    hide Shifts, High, TableIndex, Entry, IsTable, Xor;
    crc := 0;
    for i := 0 to |s|
      invariant crc == Checksum(s[..i])
    {
      TableStep(crc, s[i]);
      ByteIndex(table[..], TableIndex(crc, s[i]));
      assert s[..i + 1][..i] == s[..i];
      crc := Xor(crc << 8, table[TableIndex(crc, s[i]) as int]);
    }
    assert s[..|s|] == s;
  }
}
