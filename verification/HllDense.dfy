/**
 The dense form of a HyperLogLog sketch: 16384 six-bit counters packed end to end, so that most
 counters straddle two bytes, with one padding byte after the last.

 `Registers` gives the meaning of a packed array. Four counters fill exactly three bytes, which is
 what the proofs below follow: counter 4g+j lives in bytes 3g..3g+2 at one of four bit offsets.
 */
module HllDense {
  import opened HllSparse

  const REGISTERS: nat := 16384
  const HLL_BITS: nat := 6
  const REGISTER_MAX: nat := 63
  const DENSE_SIZE: nat := (REGISTERS * HLL_BITS + 7) / 8 + 1

  // Two-byte windows

  /** The counter that starts `firstBit` bits into `b0` and may continue in `b1`. */
  function Window(b0: bv8, b1: bv8, firstBit: nat): (v: nat)
    requires firstBit < 8
    ensures v <= REGISTER_MAX
  {
    ((((b0 as bv16) >> firstBit) | ((b1 as bv16) << (8 - firstBit))) & 63) as int
  }

  function WriteLow(b0: bv8, val: bv8, firstBit: nat): bv8
    requires firstBit < 8
  {
    (b0 & !(63 << firstBit)) | (val << firstBit)
  }

  function WriteHigh(b1: bv8, val: bv8, firstBit: nat): bv8
    requires firstBit < 8
  {
    (b1 & !(63 >> (8 - firstBit))) | (val >> (8 - firstBit))
  }

  lemma WindowWritten0(b0: bv8, b1: bv8, val: nat)
    requires val <= REGISTER_MAX
    ensures Window(WriteLow(b0, val as bv8, 0), WriteHigh(b1, val as bv8, 0), 0) == val
  {}

  lemma WindowWritten2(b0: bv8, b1: bv8, val: nat)
    requires val <= REGISTER_MAX
    ensures Window(WriteLow(b0, val as bv8, 2), WriteHigh(b1, val as bv8, 2), 2) == val
  {}

  lemma WindowWritten4(b0: bv8, b1: bv8, val: nat)
    requires val <= REGISTER_MAX
    ensures Window(WriteLow(b0, val as bv8, 4), WriteHigh(b1, val as bv8, 4), 4) == val
  {}

  lemma WindowWritten6(b0: bv8, b1: bv8, val: nat)
    requires val <= REGISTER_MAX
    ensures Window(WriteLow(b0, val as bv8, 6), WriteHigh(b1, val as bv8, 6), 6) == val
  {}

  /** Counters at offsets 0 and 2 do not reach their second byte. */
  lemma OneByteWindows(b: bv8, x: bv8, y: bv8, v: bv8)
    requires v <= 63
    ensures Window(b, x, 0) == Window(b, y, 0)
    ensures Window(b, x, 2) == Window(b, y, 2)
    ensures WriteHigh(b, v, 0) == b && WriteHigh(b, v, 2) == b
  {}

  /** Writing a counter leaves the next counter alone. */
  lemma NextWindow(a: bv8, b: bv8, v: bv8)
    requires v <= 63
    ensures Window(WriteLow(a, v, 0), b, 6) == Window(a, b, 6)
    ensures Window(WriteHigh(a, v, 6), b, 4) == Window(a, b, 4)
    ensures Window(WriteHigh(a, v, 4), b, 2) == Window(a, b, 2)
  {}

  /** Writing a counter leaves the previous counter alone. */
  lemma PreviousWindow(a: bv8, b: bv8, v: bv8)
    requires v <= 63
    ensures Window(WriteLow(a, v, 6), b, 0) == Window(a, b, 0)
    ensures Window(a, WriteLow(b, v, 4), 6) == Window(a, b, 6)
    ensures Window(a, WriteLow(b, v, 2), 4) == Window(a, b, 4)
  {}

  // Counters in an array

  function ByteIndex(regnum: nat): nat {
    regnum * HLL_BITS / 8
  }

  function FirstBit(regnum: nat): nat {
    regnum * HLL_BITS % 8
  }

  /** Where counter 4g+j lives; in particular no access leaves the array. */
  lemma Position(regnum: nat)
    requires regnum < REGISTERS
    ensures ByteIndex(regnum) + 1 < DENSE_SIZE
    ensures var g, j := regnum / 4, regnum % 4;
            && (j == 0 ==> ByteIndex(regnum) == 3 * g && FirstBit(regnum) == 0)
            && (j == 1 ==> ByteIndex(regnum) == 3 * g && FirstBit(regnum) == 6)
            && (j == 2 ==> ByteIndex(regnum) == 3 * g + 1 && FirstBit(regnum) == 4)
            && (j == 3 ==> ByteIndex(regnum) == 3 * g + 2 && FirstBit(regnum) == 2)
  {
    var g, j := regnum / 4, regnum % 4;
    assert regnum * HLL_BITS == 24 * g + 6 * j;
  }

  function GetDenseRegister(dense: Bytes, regnum: nat): (v: nat)
    requires |dense| == DENSE_SIZE && regnum < REGISTERS
    ensures v <= REGISTER_MAX
  {
    Position(regnum);
    Window(dense[ByteIndex(regnum)], dense[ByteIndex(regnum) + 1], FirstBit(regnum))
  }

  /** The registers a packed array stands for. */
  ghost function Registers(dense: Bytes): (regs: seq<nat>)
    requires |dense| == DENSE_SIZE
    ensures |regs| == REGISTERS
    ensures forall r :: 0 <= r < REGISTERS ==> regs[r] == GetDenseRegister(dense, r)
  {
    seq(REGISTERS, r requires 0 <= r < REGISTERS => GetDenseRegister(dense, r))
  }

  /** The array after writing `val` into counter `regnum`. */
  ghost function Written(dense: Bytes, regnum: nat, val: nat): (d: Bytes)
    requires |dense| == DENSE_SIZE && regnum < REGISTERS && val <= REGISTER_MAX
    ensures |d| == |dense|
  {
    Position(regnum);
    var i, bit := ByteIndex(regnum), FirstBit(regnum);
    dense[i := WriteLow(dense[i], val as bv8, bit)][i + 1 := WriteHigh(dense[i + 1], val as bv8, bit)]
  }

  lemma WrittenAt(dense: Bytes, regnum: nat, val: nat)
    requires |dense| == DENSE_SIZE && regnum < REGISTERS && val <= REGISTER_MAX
    ensures GetDenseRegister(Written(dense, regnum, val), regnum) == val
  {
    hide Window, WriteLow, WriteHigh;
    Position(regnum);
    var a, b := dense[ByteIndex(regnum)], dense[ByteIndex(regnum) + 1];
    WindowWritten0(a, b, val);
    WindowWritten2(a, b, val);
    WindowWritten4(a, b, val);
    WindowWritten6(a, b, val);
  }

  lemma WrittenElsewhere(dense: Bytes, regnum: nat, val: nat, other: nat)
    requires |dense| == DENSE_SIZE && regnum < REGISTERS && val <= REGISTER_MAX
    requires other < REGISTERS && other != regnum
    ensures GetDenseRegister(Written(dense, regnum, val), other) == GetDenseRegister(dense, other)
  {
    hide Window, WriteLow, WriteHigh, ByteIndex, FirstBit;
    Position(regnum);
    Position(other);
    var v := val as bv8;
    assert v <= 63;
    var d := Written(dense, regnum, val);
    var i, k := ByteIndex(regnum), ByteIndex(other);
    NextWindow(dense[k], dense[k + 1], v);
    PreviousWindow(dense[k], dense[k + 1], v);
    OneByteWindows(dense[i + 1], 0, 0, v);
    OneByteWindows(d[k], dense[k + 1], d[k + 1], v);
  }

  /** Writing one counter is exactly one register update, though counters straddle bytes. */
  lemma WrittenMeaning(dense: Bytes, regnum: nat, val: nat)
    requires |dense| == DENSE_SIZE && regnum < REGISTERS && val <= REGISTER_MAX
    ensures Registers(Written(dense, regnum, val)) == Registers(dense)[regnum := val]
  {
    hide GetDenseRegister, Written;
    WrittenAt(dense, regnum, val);
    forall r | 0 <= r < REGISTERS && r != regnum
      ensures Registers(Written(dense, regnum, val))[r] == Registers(dense)[r]
    {
      WrittenElsewhere(dense, regnum, val, r);
    }
  }

  /** Values above the counter's width are clamped. */
  function Clamp(val: nat): nat {
    if val > REGISTER_MAX then REGISTER_MAX else val
  }

  /** Raises one counter in place; `changed` is true exactly when the registers changed. */
  method SetDenseRegister(dense: array<bv8>, regnum: nat, val: nat) returns (changed: bool)
    requires dense.Length == DENSE_SIZE && regnum < REGISTERS
    modifies dense
    ensures Registers(dense[..]) == Raise(old(Registers(dense[..])), regnum, Clamp(val))
    ensures changed <==> Registers(dense[..]) != old(Registers(dense[..]))
    ensures !changed ==> dense[..] == old(dense[..])
  {
    hide GetDenseRegister, Registers, Window, WriteLow, WriteHigh, ByteIndex, FirstBit;
    var v := Clamp(val);
    ghost var was := dense[..];
    if v <= GetDenseRegister(dense[..], regnum) {
      return false;
    }
    Position(regnum);
    var i, bit := ByteIndex(regnum), FirstBit(regnum);
    dense[i] := WriteLow(dense[i], v as bv8, bit);
    dense[i + 1] := WriteHigh(dense[i + 1], v as bv8, bit);
    assert dense[..] == Written(was, regnum, v);
    WrittenMeaning(was, regnum, v);
    return true;
  }

  /** A zeroed array stands for 16384 zero registers. */
  lemma ZeroedRegisters(dense: Bytes)
    requires |dense| == DENSE_SIZE && forall i :: 0 <= i < |dense| ==> dense[i] == 0
    ensures Registers(dense) == Repeat(0, REGISTERS)
  {
    forall r | 0 <= r < REGISTERS
      ensures GetDenseRegister(dense, r) == 0
    {
      Position(r);
      assert forall bit: nat :: bit < 8 ==> Window(0, 0, bit) == 0;
    }
  }

  /** The histogram of a packed array, counted register by register. */
  method DenseHisto(dense: array<bv8>) returns (histo: seq<nat>)
    requires dense.Length == DENSE_SIZE
    ensures IsHistogram(histo, Registers(dense[..]))
  {
    hide GetDenseRegister;
    var counts := new nat[64](_ => 0);
    ghost var regs := Registers(dense[..]);
    for r := 0 to REGISTERS
      invariant regs == Registers(dense[..])
      invariant forall v :: 0 <= v < 64 ==> counts[v] == Occurrences(regs[..r], v)
    {
      var x := GetDenseRegister(dense[..], r);
      assert regs[..r + 1] == regs[..r] + [x];
      assert regs[..r + 1][..r] == regs[..r];
      counts[x] := counts[x] + 1;
    }
    assert regs[..REGISTERS] == regs;
    histo := counts[..];
  }
}
