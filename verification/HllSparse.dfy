/**
 The sparse form of a HyperLogLog sketch: a byte stream of ZERO, XZERO and VAL
 opcodes, each standing for a run of equal registers.

 `Expand` gives the meaning of a stream, the registers it stands for, and every
 operation of this file is specified by what it does to that meaning.
 */
module HllSparse {

  type Bytes = seq<bv8>

  const ZERO_MAX_LEN: nat := 64
  const XZERO_MAX_LEN: nat := 16384
  const VAL_MAX_VALUE: nat := 32
  const VAL_MAX_LEN: nat := 4

  // Opcodes

  function EncodeZero(length: nat): bv8
    requires 1 <= length <= ZERO_MAX_LEN
  {
    (length - 1) as bv8
  }

  function EncodeXZero(length: nat): Bytes
    requires 1 <= length <= XZERO_MAX_LEN
  {
    var n := (length - 1) as bv16;
    [((0x40 | (n >> 8)) & 0xFF) as bv8, (n & 0xFF) as bv8]
  }

  function EncodeVal(value: nat, length: nat): bv8
    requires 1 <= value <= VAL_MAX_VALUE && 1 <= length <= VAL_MAX_LEN
  {
    0x80 | (((value - 1) as bv8) << 2) | ((length - 1) as bv8)
  }

  datatype OpKind = OpZero | OpXZero | OpVal

  function DecodeOpKind(b: bv8): OpKind {
    if b & 0x80 != 0 then OpVal else if b & 0x40 != 0 then OpXZero else OpZero
  }

  function DecodeZero(b: bv8): nat {
    b as int + 1
  }

  function DecodeXZero(b0: bv8, b1: bv8): nat {
    ((((b0 & 0x3F) as bv16) << 8) | (b1 as bv16)) as int + 1
  }

  function DecodeValValue(b: bv8): nat {
    ((b >> 2) & 0x1F) as int + 1
  }

  function DecodeValLen(b: bv8): nat {
    (b & 0x03) as int + 1
  }

  /** One decoded opcode: a run of `len` registers holding `value`, stored in `size` bytes. */
  datatype Op = Op(kind: OpKind, value: nat, len: nat, size: nat)

  /** True if `s` starts with a complete opcode. */
  predicate HasOp(s: Bytes) {
    s != [] && (DecodeOpKind(s[0]).OpXZero? ==> |s| >= 2)
  }

  /** The opcode at the front of `s`; every field lies within the width the format gives it. */
  function FirstOp(s: Bytes): (op: Op)
    requires HasOp(s)
    ensures 1 <= op.size <= 2 && op.size <= |s|
    ensures op.kind.OpVal? ==> 1 <= op.value <= VAL_MAX_VALUE && 1 <= op.len <= VAL_MAX_LEN
    ensures !op.kind.OpVal? ==> op.value == 0 && 1 <= op.len <= XZERO_MAX_LEN
  {
    match DecodeOpKind(s[0])
    case OpZero => Op(OpZero, 0, DecodeZero(s[0]), 1)
    case OpXZero => Op(OpXZero, 0, DecodeXZero(s[0], s[1]), 2)
    case OpVal => Op(OpVal, DecodeValValue(s[0]), DecodeValLen(s[0]), 1)
  }

  lemma ZeroRoundTrip(length: nat)
    requires 1 <= length <= ZERO_MAX_LEN
    ensures FirstOp([EncodeZero(length)]) == Op(OpZero, 0, length, 1)
  {
    hide DecodeXZero, DecodeValValue, DecodeValLen, DecodeZero, EncodeZero;
    ZeroValue(length);
    ZeroIsSmall(length);
    SmallByte(EncodeZero(length));
  }

  lemma ZeroValue(length: nat)
    requires 1 <= length <= ZERO_MAX_LEN
    ensures DecodeZero(EncodeZero(length)) == length
  {
    ByteOfNat(length - 1);
  }

  lemma ByteOfNat(n: nat)
    requires n < 64
    ensures (n as bv8) as int == n
  {}

  lemma ZeroIsSmall(length: nat)
    requires 1 <= length <= ZERO_MAX_LEN
    ensures EncodeZero(length) < 64
  {}

  lemma SmallByte(b: bv8)
    requires b < 64
    ensures b & 0x80 == 0 && b & 0x40 == 0
  {}

  lemma XZeroDecodes(length: nat)
    requires 1 <= length <= XZERO_MAX_LEN
    ensures var s := EncodeXZero(length);
            && DecodeXZero(s[0], s[1]) == length
            && s[0] & 0x80 == 0 && s[0] & 0x40 != 0
  {}

  lemma XZeroRoundTrip(length: nat)
    requires 1 <= length <= XZERO_MAX_LEN
    ensures HasOp(EncodeXZero(length))
    ensures FirstOp(EncodeXZero(length)) == Op(OpXZero, 0, length, 2)
  {
    XZeroDecodes(length);
  }

  lemma ValRoundTrip(value: nat, length: nat)
    requires 1 <= value <= VAL_MAX_VALUE && 1 <= length <= VAL_MAX_LEN
    ensures FirstOp([EncodeVal(value, length)]) == Op(OpVal, value, length, 1)
  {
    var v, l := (value - 1) as bv8, (length - 1) as bv8;
    assert v <= 31 && l <= 3;
    var b := EncodeVal(value, length);
    assert b & 0x80 != 0;
    assert (b >> 2) & 0x1F == v && b & 0x03 == l;
  }

  // Meaning

  function Repeat(value: nat, n: nat): (r: seq<nat>)
    ensures |r| == n && forall i :: 0 <= i < n ==> r[i] == value
  {
    seq(n, _ => value)
  }

  ghost predicate WellFormed(s: Bytes) {
    s == [] || (HasOp(s) && WellFormed(s[FirstOp(s).size..]))
  }

  /** The registers a well-formed stream stands for. */
  ghost function Expand(s: Bytes): seq<nat>
    requires WellFormed(s)
  {
    if s == [] then []
    else Repeat(FirstOp(s).value, FirstOp(s).len) + Expand(s[FirstOp(s).size..])
  }

  /** Register update of a sketch: position `index` is raised to `val`, nothing else moves. */
  function Raise(regs: seq<nat>, index: nat, val: nat): (r: seq<nat>)
    ensures |r| == |regs|
  {
    if index < |regs| && regs[index] < val then regs[index := val] else regs
  }

  lemma FirstOpConcat(a: Bytes, b: Bytes)
    requires HasOp(a)
    ensures HasOp(a + b) && FirstOp(a + b) == FirstOp(a)
    ensures (a + b)[FirstOp(a).size..] == a[FirstOp(a).size..] + b
  {}

  lemma ExpandConcatStep(a: Bytes, b: Bytes, t: Bytes)
    requires HasOp(a) && t == a[FirstOp(a).size..] && WellFormed(t) && WellFormed(b)
    requires HasOp(a + b) && FirstOp(a + b) == FirstOp(a) && (a + b)[FirstOp(a).size..] == t + b
    requires WellFormed(t + b) && Expand(t + b) == Expand(t) + Expand(b)
    ensures WellFormed(a + b) && Expand(a + b) == Expand(a) + Expand(b)
  {
    assert Expand(a + b) == Repeat(FirstOp(a).value, FirstOp(a).len) + Expand(t + b);
  }

  /** Concatenating streams concatenates the registers they stand for. */
  lemma {:induction false} ExpandConcat(a: Bytes, b: Bytes)
    requires WellFormed(a) && WellFormed(b)
    ensures WellFormed(a + b) && Expand(a + b) == Expand(a) + Expand(b)
  {
    if a == [] {
      assert a + b == b;
    } else {
      FirstOpConcat(a, b);
      ExpandConcat(a[FirstOp(a).size..], b);
      ExpandConcatStep(a, b, a[FirstOp(a).size..]);
    }
  }

  lemma ExpandOne(s: Bytes)
    requires HasOp(s) && FirstOp(s).size == |s|
    ensures WellFormed(s) && Expand(s) == Repeat(FirstOp(s).value, FirstOp(s).len)
  {
    assert s[|s|..] == [];
    assert WellFormed(s[|s|..]);
  }

  /** A well-formed stream splits after its first opcode. */
  lemma SplitFirst(s: Bytes)
    requires WellFormed(s) && s != []
    ensures var k := FirstOp(s).size;
            && WellFormed(s[..k]) && Expand(s[..k]) == Repeat(FirstOp(s).value, FirstOp(s).len)
            && WellFormed(s[k..]) && Expand(s) == Expand(s[..k]) + Expand(s[k..])
  {
    var k := FirstOp(s).size;
    assert FirstOp(s[..k]) == FirstOp(s);
    ExpandOne(s[..k]);
  }

  /** One step of a walk: position and register count move past one opcode. */
  lemma WalkStep(s: Bytes, pos: nat)
    requires pos < |s| && WellFormed(s[..pos]) && WellFormed(s[pos..])
    ensures HasOp(s[pos..])
    ensures var op := FirstOp(s[pos..]);
            && pos + op.size <= |s|
            && WellFormed(s[..pos + op.size]) && WellFormed(s[pos + op.size..])
            && Expand(s[..pos + op.size]) == Expand(s[..pos]) + Repeat(op.value, op.len)
            && Expand(s[pos..]) == Repeat(op.value, op.len) + Expand(s[pos + op.size..])
  {
    var op := FirstOp(s[pos..]);
    SplitFirst(s[pos..]);
    assert s[pos..][op.size..] == s[pos + op.size..];
    assert s[..pos] + s[pos..][..op.size] == s[..pos + op.size];
    ExpandConcat(s[..pos], s[pos..][..op.size]);
  }

  // Walking and reading

  /** What one call of a walk's visitor is given. */
  datatype Run = Run(start: nat, len: nat, value: nat)

  /** The registers described by consecutive runs. */
  ghost function Flatten(runs: seq<Run>): seq<nat> {
    if runs == [] then []
    else Flatten(runs[..|runs| - 1]) + Repeat(runs[|runs| - 1].value, runs[|runs| - 1].len)
  }

  /** Runs are contiguous from 0 and carry values the VAL opcode can hold. */
  ghost predicate Contiguous(runs: seq<Run>) {
    forall i :: 0 <= i < |runs| ==>
      && runs[i].start == |Flatten(runs[..i])|
      && runs[i].value <= VAL_MAX_VALUE && runs[i].len >= 1
  }

  lemma NothingWalked(s: Bytes)
    ensures s[0..] == s && WellFormed(s[..0]) && Expand(s[..0]) == []
    ensures Flatten([]) == [] && Contiguous([])
  {}

  lemma FlattenNext(runs: seq<Run>, run: Run)
    ensures Flatten(runs + [run]) == Flatten(runs) + Repeat(run.value, run.len)
  {
    hide Repeat;
    assert (runs + [run])[..|runs|] == runs;
  }

  lemma RunsGrow(runs: seq<Run>, run: Run)
    requires Contiguous(runs) && run.start == |Flatten(runs)| && run.value <= VAL_MAX_VALUE && run.len >= 1
    ensures Contiguous(runs + [run]) && Flatten(runs + [run]) == Flatten(runs) + Repeat(run.value, run.len)
  {
    FlattenNext(runs, run);
    hide Flatten, Repeat;
    var more := runs + [run];
    assert more[..|runs|] == runs;
    assert forall i :: 0 <= i < |runs| ==> more[..i] == runs[..i];
  }

  /** The runs a walk visits, in order: together they are exactly the registers of the stream. */
  method WalkSparse(sparse: Bytes) returns (runs: seq<Run>)
    requires WellFormed(sparse)
    ensures Flatten(runs) == Expand(sparse)
    ensures Contiguous(runs)
  {
    hide Expand, WellFormed, FirstOp, HasOp, Flatten, Contiguous, Repeat;
    runs := [];
    var idx, pos := 0, 0;
    NothingWalked(sparse);
    while pos < |sparse|
      invariant 0 <= pos <= |sparse|
      invariant WellFormed(sparse[..pos]) && WellFormed(sparse[pos..])
      invariant Flatten(runs) == Expand(sparse[..pos]) && idx == |Flatten(runs)|
      invariant Contiguous(runs)
    {
      WalkStep(sparse, pos);
      var op := FirstOp(sparse[pos..]);
      RunsGrow(runs, Run(idx, op.len, op.value));
      runs := runs + [Run(idx, op.len, op.value)];
      idx, pos := idx + op.len, pos + op.size;
    }
    assert sparse[..pos] == sparse;
  }

  /** The part of the registers before run `i` is a prefix of the whole. */
  lemma {:induction false} FlattenPrefix(runs: seq<Run>, i: nat)
    requires i <= |runs|
    ensures |Flatten(runs[..i])| <= |Flatten(runs)|
    ensures Flatten(runs)[..|Flatten(runs[..i])|] == Flatten(runs[..i])
    decreases |runs|
  {
    if i == |runs| {
      assert runs[..i] == runs;
    } else {
      var init := runs[..|runs| - 1];
      assert init[..i] == runs[..i];
      FlattenPrefix(init, i);
    }
  }

  /** Run `i` covers the registers from its start, all with its value. */
  lemma RunCovers(runs: seq<Run>, i: nat)
    requires i < |runs| && Contiguous(runs)
    ensures runs[i].start + runs[i].len <= |Flatten(runs)|
    ensures forall j :: runs[i].start <= j < runs[i].start + runs[i].len ==>
                          Flatten(runs)[j] == runs[i].value
  {
    assert runs[..i + 1][..i] == runs[..i];
    FlattenPrefix(runs, i + 1);
    var part := Flatten(runs[..i + 1]);
    assert part == Flatten(runs[..i]) + Repeat(runs[i].value, runs[i].len);
    forall j | runs[i].start <= j < runs[i].start + runs[i].len
      ensures Flatten(runs)[j] == runs[i].value
    {
      assert Flatten(runs)[..|part|][j] == part[j];
    }
  }

  /** Reads one register; an index past the end reads as 0. */
  method SparseGet(sparse: Bytes, index: nat) returns (value: nat)
    requires WellFormed(sparse)
    ensures value == if index < |Expand(sparse)| then Expand(sparse)[index] else 0
  {
    var runs := WalkSparse(sparse);
    for i := 0 to |runs|
      invariant |Flatten(runs[..i])| <= index
    {
      RunCovers(runs, i);
      if runs[i].start <= index < runs[i].start + runs[i].len {
        return runs[i].value;
      }
      assert runs[..i + 1][..i] == runs[..i];
    }
    assert runs[..|runs|] == runs;
    return 0;
  }

  // Histogram

  /** How many registers hold `v`. */
  function Occurrences(regs: seq<nat>, v: nat): (n: nat) {
    if regs == [] then 0
    else Occurrences(regs[..|regs| - 1], v) + (if regs[|regs| - 1] == v then 1 else 0)
  }

  lemma {:induction false} OccurrencesConcat(a: seq<nat>, b: seq<nat>, v: nat)
    ensures Occurrences(a + b, v) == Occurrences(a, v) + Occurrences(b, v)
  {
    if b == [] {
      assert a + b == a;
    } else {
      assert (a + b)[..|a + b| - 1] == a + b[..|b| - 1];
      OccurrencesConcat(a, b[..|b| - 1], v);
    }
  }

  lemma {:induction false} OccurrencesRepeat(value: nat, n: nat, v: nat)
    ensures Occurrences(Repeat(value, n), v) == if v == value then n else 0
  {
    if n > 0 {
      assert Repeat(value, n)[..n - 1] == Repeat(value, n - 1);
      OccurrencesRepeat(value, n - 1, v);
    }
  }

  /** The histogram of the registers: entry `v` counts the registers holding `v`. */
  ghost predicate IsHistogram(histo: seq<nat>, regs: seq<nat>) {
    |histo| == 64 && forall v :: 0 <= v < 64 ==> histo[v] == Occurrences(regs, v)
  }

  method SparseHisto(sparse: Bytes) returns (histo: seq<nat>)
    requires WellFormed(sparse)
    ensures IsHistogram(histo, Expand(sparse))
  {
    var runs := WalkSparse(sparse);
    var counts := new nat[64](_ => 0);
    for i := 0 to |runs|
      invariant forall v :: 0 <= v < 64 ==> counts[v] == Occurrences(Flatten(runs[..i]), v)
    {
      ghost var part := Flatten(runs[..i]);
      assert runs[..i + 1][..i] == runs[..i];
      forall v | 0 <= v < 64
        ensures Occurrences(Flatten(runs[..i + 1]), v)
             == Occurrences(part, v) + if v == runs[i].value then runs[i].len else 0
      {
        OccurrencesConcat(part, Repeat(runs[i].value, runs[i].len), v);
        OccurrencesRepeat(runs[i].value, runs[i].len, v);
      }
      counts[runs[i].value] := counts[runs[i].value] + runs[i].len;
    }
    assert runs[..|runs|] == runs;
    histo := counts[..];
  }

  // Updating

  /** A zero run in its shortest encoding. */
  function EncodeZeroRun(length: nat): (s: Bytes)
    requires 1 <= length <= XZERO_MAX_LEN
    ensures WellFormed(s) && Expand(s) == Repeat(0, length)
    ensures |s| == if length <= ZERO_MAX_LEN then 1 else 2
  {
    if length <= ZERO_MAX_LEN then
      ZeroRoundTrip(length);
      ExpandOne([EncodeZero(length)]);
      [EncodeZero(length)]
    else
      XZeroRoundTrip(length);
      ExpandOne(EncodeXZero(length));
      EncodeXZero(length)
  }

  /** A VAL run as a one-byte stream. */
  function EncodeValRun(value: nat, length: nat): (s: Bytes)
    requires 1 <= value <= VAL_MAX_VALUE && 1 <= length <= VAL_MAX_LEN
    ensures WellFormed(s) && Expand(s) == Repeat(value, length) && |s| == 1
  {
    ValRoundTrip(value, length);
    ExpandOne([EncodeVal(value, length)]);
    [EncodeVal(value, length)]
  }

  /** Part of a split run: `n` registers with the value of `op`, no opcode at all if `n` is 0. */
  function KeepRun(op: Op, n: nat): (s: Bytes)
    requires if op.kind.OpVal? then 1 <= op.value <= VAL_MAX_VALUE && n <= VAL_MAX_LEN
             else op.value == 0 && n <= XZERO_MAX_LEN
    ensures WellFormed(s) && Expand(s) == Repeat(op.value, n) && |s| <= 2
  {
    if n == 0 then []
    else if op.kind.OpVal? then EncodeValRun(op.value, n)
    else EncodeZeroRun(n)
  }

  /** Replacing one stretch of a stream, in terms of the registers. */
  lemma SpliceExpand(pre: Bytes, mid: Bytes, post: Bytes)
    requires WellFormed(pre) && WellFormed(mid) && WellFormed(post)
    ensures WellFormed(pre + mid + post)
    ensures Expand(pre + mid + post) == Expand(pre) + Expand(mid) + Expand(post)
  {
    ExpandConcat(pre, mid);
    ExpandConcat(pre + mid, post);
  }

  lemma RaiseInRun(head: seq<nat>, v: nat, before: nat, val: nat, after: nat, rest: seq<nat>)
    ensures var regs := head + Repeat(v, before + 1 + after) + rest;
            && regs[|head| + before] == v
            && head + (Repeat(v, before) + [val] + Repeat(v, after)) + rest == regs[|head| + before := val]
  {}

  /** The register a walk has reached: `index` lies in the run at byte `pos`. */
  ghost predicate InRun(sparse: Bytes, pos: nat, idx: nat, index: nat) {
    && pos < |sparse| && WellFormed(sparse[..pos]) && WellFormed(sparse[pos..])
    && idx == |Expand(sparse[..pos])|
    && HasOp(sparse[pos..]) && idx <= index < idx + FirstOp(sparse[pos..]).len
  }

  lemma InRunValue(sparse: Bytes, pos: nat, idx: nat, index: nat)
    requires WellFormed(sparse) && InRun(sparse, pos, idx, index)
    ensures index < |Expand(sparse)| && Expand(sparse)[index] == FirstOp(sparse[pos..]).value
    ensures var op := FirstOp(sparse[pos..]);
            && pos + op.size <= |sparse| && WellFormed(sparse[pos + op.size..])
            && Expand(sparse) == Expand(sparse[..pos]) + Repeat(op.value, op.len) + Expand(sparse[pos + op.size..])
  {
    hide Expand, WellFormed, FirstOp, HasOp;
    WalkStep(sparse, pos);
    ExpandConcat(sparse[..pos], sparse[pos..]);
    assert sparse == sparse[..pos] + sparse[pos..];
  }

  /** Splits the run at byte `pos`, whose first register is `idx`, around register `index`. */
  method SplitRun(sparse: Bytes, pos: nat, idx: nat, index: nat, val: nat) returns (out: Bytes)
    requires WellFormed(sparse) && InRun(sparse, pos, idx, index)
    requires FirstOp(sparse[pos..]).value < val <= VAL_MAX_VALUE
    ensures WellFormed(out) && index < |Expand(sparse)|
    ensures Expand(out) == Expand(sparse)[index := val]
    ensures |out| <= |sparse| + 4
  {
    hide Expand, WellFormed, FirstOp, HasOp, KeepRun, EncodeValRun, Repeat;
    InRunValue(sparse, pos, idx, index);
    var op := FirstOp(sparse[pos..]);
    var before := index - idx;
    var after := op.len - before - 1;
    var replacement := KeepRun(op, before) + EncodeValRun(val, 1) + KeepRun(op, after);
    out := sparse[..pos] + replacement + sparse[pos + op.size..];
    SpliceExpand(KeepRun(op, before), EncodeValRun(val, 1), KeepRun(op, after));
    SpliceExpand(sparse[..pos], replacement, sparse[pos + op.size..]);
    RaiseInRun(Expand(sparse[..pos]), op.value, before, val, after, Expand(sparse[pos + op.size..]));
  }

  /**
   Raises register `index` to `val` by splicing opcodes: the result is well formed, stands for
   exactly the raised registers, and `changed` is true exactly when some register changed.
   */
  method SparseSet(sparse: Bytes, index: nat, val: nat) returns (out: Bytes, changed: bool)
    requires WellFormed(sparse) && val <= VAL_MAX_VALUE
    ensures WellFormed(out)
    ensures Expand(out) == Raise(Expand(sparse), index, val)
    ensures changed <==> Expand(out) != Expand(sparse)
    ensures !changed ==> out == sparse
    ensures |out| <= |sparse| + 4
  {
    hide Expand, WellFormed, FirstOp, HasOp;
    var idx, pos := 0, 0;
    NothingWalked(sparse);
    while pos < |sparse|
      invariant 0 <= pos <= |sparse|
      invariant WellFormed(sparse[..pos]) && WellFormed(sparse[pos..])
      invariant idx == |Expand(sparse[..pos])| <= index
    {
      WalkStep(sparse, pos);
      var op := FirstOp(sparse[pos..]);
      if index < idx + op.len {
        InRunValue(sparse, pos, idx, index);
        if op.value >= val {
          return sparse, false;
        }
        out := SplitRun(sparse, pos, idx, index, val);
        return out, true;
      }
      idx, pos := idx + op.len, pos + op.size;
    }
    assert sparse[..pos] == sparse;
    return sparse, false;
  }
}
