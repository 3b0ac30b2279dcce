/**
 The HyperLogLog object: one abstract value, its 16384 registers, kept in the sparse or the dense
 form, with a cached estimate guarded by a dirty flag.
 */
module Hll {
  import opened HllSparse
  import opened HllDense
  import opened HllLattice
  import opened HllEstimate

  const SPARSE_MAX_BYTES: nat := 3000

  /** The parts of the sketch that are parameters of the model: the hash and the logarithm. */
  datatype Oracle = Oracle(hash: Hash, ln: Ln)

  type Regs = seq<nat>

  /** Registers of a sketch: 16384 counters of six bits. */
  ghost predicate IsRegs(regs: Regs) {
    |regs| == REGISTERS && forall i :: 0 <= i < REGISTERS ==> regs[i] <= REGISTER_MAX
  }

  /** What Count must answer for given registers. */
  ghost function EstimateOf(regs: Regs, ln: Ln): int
    requires IsRegs(regs)
  {
    HistogramTotal(regs);
    Estimate(HistogramOf(regs), ln)
  }

  /** The registers part way through a join: the first `done` are joined, the rest are still `base`. */
  ghost predicate Joined(now: Regs, base: Regs, other: Regs, done: nat) {
    && |now| == |base| == |other|
    && forall r :: 0 <= r < |base| ==> now[r] == if r < done then Max(base[r], other[r]) else base[r]
  }

  lemma JoinedStart(base: Regs, other: Regs)
    requires |base| == |other|
    ensures Joined(base, base, other, 0)
  {}

  /** One register further, and whether the join has changed anything so far. */
  lemma JoinedStep(before: Regs, after: Regs, base: Regs, other: Regs, i: nat, val: nat)
    requires Joined(before, base, other, i) && i < |base| && other[i] == val
    requires after == Raise(before, i, val)
    ensures Joined(after, base, other, i + 1)
    ensures after != base <==> before != base || after != before
  {
    assert after[i] == Max(base[i], val);
    if after != before {
      assert after[i] != base[i];
    }
  }

  lemma JoinedSkip(now: Regs, base: Regs, other: Regs, done: nat, more: nat)
    requires Joined(now, base, other, done)
    requires forall r :: done <= r < done + more && r < |other| ==> other[r] == 0
    ensures Joined(now, base, other, done + more)
  {}

  lemma JoinedEnd(now: Regs, base: Regs, other: Regs)
    requires Joined(now, base, other, |base|)
    ensures now == Join(base, other)
  {}

  /** Raises the registers of one run in a packed array. */
  method RaiseRun(dense: array<bv8>, run: Run, ghost base: Regs, ghost other: Regs, changed0: bool)
    returns (changed: bool)
    requires dense.Length == DENSE_SIZE && |other| == REGISTERS && run.start + run.len <= REGISTERS
    requires forall r :: run.start <= r < run.start + run.len ==> other[r] == run.value
    requires run.value <= VAL_MAX_VALUE
    requires Joined(Registers(dense[..]), base, other, run.start)
    requires changed0 <==> Registers(dense[..]) != base
    modifies dense
    ensures Joined(Registers(dense[..]), base, other, run.start + run.len)
    ensures changed <==> Registers(dense[..]) != base
  {
    hide Registers, Joined, Raise;
    changed := changed0;
    if run.value == 0 {
      JoinedSkip(Registers(dense[..]), base, other, run.start, run.len);
      return;
    }
    assert |base| == REGISTERS by { JoinedLength(Registers(dense[..]), base, other, run.start); }
    for i := 0 to run.len
      invariant Joined(Registers(dense[..]), base, other, run.start + i)
      invariant changed <==> Registers(dense[..]) != base
    {
      ghost var before := Registers(dense[..]);
      var ch := SetDenseRegister(dense, run.start + i, run.value);
      JoinedStep(before, Registers(dense[..]), base, other, run.start + i, run.value);
      changed := changed || ch;
    }
  }

  lemma JoinedLength(now: Regs, base: Regs, other: Regs, done: nat)
    requires Joined(now, base, other, done)
    ensures |now| == |base| == |other|
  {}

  /** Joins the registers of sparse runs into a packed array, run by run. */
  method RaiseRuns(dense: array<bv8>, runs: seq<Run>) returns (changed: bool)
    requires dense.Length == DENSE_SIZE
    requires Contiguous(runs) && |Flatten(runs)| == REGISTERS
    modifies dense
    ensures Registers(dense[..]) == Join(old(Registers(dense[..])), Flatten(runs))
    ensures changed <==> Registers(dense[..]) != old(Registers(dense[..]))
  {
    hide Registers, Flatten, Joined;
    ghost var base := Registers(dense[..]);
    changed := false;
    FlattenStart(runs);
    JoinedStart(base, Flatten(runs));
    for k := 0 to |runs|
      invariant Joined(Registers(dense[..]), base, Flatten(runs), |Flatten(runs[..k])|)
      invariant changed <==> Registers(dense[..]) != base
    {
      RunCovers(runs, k);
      FlattenGrows(runs, k);
      changed := RaiseRun(dense, runs[k], base, Flatten(runs), changed);
    }
    assert runs[..|runs|] == runs;
    JoinedEnd(Registers(dense[..]), base, Flatten(runs));
  }

  /** Joins one packed array into another, register by register; they may be the same array. */
  method RaiseDense(dense: array<bv8>, other: array<bv8>) returns (changed: bool)
    requires dense.Length == other.Length == DENSE_SIZE
    modifies dense
    ensures Registers(dense[..]) == Join(old(Registers(dense[..])), old(Registers(other[..])))
    ensures changed <==> Registers(dense[..]) != old(Registers(dense[..]))
  {
    hide GetDenseRegister, Joined, Raise;
    ghost var base, theirs := Registers(dense[..]), Registers(other[..]);
    changed := false;
    JoinedStart(base, theirs);
    for i := 0 to REGISTERS
      invariant Joined(Registers(dense[..]), base, theirs, i)
      invariant dense != other ==> other[..] == old(other[..])
      invariant changed <==> Registers(dense[..]) != base
    {
      ghost var before := Registers(dense[..]);
      var val := GetDenseRegister(other[..], i);
      assert val == theirs[i] by { JoinedRest(before, base, theirs, i); }
      var ch := SetDenseRegister(dense, i, val);
      JoinedStep(before, Registers(dense[..]), base, theirs, i, val);
      changed := changed || ch;
    }
    JoinedEnd(Registers(dense[..]), base, theirs);
  }

  lemma JoinedRest(now: Regs, base: Regs, other: Regs, i: nat)
    requires Joined(now, base, other, i) && i < |base|
    ensures now[i] == base[i]
  {}

  lemma FlattenStart(runs: seq<Run>)
    ensures Flatten(runs[..0]) == []
  {}

  lemma FlattenGrows(runs: seq<Run>, k: nat)
    requires k < |runs| && Contiguous(runs)
    ensures |Flatten(runs[..k + 1])| == runs[k].start + runs[k].len
  {
    assert runs[..k + 1][..k] == runs[..k];
  }

  class HLL {
    var dense: array?<bv8>
    var sparse: Bytes
    var isDense: bool
    var cached: int
    var dirty: bool
    const o: Oracle

    ghost predicate Shape()
      reads this
    {
      if isDense then dense != null && dense.Length == DENSE_SIZE && sparse == []
      else dense == null && WellFormed(sparse) && |Expand(sparse)| == REGISTERS
    }

    /** The abstract value: the same sixteen thousand registers in either form. */
    ghost function Regs(): (regs: Regs)
      requires Shape()
      reads this, dense
    {
      if isDense then Registers(dense[..]) else Expand(sparse)
    }

    /** A clean cache holds the estimate of the current registers. */
    ghost predicate Valid()
      reads this, dense
      ensures Valid() ==> Shape() && IsRegs(Regs())
    {
      && Shape() && IsRegs(Regs()) && IsLn(o.ln)
      && (!isDense ==> |sparse| <= SPARSE_MAX_BYTES)
      && (!dirty ==> cached == EstimateOf(Regs(), o.ln))
    }

    /** The heap locations an object owns. */
    ghost function Foot(): set<object>
      reads this
    {
      if dense == null then {this} else {this, dense}
    }

    constructor (o: Oracle)
      requires IsLn(o.ln)
      ensures Valid() && Regs() == Repeat(0, REGISTERS) && !isDense
      ensures this.o == o && fresh(Foot())
    {
      XZeroRoundTrip(REGISTERS);
      ExpandOne(EncodeXZero(REGISTERS));
      EmptyEstimate(o.ln);
      this.o := o;
      dense, sparse, isDense := null, EncodeXZero(REGISTERS), false;
      cached, dirty := 0, false;
    }

    /** The number of bytes the live form takes up. */
    function Size(): (n: nat)
      requires Shape()
      reads this, dense
      ensures isDense ==> n == DENSE_SIZE
    {
      if isDense then dense.Length else |sparse|
    }

    /** Converting to the dense form preserves the registers. */
    method Promote()
      requires Shape() && !isDense
      modifies this
      ensures Shape() && isDense && fresh(dense)
      ensures Regs() == old(Regs()) && cached == old(cached) && dirty == old(dirty)
    {
      var d := new bv8[DENSE_SIZE](_ => 0);
      ZeroedRegisters(d[..]);
      hide Registers, Expand, WellFormed;
      var runs := WalkSparse(sparse);
      var _ := RaiseRuns(d, runs);
      JoinZero(Expand(sparse));
      dense, sparse, isDense := d, [], true;
    }

    /** Adds one element: its register is raised to its rank, in whichever form is live. */
    method Add(data: string) returns (changed: bool)
      requires Valid()
      modifies this, dense
      ensures Valid() && fresh(Foot() - old(Foot()))
      ensures var p := PatLen(o.hash(data)); Regs() == Raise(old(Regs()), p.index, p.rank)
      ensures changed <==> Regs() != old(Regs())
    {
      hide PatLen, Registers, Expand, WellFormed, EstimateOf;
      var p := PatLen(o.hash(data));
      if !isDense && p.rank > VAL_MAX_VALUE {
        Promote();
      }
      changed := false;
      if !isDense {
        var newSparse, ch := SparseSet(sparse, p.index, p.rank);
        if ch {
          sparse := newSparse;
          changed := true;
        }
        if |sparse| > SPARSE_MAX_BYTES {
          Promote();
        }
      } else {
        changed := SetDenseRegister(dense, p.index, p.rank);
      }
      if changed {
        dirty := true;
      }
    }

    /** Joins the registers of `other`, in either form, into this dense sketch. */
    method RaiseFrom(other: HLL) returns (changed: bool)
      requires Shape() && isDense && other.Shape()
      modifies dense
      ensures Shape() && |old(Regs())| == |old(other.Regs())|
      ensures Regs() == Join(old(Regs()), old(other.Regs()))
      ensures changed <==> Regs() != old(Regs())
    {
      hide Registers, Expand, WellFormed, Join;
      if other.isDense {
        changed := RaiseDense(dense, other.dense);
      } else {
        var runs := WalkSparse(other.sparse);
        changed := RaiseRuns(dense, runs);
      }
    }

    /** Joins another sketch into this one; the result is dense. */
    method Merge(other: HLL) returns (changed: bool)
      requires Valid() && other.Valid()
      modifies this, dense
      ensures Valid() && isDense && fresh(Foot() - old(Foot()))
      ensures Regs() == Join(old(Regs()), old(other.Regs()))
      ensures changed <==> Regs() != old(Regs())
    {
      hide Registers, Expand, WellFormed, EstimateOf, IsRegs, Join, IsLn;
      JoinIsRegs(Regs(), other.Regs());
      if !isDense {
        Promote();
      }
      changed := RaiseFrom(other);
      if changed {
        dirty := true;
      }
    }

    /** The estimate of the current registers, from the cache when it is clean. */
    method Count() returns (n: nat)
      requires Valid()
      modifies this`cached, this`dirty
      ensures Valid() && Regs() == old(Regs())
      ensures n == EstimateOf(Regs(), o.ln)
    {
      hide Registers, Expand, WellFormed, HistogramOf, Occurrences, Estimate;
      HistogramTotal(Regs());
      if !dirty {
        return cached;
      }
      var histo;
      if !isDense {
        histo := SparseHisto(sparse);
      } else {
        histo := DenseHisto(dense);
      }
      assert histo == HistogramOf(Regs());
      cached, dirty := Estimate(histo, o.ln), false;
      return cached;
    }
  }

  lemma JoinIsRegs(a: Regs, b: Regs)
    requires IsRegs(a) && IsRegs(b)
    ensures |a| == |b| == REGISTERS && IsRegs(Join(a, b))
  {}

  lemma JoinZero(regs: Regs)
    ensures Join(Repeat(0, |regs|), regs) == regs
  {}

  /** Builds a sketch from elements in the given order: whatever its form, it sketches their set. */
  method Sketch(o: Oracle, xs: seq<string>) returns (h: HLL)
    requires IsLn(o.ln)
    ensures fresh(h.Foot()) && h.Valid() && h.o == o
    ensures Sketches(h.Regs(), Elems(xs), o.hash)
  {
    hide PatLen, Sketches, Raise, HLL.Valid, HLL.Regs, IsLn;
    h := new HLL(o);
    SketchEmpty(o.hash);
    assert Elems(xs[..0]) == {};
    for i := 0 to |xs|
      invariant fresh(h.Foot()) && h.Valid() && h.o == o
      invariant Sketches(h.Regs(), Elems(xs[..i]), o.hash)
    {
      SketchAdd(h.Regs(), Elems(xs[..i]), xs[i], o.hash);
      assert Elems(xs[..i + 1]) == Elems(xs[..i]) + {xs[i]} by {
        assert xs[..i + 1] == xs[..i] + [xs[i]];
      }
      var _ := h.Add(xs[i]);
    }
    assert xs[..|xs|] == xs;
  }
}
