/**
 The cardinality estimate of a HyperLogLog sketch, a function of the histogram of its registers.
 Floating point is modelled by exact reals; the natural logarithm is a parameter of which only
 ln 1 = 0 and ln x >= 0 for x >= 1 are used.
 */
module HllEstimate {
  import opened HllSparse
  import opened HllDense

  type Ln = real -> real

  ghost predicate IsLn(ln: Ln) {
    ln(1.0) == 0.0 && forall x :: x >= 1.0 ==> ln(x) >= 0.0
  }

  const ALPHA_INF: real := 0.721347520444481703680
  const M: real := 16384.0

  // Totals of a histogram

  function Total(histo: seq<nat>): nat {
    if histo == [] then 0 else Total(histo[..|histo| - 1]) + histo[|histo| - 1]
  }

  ghost function HistogramOf(regs: seq<nat>): (h: seq<nat>)
    ensures |h| == 64 && IsHistogram(h, regs)
  {
    seq(64, v requires 0 <= v < 64 => Occurrences(regs, v))
  }

  lemma {:induction false} TotalBump(a: seq<nat>, b: seq<nat>, k: nat)
    requires |a| == |b| && k < |a| && b == a[k := a[k] + 1]
    ensures Total(b) == Total(a) + 1
  {
    var n := |a| - 1;
    if k == n {
      assert a[..n] == b[..n];
    } else {
      assert b[..n] == a[..n][k := a[k] + 1];
      TotalBump(a[..n], b[..n], k);
    }
  }

  lemma {:induction false} TotalZero(a: seq<nat>)
    requires forall i :: 0 <= i < |a| ==> a[i] == 0
    ensures Total(a) == 0
  {
    if a != [] {
      TotalZero(a[..|a| - 1]);
    }
  }

  /** The histogram of registers below 64 counts every register once. */
  lemma {:induction false} HistogramTotal(regs: seq<nat>)
    requires forall i :: 0 <= i < |regs| ==> regs[i] < 64
    ensures Total(HistogramOf(regs)) == |regs|
  {
    if regs == [] {
      TotalZero(HistogramOf(regs));
    } else {
      var init, last := regs[..|regs| - 1], regs[|regs| - 1];
      HistogramTotal(init);
      assert HistogramOf(regs) == HistogramOf(init)[last := HistogramOf(init)[last] + 1];
      TotalBump(HistogramOf(init), HistogramOf(regs), last);
    }
  }

  // The estimator

  function Pow2(n: nat): (r: real)
    ensures r >= 1.0
  {
    if n == 0 then 1.0 else 2.0 * Pow2(n - 1)
  }

  /** The sum of count / 2^value over the histogram. */
  function HarmonicSum(histo: seq<nat>): (s: real)
    ensures s >= 0.0 && (Total(histo) > 0 ==> s > 0.0)
  {
    if histo == [] then 0.0
    else
      var n := |histo| - 1;
      HarmonicSum(histo[..n]) + histo[n] as real / Pow2(n)
  }

  /** Rounded estimate, with linear counting for small cardinalities. */
  function Estimate(histo: seq<nat>, ln: Ln): (n: int)
    requires |histo| == 64 && Total(histo) == REGISTERS
    ensures IsLn(ln) ==> n >= 0
  {
    EstimateNonNegative(histo, ln);
    var raw := ALPHA_INF * M * M / HarmonicSum(histo);
    var corrected := if raw <= 2.5 * M && histo[0] != 0 then M * ln(M / histo[0] as real) else raw;
    (corrected + 0.5).Floor
  }

  lemma {:induction false} TotalBounds(histo: seq<nat>, k: nat)
    requires k < |histo|
    ensures histo[k] <= Total(histo)
  {
    if k < |histo| - 1 {
      TotalBounds(histo[..|histo| - 1], k);
    }
  }

  lemma EstimateNonNegative(histo: seq<nat>, ln: Ln)
    requires |histo| == 64 && Total(histo) == REGISTERS
    ensures ALPHA_INF * M * M / HarmonicSum(histo) >= 0.0
    ensures IsLn(ln) && histo[0] != 0 ==> M * ln(M / histo[0] as real) >= 0.0
  {
    TotalBounds(histo, 0);
    if histo[0] != 0 {
      assert M / histo[0] as real >= 1.0;
    }
  }

  lemma {:induction false} HarmonicSumEmpty(histo: seq<nat>)
    requires |histo| >= 1 && forall v :: 1 <= v < |histo| ==> histo[v] == 0
    ensures HarmonicSum(histo) == histo[0] as real
  {
    if |histo| == 1 {
      assert histo[..0] == [];
    } else {
      HarmonicSumEmpty(histo[..|histo| - 1]);
    }
  }

  lemma {:induction false} NoOccurrences(regs: seq<nat>, v: nat)
    requires forall i :: 0 <= i < |regs| ==> regs[i] != v
    ensures Occurrences(regs, v) == 0
  {
    if regs != [] {
      NoOccurrences(regs[..|regs| - 1], v);
    }
  }

  /** The empty sketch estimates to 0, which is why a new sketch may start with a clean cache of 0. */
  lemma EmptyEstimate(ln: Ln)
    requires IsLn(ln)
    ensures Total(HistogramOf(Repeat(0, REGISTERS))) == REGISTERS
    ensures Estimate(HistogramOf(Repeat(0, REGISTERS)), ln) == 0
  {
    hide Occurrences;
    var regs := Repeat(0, REGISTERS);
    var histo := HistogramOf(regs);
    HistogramTotal(regs);
    OccurrencesRepeat(0, REGISTERS, 0);
    forall v | 1 <= v < 64
      ensures histo[v] == 0
    {
      NoOccurrences(regs, v);
    }
    HarmonicSumEmpty(histo);
  }
}
