/**
 What a HyperLogLog sketch means, independently of how its registers are stored.

 A sketch of a set holds, in each register, the highest rank of the elements hashed to it. That
 determines the registers, so neither order nor repetition of additions can matter, and joining two
 sketches register by register sketches the union.
 */
module HllLattice {
  import opened HllSparse
  import opened HllDense

  type Hash = string -> bv64

  // From hash bits to a register and a rank

  const P: nat := 14
  const Q: nat := 50

  predicate BitSet(x: bv64, k: nat)
    requires k < 64
  {
    (x >> (k as bv8)) & 1 == 1
  }

  /** The lowest set bit at or above `k`; bit Q is known to be set. */
  function LowestSetBit(x: bv64, k: nat): (r: nat)
    requires k <= Q && BitSet(x, Q)
    ensures k <= r <= Q && BitSet(x, r) && forall j: nat :: k <= j < r ==> !BitSet(x, j)
    decreases Q - k
  {
    if BitSet(x, k) then k else LowestSetBit(x, k + 1)
  }

  /** One more than the number of zero bits at the low end of `upper`, at most Q of them. */
  function Rank(upper: bv64): (rank: nat)
    ensures 1 <= rank <= Q + 1
    ensures forall j: nat :: j < rank - 1 ==> !BitSet(upper, j)
    ensures rank <= Q ==> BitSet(upper, rank - 1)
  {
    ForcedBit(upper);
    hide BitSet;
    LowestSetBit(upper | (1 << Q), 0) + 1
  }

  /** Forcing bit Q on bounds the search and leaves the bits below it. */
  lemma ForcedBit(upper: bv64)
    ensures BitSet(upper | (1 << Q), Q)
    ensures forall k: nat :: k < Q ==> BitSet(upper | (1 << Q), k) == BitSet(upper, k)
  {
    hide BitSet;
    HighBit(upper);
    forall k: nat | k < Q
      ensures BitSet(upper | (1 << Q), k) == BitSet(upper, k)
    {
      LowBit(upper, k);
    }
  }

  lemma HighBit(upper: bv64)
    ensures BitSet(upper | (1 << Q), Q)
  {}

  lemma LowBit(upper: bv64, k: nat)
    requires k < Q
    ensures BitSet(upper | (1 << Q), k) == BitSet(upper, k)
  {
    var b := k as bv8;
    assert b < 50;
    ShiftedBit(upper, b);
  }

  lemma ShiftedBit(upper: bv64, k: bv8)
    requires k < 50
    ensures ((upper | (1 << 50)) >> k) & 1 == (upper >> k) & 1
  {
    assert (upper | (1 << 50)) >> k == (upper >> k) | ((1 << 50) >> k);
    assert ((1 << 50) >> k) & 1 == (0 as bv64);
  }

  datatype Pattern = Pattern(index: nat, rank: nat)

  /** The register an element falls into, from the low P hash bits, and its rank there. */
  function PatLen(hash: bv64): (p: Pattern)
    ensures p.index < REGISTERS && 1 <= p.rank <= Q + 1
  {
    Pattern((hash & 0x3FFF) as int, Rank(hash >> P))
  }

  // Sketches of sets

  /** `regs` holds, for each register, the highest rank among the elements of `s` falling into it. */
  ghost predicate Sketches(regs: seq<nat>, s: set<string>, hash: Hash) {
    && |regs| == REGISTERS
    && (forall x :: x in s ==> PatLen(hash(x)).rank <= regs[PatLen(hash(x)).index])
    && (forall i :: 0 <= i < REGISTERS && regs[i] > 0 ==>
          exists x :: x in s && PatLen(hash(x)) == Pattern(i, regs[i]))
  }

  /** A set has one sketch only. */
  lemma SketchUnique(a: seq<nat>, b: seq<nat>, s: set<string>, hash: Hash)
    requires Sketches(a, s, hash) && Sketches(b, s, hash)
    ensures a == b
  {
    hide PatLen;
    forall i | 0 <= i < REGISTERS
      ensures a[i] == b[i]
    {
    }
  }

  lemma SketchEmpty(hash: Hash)
    ensures Sketches(Repeat(0, REGISTERS), {}, hash)
  {}

  lemma SketchAdd(regs: seq<nat>, s: set<string>, x: string, hash: Hash)
    requires Sketches(regs, s, hash)
    ensures Sketches(Raise(regs, PatLen(hash(x)).index, PatLen(hash(x)).rank), s + {x}, hash)
  {
    hide PatLen;
    var p := PatLen(hash(x));
    var r := Raise(regs, p.index, p.rank);
    forall i | 0 <= i < REGISTERS && r[i] > 0
      ensures exists y :: y in s + {x} && PatLen(hash(y)) == Pattern(i, r[i])
    {
      if r[i] == regs[i] {
        var y :| y in s && PatLen(hash(y)) == Pattern(i, regs[i]);
        assert y in s + {x};
      } else {
        assert x in s + {x};
      }
    }
  }

  function Elems(xs: seq<string>): set<string> {
    set x | x in xs
  }

  function AddAll(regs: seq<nat>, xs: seq<string>, hash: Hash): (r: seq<nat>)
    ensures |r| == |regs|
  {
    if xs == [] then regs
    else
      var p := PatLen(hash(xs[|xs| - 1]));
      Raise(AddAll(regs, xs[..|xs| - 1], hash), p.index, p.rank)
  }

  /** Adding elements to a sketch of `s` one by one sketches `s` with those elements. */
  lemma {:induction false} AddAllSketches(regs: seq<nat>, s: set<string>, xs: seq<string>, hash: Hash)
    requires Sketches(regs, s, hash)
    ensures Sketches(AddAll(regs, xs, hash), s + Elems(xs), hash)
  {
    hide Sketches, PatLen;
    if xs == [] {
      assert s + Elems(xs) == s;
    } else {
      var init, last := xs[..|xs| - 1], xs[|xs| - 1];
      AddAllSketches(regs, s, init, hash);
      SketchAdd(AddAll(regs, init, hash), s + Elems(init), last, hash);
      assert xs == init + [last];
      assert s + Elems(init) + {last} == s + Elems(xs);
    }
  }

  /** Order and repetition of additions do not matter. */
  lemma AddAllSet(xs: seq<string>, ys: seq<string>, hash: Hash)
    requires Elems(xs) == Elems(ys)
    ensures AddAll(Repeat(0, REGISTERS), xs, hash) == AddAll(Repeat(0, REGISTERS), ys, hash)
  {
    hide Sketches, AddAll;
    SketchEmpty(hash);
    AddAllSketches(Repeat(0, REGISTERS), {}, xs, hash);
    AddAllSketches(Repeat(0, REGISTERS), {}, ys, hash);
    SketchUnique(AddAll(Repeat(0, REGISTERS), xs, hash), AddAll(Repeat(0, REGISTERS), ys, hash),
                 {} + Elems(xs), hash);
  }

  // Joining sketches

  function Max(x: nat, y: nat): nat {
    if x < y then y else x
  }

  function Join(a: seq<nat>, b: seq<nat>): (r: seq<nat>)
    requires |a| == |b|
    ensures |r| == |a| && forall i :: 0 <= i < |a| ==> r[i] == Max(a[i], b[i])
  {
    seq(|a|, i requires 0 <= i < |a| => Max(a[i], b[i]))
  }

  /** `regs` is pointwise at least `base`. */
  ghost predicate AtLeast(regs: seq<nat>, base: seq<nat>) {
    |regs| == |base| && forall i :: 0 <= i < |base| ==> regs[i] >= base[i]
  }

  /** The join is the least registers at least both. */
  lemma JoinLeast(a: seq<nat>, b: seq<nat>, bound: seq<nat>)
    requires |a| == |b|
    ensures AtLeast(Join(a, b), a) && AtLeast(Join(a, b), b)
    ensures AtLeast(bound, a) && AtLeast(bound, b) ==> AtLeast(bound, Join(a, b))
  {}

  lemma AtLeastBoth(a: seq<nat>, b: seq<nat>)
    requires AtLeast(a, b) && AtLeast(b, a)
    ensures a == b
  {}

  /** Joining the sketches of two sets sketches their union. */
  lemma SketchJoin(a: seq<nat>, s: set<string>, b: seq<nat>, t: set<string>, hash: Hash)
    requires Sketches(a, s, hash) && Sketches(b, t, hash)
    ensures Sketches(Join(a, b), s + t, hash)
  {
    hide PatLen;
    var r := Join(a, b);
    forall i | 0 <= i < REGISTERS && r[i] > 0
      ensures exists x :: x in s + t && PatLen(hash(x)) == Pattern(i, r[i])
    {
      if r[i] == a[i] {
        var x :| x in s && PatLen(hash(x)) == Pattern(i, a[i]);
        assert x in s + t;
      } else {
        var x :| x in t && PatLen(hash(x)) == Pattern(i, b[i]);
        assert x in s + t;
      }
    }
  }

  /** Registers under join form a semilattice with the empty sketch as its bottom. */
  lemma JoinSemilattice(a: seq<nat>, b: seq<nat>, c: seq<nat>)
    requires |a| == |b| == |c|
    ensures Join(a, b) == Join(b, a)
    ensures Join(Join(a, b), c) == Join(a, Join(b, c))
    ensures Join(a, a) == a
    ensures Join(a, Repeat(0, |a|)) == a
  {}

  /** Adding an element is joining with the sketch of that element alone. */
  lemma RaiseIsJoin(regs: seq<nat>, index: nat, val: nat)
    requires index < |regs|
    ensures Raise(regs, index, val) == Join(regs, Repeat(0, |regs|)[index := val])
  {}
}
