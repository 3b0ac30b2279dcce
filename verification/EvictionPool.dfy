/**
 The eviction pool: up to sixteen sampled keys, sorted by score with the most evictable last, kept
 from one eviction to the next.
 */
module EvictionPool {
  import opened Bags

  const POOL_SIZE: nat := 16

  /** One slot of the pool: a key and its score when it was last sampled. */
  datatype Candidate = Candidate(key: string, score: int)

  type Pool = seq<Candidate>

  ghost predicate Sorted(p: Pool) {
    forall i, j :: 0 <= i < j < |p| ==> p[i].score <= p[j].score
  }

  ghost predicate DistinctKeys(p: Pool) {
    forall i, j :: 0 <= i < j < |p| ==> p[i].key != p[j].key
  }

  /** Bounded, sorted and without repeated keys. */
  ghost predicate PoolOk(p: Pool) {
    |p| <= POOL_SIZE && Sorted(p) && DistinctKeys(p)
  }

  /** Reordering keeps keys distinct. */
  lemma DistinctReordered(p: Pool, q: Pool)
    requires DistinctKeys(p) && multiset(p) == multiset(q)
    ensures DistinctKeys(q)
  {
    forall i, j | 0 <= i < j < |q|
      ensures q[i].key != q[j].key
    {
      if q[i].key == q[j].key {
        SameCandidate(p, q, i, j);
        CountTwo(q, i, j);
        TwoIndices(p, q[i]);
      }
    }
  }

  lemma SameCandidate(p: Pool, q: Pool, i: nat, j: nat)
    requires DistinctKeys(p) && multiset(p) == multiset(q) && i < |q| && j < |q| && q[i].key == q[j].key
    ensures q[i] == q[j]
  {
    assert q[i] in multiset(q) && q[j] in multiset(q);
    MemberIndex(p, q[i]);
    MemberIndex(p, q[j]);
  }

  function InsertByScore(c: Candidate, p: Pool): (r: Pool)
    ensures multiset(r) == multiset(p) + multiset{c}
  {
    if p == [] || c.score <= p[0].score then [c] + p
    else
      assert p == [p[0]] + p[1..];
      [p[0]] + InsertByScore(c, p[1..])
  }

  lemma SortedCons(c: Candidate, p: Pool)
    requires Sorted(p) && forall x :: x in p ==> c.score <= x.score
    ensures Sorted([c] + p)
  {}

  lemma {:induction false} InsertSorted(c: Candidate, p: Pool)
    requires Sorted(p)
    ensures Sorted(InsertByScore(c, p))
  {
    if p == [] || c.score <= p[0].score {
      SortedCons(c, p);
    } else {
      var rest := InsertByScore(c, p[1..]);
      InsertSorted(c, p[1..]);
      forall x | x in rest
        ensures p[0].score <= x.score
      {
        assert x in multiset(rest);
        assert x == c || x in p[1..];
      }
      SortedCons(p[0], rest);
    }
  }

  /** Sorting by score; nothing is promised about candidates with equal scores. */
  method SortPool(p: Pool) returns (q: Pool)
    ensures Sorted(q) && multiset(q) == multiset(p) && |q| == |p|
  {
    hide Sorted, InsertByScore;
    q := [];
    assert Sorted(q) by { SortedNone(); }
    for i := 0 to |p|
      invariant Sorted(q) && multiset(q) == multiset(p[..i])
    {
      InsertSorted(p[i], q);
      assert p[..i + 1] == p[..i] + [p[i]];
      q := InsertByScore(p[i], q);
    }
    assert p[..|p|] == p;
    assert |multiset(q)| == |multiset(p)|;
  }

  lemma SortedNone()
    ensures Sorted([])
  {}

  /** The position of a key in the pool, or the pool's length. */
  function KeyIndex(p: Pool, key: string): (i: nat)
    ensures i <= |p| && (i < |p| ==> p[i].key == key)
    ensures forall j :: 0 <= j < i ==> p[j].key != key
  {
    if p == [] || p[0].key == key then 0
    else
      var i := KeyIndex(p[1..], key);
      assert forall j :: 1 <= j < i + 1 ==> p[j] == p[1..][j - 1];
      i + 1
  }

  /** A candidate is turned away by a full pool of candidates that are all at least as evictable. */
  ghost predicate TurnedAway(p: Pool, key: string, score: int) {
    KeyIndex(p, key) == |p| >= POOL_SIZE && score <= p[0].score
  }

  /** The pool's contents once a candidate is let in: refreshed, appended, or in place of the least. */
  ghost function LetIn(p: Pool, key: string, score: int): Pool {
    var c := Candidate(key, score);
    if KeyIndex(p, key) < |p| then p[KeyIndex(p, key) := c]
    else if |p| < POOL_SIZE then p + [c]
    else p[0 := c]
  }

  lemma LetInDistinct(p: Pool, key: string, score: int)
    requires DistinctKeys(p)
    ensures DistinctKeys(LetIn(p, key, score))
  {}

  method PoolInsert(p: Pool, key: string, score: int) returns (q: Pool)
    requires PoolOk(p)
    ensures PoolOk(q)
    ensures TurnedAway(p, key, score) ==> q == p
    ensures !TurnedAway(p, key, score) ==>
              multiset(q) == multiset(LetIn(p, key, score)) && Candidate(key, score) in q
  {
    hide Sorted, DistinctKeys;
    LetInDistinct(p, key, score);
    var c := Candidate(key, score);
    for i := 0 to |p|
      invariant forall j :: 0 <= j < i ==> p[j].key != key
    {
      if p[i].key == key {
        assert p[i := c][i] == c;
        q := SortPool(p[i := c]);
        assert c in multiset(q);
        DistinctReordered(p[i := c], q);
        return;
      }
    }
    if |p| < POOL_SIZE {
      assert (p + [c])[|p|] == c;
      q := SortPool(p + [c]);
      assert c in multiset(q);
      DistinctReordered(p + [c], q);
      return;
    }
    if score <= p[0].score {
      return p;
    }
    assert p[0 := c][0] == c;
    q := SortPool(p[0 := c]);
    assert c in multiset(q);
    DistinctReordered(p[0 := c], q);
  }

  /** The last position, if any, whose key is still stored. */
  ghost predicate LastLive(p: Pool, keys: set<string>, j: int) {
    0 <= j < |p| && p[j].key in keys && forall i :: j < i < |p| ==> p[i].key !in keys
  }

  /** In a sorted pool the last live candidate has the highest recorded score of the live ones. */
  lemma LastLiveIsHighest(p: Pool, keys: set<string>, j: int)
    requires PoolOk(p) && LastLive(p, keys, j)
    ensures forall i :: 0 <= i < |p| && p[i].key in keys ==> p[i].score <= p[j].score
  {}
}
