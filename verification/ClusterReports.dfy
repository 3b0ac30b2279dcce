/**
 What CLUSTER SLOTS and CLUSTER INFO report about an accepted layout.
 */
module ClusterReports {
  import opened Bags
  import opened Slot
  import opened Layout

  /** Every claimed range with its node, as the report collects them. */
  method CollectEntries(l: Layout) returns (entries: seq<Claim>)
    ensures entries == Claims(l.nodes)
  {
    entries := [];
    for i := 0 to |l.nodes|
      invariant entries == Claims(l.nodes[..i])
    {
      var slots := l.nodes[i].slots;
      ghost var before := entries;
      for k := 0 to |slots|
        invariant entries == before + NodeClaims(i, slots[..k])
      {
        assert NodeClaims(i, slots[..k + 1]) == NodeClaims(i, slots[..k]) + [Claim(i, slots[k])];
        entries := entries + [Claim(i, slots[k])];
      }
      assert slots[..|slots|] == slots;
      assert l.nodes[..i + 1][..i] == l.nodes[..i];
    }
    assert l.nodes[..|l.nodes|] == l.nodes;
  }

  // Sorting by start

  ghost predicate Ascending(s: seq<Claim>) {
    forall i, j :: 0 <= i < j < |s| ==> s[i].range.start <= s[j].range.start
  }

  function Insert(c: Claim, s: seq<Claim>): (r: seq<Claim>)
    ensures multiset(r) == multiset(s) + multiset{c}
  {
    if s == [] || c.range.start <= s[0].range.start then [c] + s
    else
      assert s == [s[0]] + s[1..];
      [s[0]] + Insert(c, s[1..])
  }

  lemma AscendingCons(h: Claim, t: seq<Claim>)
    requires Ascending(t) && forall x :: x in t ==> h.range.start <= x.range.start
    ensures Ascending([h] + t)
  {}

  lemma {:induction false} InsertAscending(c: Claim, s: seq<Claim>)
    requires Ascending(s)
    ensures Ascending(Insert(c, s))
  {
    if s == [] || c.range.start <= s[0].range.start {
      AscendingCons(c, s);
    } else {
      var rest := Insert(c, s[1..]);
      InsertAscending(c, s[1..]);
      forall x | x in rest
        ensures s[0].range.start <= x.range.start
      {
        assert x in multiset(rest);
        assert x == c || x in s[1..];
      }
      AscendingCons(s[0], rest);
    }
  }

  function SortByStart(s: seq<Claim>): (r: seq<Claim>)
    ensures Ascending(r) && multiset(r) == multiset(s)
  {
    if s == [] then []
    else
      assert s == [s[0]] + s[1..];
      InsertAscending(s[0], SortByStart(s[1..]));
      Insert(s[0], SortByStart(s[1..]))
  }

  /** Consecutive, never overlapping ranges in ascending order. */
  ghost predicate Separated(s: seq<Claim>) {
    forall i, j :: 0 <= i < j < |s| ==> s[i].range.end < s[j].range.start
  }

  /** Reordering keeps ranges disjoint. */
  lemma DisjointReordered(a: seq<Claim>, b: seq<Claim>)
    requires multiset(a) == multiset(b) && Disjoint(a)
    ensures Disjoint(b)
  {
    hide Disjoint;
    forall i, j | 0 <= i < j < |b|
      ensures DisjointRanges(b[i].range, b[j].range)
    {
      if b[i] == b[j] {
        CountTwo(b, i, j);
        TwoIndices(a, b[i]);
        var p, q :| 0 <= p < q < |a| && a[p] == b[i] && a[q] == b[i];
        DisjointAt(a, p, q);
      } else {
        assert b[i] in multiset(b) && b[j] in multiset(b);
        MemberIndex(a, b[i]);
        MemberIndex(a, b[j]);
        var p :| 0 <= p < |a| && a[p] == b[i];
        var q :| 0 <= q < |a| && a[q] == b[j];
        if p < q {
          DisjointAt(a, p, q);
        } else {
          DisjointAt(a, q, p);
        }
      }
    }
    DisjointFrom(b);
  }

  lemma DisjointAt(a: seq<Claim>, p: nat, q: nat)
    requires Disjoint(a) && p < q < |a|
    ensures DisjointRanges(a[p].range, a[q].range) && DisjointRanges(a[q].range, a[p].range)
  {}

  lemma DisjointFrom(a: seq<Claim>)
    requires forall i, j :: 0 <= i < j < |a| ==> DisjointRanges(a[i].range, a[j].range)
    ensures Disjoint(a)
  {}

  lemma ValidReordered(a: seq<Claim>, b: seq<Claim>)
    requires multiset(a) == multiset(b) && ValidClaims(a)
    ensures ValidClaims(b)
  {
    forall k | 0 <= k < |b|
      ensures 0 <= b[k].range.start <= b[k].range.end < NUM_SLOTS
    {
      assert b[k] in multiset(b);
      MemberIndex(a, b[k]);
    }
  }

  lemma AscendingSeparated(s: seq<Claim>)
    requires Ascending(s) && Disjoint(s) && ValidClaims(s)
    ensures Separated(s)
  {
    forall i, j | 0 <= i < j < |s|
      ensures s[i].range.end < s[j].range.start
    {
      DisjointAt(s, i, j);
      assert !InRange(s[i].range, s[j].range.start) by {
        assert InRange(s[j].range, s[j].range.start);
      }
    }
  }

  /** CLUSTER SLOTS: every claimed range once, in ascending order, none overlapping the next. */
  method ClusterSlots(l: Layout) returns (entries: seq<Claim>)
    requires WellFormed(l)
    ensures multiset(entries) == multiset(Claims(l.nodes))
    ensures Separated(entries)
  {
    hide Claims, Disjoint, Ascending, ValidClaims, Separated;
    var collected := CollectEntries(l);
    entries := SortByStart(collected);
    DisjointReordered(collected, entries);
    ValidReordered(collected, entries);
    AscendingSeparated(entries);
  }

  // Counting slots

  ghost function Slots(r: Range): (s: set<int>)
    requires 0 <= r.start && r.end < NUM_SLOTS
  {
    set s | 0 <= s < NUM_SLOTS && InRange(r, s)
  }

  lemma {:induction false} SlotCount(r: Range)
    requires 0 <= r.start <= r.end + 1 && r.end < NUM_SLOTS
    ensures |Slots(r)| == r.end - r.start + 1
    decreases r.end - r.start + 1
  {
    if r.start > r.end {
      assert Slots(r) == {};
    } else {
      var shorter := Range(r.start, r.end - 1);
      SlotCount(shorter);
      assert Slots(r) == Slots(shorter) + {r.end};
    }
  }

  ghost predicate CoveredBy(claims: seq<Claim>, s: int) {
    exists k :: 0 <= k < |claims| && InRange(claims[k].range, s)
  }

  ghost function Covered(claims: seq<Claim>): set<int> {
    set s | 0 <= s < NUM_SLOTS && CoveredBy(claims, s)
  }

  function TotalLength(claims: seq<Claim>): int {
    if claims == [] then 0
    else TotalLength(claims[..|claims| - 1])
         + (claims[|claims| - 1].range.end - claims[|claims| - 1].range.start + 1)
  }

  /** Disjoint ranges cover as many slots as their lengths add up to. */
  lemma {:induction false} CoveredCount(claims: seq<Claim>)
    requires Disjoint(claims) && ValidClaims(claims)
    ensures |Covered(claims)| == TotalLength(claims)
  {
    if claims == [] {
      assert Covered(claims) == {};
    } else {
      var init, last := claims[..|claims| - 1], claims[|claims| - 1];
      CoveredCount(init);
      SlotCount(last.range);
      CoveredLast(claims);
    }
  }

  lemma CoveredLast(claims: seq<Claim>)
    requires claims != [] && Disjoint(claims) && ValidClaims(claims)
    ensures var init, last := claims[..|claims| - 1], claims[|claims| - 1];
            Covered(claims) == Covered(init) + Slots(last.range) && Covered(init) !! Slots(last.range)
  {
    var n := |claims| - 1;
    var init, last := claims[..n], claims[n];
    assert forall k :: 0 <= k < n ==> init[k] == claims[k];
    forall s
      ensures s in Covered(claims) <==> s in Covered(init) || s in Slots(last.range)
      ensures !(s in Covered(init) && s in Slots(last.range))
    {
      if s in Covered(init) {
        var k :| 0 <= k < |init| && InRange(init[k].range, s);
        DisjointAt(claims, k, n);
      } else if s in Covered(claims) {
        var k :| 0 <= k < |claims| && InRange(claims[k].range, s);
        assert k == n;
      }
    }
  }

  ghost function OwnedSlots(l: Layout): set<int>
    requires |l.owner| == NUM_SLOTS
  {
    set s | 0 <= s < NUM_SLOTS && l.owner[s] != -1
  }

  lemma OwnedIsCovered(l: Layout)
    requires WellFormed(l)
    ensures OwnedSlots(l) == Covered(Claims(l.nodes))
  {
    hide Claims, Disjoint;
  }

  lemma SubsetCount(a: set<int>, b: set<int>)
    requires a <= b
    ensures |a| <= |b| && (|a| == |b| ==> a == b)
  {
    assert b == a + (b - a);
  }

  /** All slots are owned exactly when as many are owned as there are. */
  lemma AllOwned(l: Layout)
    requires |l.owner| == NUM_SLOTS
    ensures |OwnedSlots(l)| <= NUM_SLOTS
    ensures |OwnedSlots(l)| == NUM_SLOTS <==> forall s :: 0 <= s < NUM_SLOTS ==> l.owner[s] != -1
  {
    var all := Range(0, NUM_SLOTS - 1);
    SlotCount(all);
    SubsetCount(OwnedSlots(l), Slots(all));
    if forall s :: 0 <= s < NUM_SLOTS ==> l.owner[s] != -1 {
      assert OwnedSlots(l) == Slots(all);
    } else {
      var s :| 0 <= s < NUM_SLOTS && l.owner[s] == -1;
      assert s in Slots(all) && s !in OwnedSlots(l);
    }
  }

  lemma TotalNext(before: seq<Claim>, who: nat, slots: seq<Range>, k: nat)
    requires k < |slots|
    ensures TotalLength(before + NodeClaims(who, slots[..k + 1]))
         == TotalLength(before + NodeClaims(who, slots[..k])) + (slots[k].end - slots[k].start + 1)
  {
    var next := before + NodeClaims(who, slots[..k + 1]);
    assert next[..|next| - 1] == before + NodeClaims(who, slots[..k]);
  }

  lemma ClaimsNext(nodes: seq<Node>, i: nat)
    requires i < |nodes|
    ensures Claims(nodes[..i + 1]) == Claims(nodes[..i]) + NodeClaims(i, nodes[i].slots[..|nodes[i].slots|])
    ensures Claims(nodes[..i]) + NodeClaims(i, nodes[i].slots[..0]) == Claims(nodes[..i])
    ensures Serving(nodes[..i + 1]) == Serving(nodes[..i]) + (if nodes[i].slots == [] then 0 else 1)
  {
    assert nodes[..i + 1][..i] == nodes[..i];
    assert nodes[i].slots[..|nodes[i].slots|] == nodes[i].slots;
  }

  /** How many nodes serve at least one slot. */
  ghost function Serving(nodes: seq<Node>): nat {
    if nodes == [] then 0
    else Serving(nodes[..|nodes| - 1]) + (if nodes[|nodes| - 1].slots == [] then 0 else 1)
  }

  datatype Info = Info(slotsAssigned: int, size: int, ok: bool, myEpoch: int)

  /**
   CLUSTER INFO: the assigned count is the number of owned slots, the state is ok exactly if every
   slot is owned, and the size counts the nodes that serve something.
   */
  method ClusterInfo(l: Layout) returns (info: Info)
    requires WellFormed(l)
    ensures info.slotsAssigned == |OwnedSlots(l)|
    ensures info.ok <==> forall s :: 0 <= s < NUM_SLOTS ==> l.owner[s] != -1
    ensures info.size == Serving(l.nodes)
    ensures info.myEpoch == l.self + 1
  {
    hide Disjoint, ValidClaims, OwnerIs, Claims, TotalLength, NodeClaims, Serving;
    var slotsAssigned, size, myEpoch := 0, 0, 0;
    NoClaims(l.nodes);
    for i := 0 to |l.nodes|
      invariant slotsAssigned == TotalLength(Claims(l.nodes[..i]))
      invariant size == Serving(l.nodes[..i])
      invariant myEpoch == if l.self < i then l.self + 1 else 0
    {
      var slots := l.nodes[i].slots;
      ClaimsNext(l.nodes, i);
      for k := 0 to |slots|
        invariant slotsAssigned == TotalLength(Claims(l.nodes[..i]) + NodeClaims(i, slots[..k]))
      {
        TotalNext(Claims(l.nodes[..i]), i, slots, k);
        slotsAssigned := slotsAssigned + (slots[k].end - slots[k].start + 1);
      }
      if |slots| > 0 {
        size := size + 1;
      }
      if i == l.self {
        myEpoch := i + 1;
      }
    }
    assert l.nodes[..|l.nodes|] == l.nodes;
    CoveredCount(Claims(l.nodes));
    OwnedIsCovered(l);
    OwnerTable(l);
    AllOwned(l);
    info := Info(slotsAssigned, size, slotsAssigned >= NUM_SLOTS, myEpoch);
  }

  lemma NoClaims(nodes: seq<Node>)
    ensures TotalLength(Claims(nodes[..0])) == 0 && Serving(nodes[..0]) == 0
  {}

  lemma OwnerTable(l: Layout)
    requires WellFormed(l)
    ensures |l.owner| == NUM_SLOTS
  {}
}
