/**
 The cluster layout: which node owns which slot, read from a file that every node shares.

 Lines arrive already split into fields, comments removed. `portOf` stands for the address parser:
 the port of a host:port pair, or nothing if the address is malformed.
 */
module Layout {
  import opened Numeral
  import opened Slot

  datatype Range = Range(start: int, end: int)

  predicate InRange(r: Range, s: int) {
    r.start <= s <= r.end
  }

  datatype Node = Node(name: string, addr: string, port: int, slots: seq<Range>)

  /** owner[s] is the position in `nodes` of the node serving slot s, or -1. */
  datatype Layout = Layout(nodes: seq<Node>, self: nat, owner: seq<int>)

  type PortOf = string -> Option<int>
  type Fields = seq<string>

  // Ranges

  /** The position of the first '-', or the length of the text. */
  function DashIndex(spec: string): (i: nat)
    ensures i <= |spec| && (i < |spec| ==> spec[i] == '-')
    ensures '-' !in spec[..i]
  {
    if spec == "" || spec[0] == '-' then 0
    else
      var i := DashIndex(spec[1..]);
      assert spec[..i + 1] == [spec[0]] + spec[1..][..i];
      i + 1
  }

  /** Accepts "42" or "0-5460", within the slots and in order. */
  function ParseRange(spec: string): (r: Option<Range>)
    ensures r.Some? ==> 0 <= r.value.start <= r.value.end < NUM_SLOTS
  {
    var i := DashIndex(spec);
    var start := Parse(spec[..i]);
    var end := if i < |spec| then Parse(spec[i + 1..]) else start;
    if start.None? || end.None? then None
    else if start.value < 0 || end.value >= NUM_SLOTS || start.value > end.value then None
    else Some(Range(start.value, end.value))
  }

  lemma {:induction false} DashAt(pre: string, post: string)
    requires '-' !in pre
    ensures DashIndex(pre + "-" + post) == |pre|
    ensures DashIndex(pre) == |pre|
  {
    if pre != "" {
      assert (pre + "-" + post)[1..] == pre[1..] + "-" + post;
      DashAt(pre[1..], post);
    }
  }

  /** A range is read back from its bounds, and a single slot from its number. */
  lemma RangeRoundTrip(start: nat, end: nat)
    requires start <= end < NUM_SLOTS
    ensures ParseRange(Format(start) + "-" + Format(end)) == Some(Range(start, end))
    ensures ParseRange(Format(start)) == Some(Range(start, start))
  {
    hide Parse, Format, DashIndex;
    var a, b := Format(start), Format(end);
    NatDashless(start);
    DashAt(a, b);
    ParseFormat(start);
    ParseFormat(end);
    var spec := a + "-" + b;
    assert spec[..|a|] == a && spec[|a| + 1..] == b;
    assert a[..|a|] == a;
  }

  lemma NatDashless(n: nat)
    ensures '-' !in Format(n)
  {
    assert AllDigits(FormatNat(n));
  }

  function Ranges(specs: Fields): (r: Option<seq<Range>>)
    ensures r.Some? ==> |r.value| == |specs| && forall k :: 0 <= k < |specs| ==> ParseRange(specs[k]) == Some(r.value[k])
  {
    if specs == [] then Some([])
    else
      var init, last := Ranges(specs[..|specs| - 1]), ParseRange(specs[|specs| - 1]);
      if init.None? || last.None? then None else Some(init.value + [last.value])
  }

  /** The node a line describes. */
  function NodeOf(fields: Fields, portOf: PortOf): Option<Node> {
    if |fields| < 3 then None
    else
      var port, ranges := portOf(fields[1]), Ranges(fields[2..]);
      if port.None? || ranges.None? then None
      else Some(Node(fields[0], fields[1], port.value, ranges.value))
  }

  /** The nodes of a file, in order; empty lines are skipped, one bad line spoils the file. */
  function NodesOf(lines: seq<Fields>, portOf: PortOf): Option<seq<Node>> {
    if lines == [] then Some([])
    else
      var init, last := NodesOf(lines[..|lines| - 1], portOf), lines[|lines| - 1];
      if init.None? then None
      else if last == [] then init
      else
        match NodeOf(last, portOf)
        case Some(n) => Some(init.value + [n])
        case None => None
  }

  // Claims

  /** One range claimed by the node at position `who`. */
  datatype Claim = Claim(who: nat, range: Range)

  ghost function NodeClaims(who: nat, slots: seq<Range>): (c: seq<Claim>)
    ensures |c| == |slots| && forall k :: 0 <= k < |slots| ==> c[k] == Claim(who, slots[k])
  {
    seq(|slots|, k requires 0 <= k < |slots| => Claim(who, slots[k]))
  }

  /** Every range of every node, in file order. */
  ghost function Claims(nodes: seq<Node>): seq<Claim> {
    if nodes == [] then []
    else Claims(nodes[..|nodes| - 1]) + NodeClaims(|nodes| - 1, nodes[|nodes| - 1].slots)
  }

  ghost predicate DisjointRanges(a: Range, b: Range) {
    forall s :: InRange(a, s) ==> !InRange(b, s)
  }

  /** No slot is claimed twice, not even by one node. */
  ghost predicate Disjoint(claims: seq<Claim>) {
    forall i, j :: 0 <= i < j < |claims| ==> DisjointRanges(claims[i].range, claims[j].range)
  }

  ghost predicate ValidClaims(claims: seq<Claim>) {
    forall k :: 0 <= k < |claims| ==> 0 <= claims[k].range.start <= claims[k].range.end < NUM_SLOTS
  }

  /** The owner table says exactly what the claims say. */
  ghost predicate OwnerIs(owner: seq<int>, claims: seq<Claim>) {
    && |owner| == NUM_SLOTS
    && (forall s :: 0 <= s < NUM_SLOTS && owner[s] != -1 ==>
          exists k :: 0 <= k < |claims| && InRange(claims[k].range, s) && claims[k].who == owner[s])
    && (forall k, s :: 0 <= k < |claims| && 0 <= s < NUM_SLOTS && InRange(claims[k].range, s) ==>
          owner[s] == claims[k].who)
  }

  ghost predicate DistinctNodes(nodes: seq<Node>) {
    forall i, j :: 0 <= i < j < |nodes| ==> nodes[i].name != nodes[j].name && nodes[i].addr != nodes[j].addr
  }

  ghost predicate OnlyPort(nodes: seq<Node>, i: int, port: int) {
    0 <= i < |nodes| && nodes[i].port == port && forall j :: 0 <= j < |nodes| && nodes[j].port == port ==> j == i
  }

  /** What a layout file must satisfy to be accepted by the node listening on `myPort`. */
  ghost predicate Acceptable(lines: seq<Fields>, myPort: int, portOf: PortOf) {
    && NodesOf(lines, portOf).Some?
    && var nodes := NodesOf(lines, portOf).value;
       && nodes != [] && DistinctNodes(nodes) && Disjoint(Claims(nodes))
       && exists i :: OnlyPort(nodes, i, myPort)
  }

  /** An accepted layout: its table, its nodes and itself. */
  ghost predicate WellFormed(l: Layout) {
    && DistinctNodes(l.nodes) && ValidClaims(Claims(l.nodes)) && Disjoint(Claims(l.nodes))
    && OwnerIs(l.owner, Claims(l.nodes)) && l.self < |l.nodes|
  }

  // Prefixes of a file

  lemma {:induction false} NodesPrefix(lines: seq<Fields>, i: nat, portOf: PortOf)
    requires i <= |lines| && NodesOf(lines, portOf).Some?
    ensures NodesOf(lines[..i], portOf).Some?
    ensures NodesOf(lines[..i], portOf).value <= NodesOf(lines, portOf).value
  {
    hide NodeOf;
    if i == |lines| {
      assert lines[..i] == lines;
    } else {
      assert lines[..|lines| - 1][..i] == lines[..i];
      NodesPrefix(lines[..|lines| - 1], i, portOf);
    }
  }

  lemma {:induction false} ClaimsPrefix(a: seq<Node>, b: seq<Node>)
    requires a <= b
    ensures Claims(a) <= Claims(b)
  {
    if |a| < |b| {
      ClaimsPrefix(a, b[..|b| - 1]);
    } else {
      assert a == b;
    }
  }

  /** A defect in the first lines of a file is a defect of the file. */
  lemma PrefixDefect(lines: seq<Fields>, i: nat, myPort: int, portOf: PortOf)
    requires i <= |lines|
    requires var some := NodesOf(lines[..i], portOf);
             some.None? || !DistinctNodes(some.value) || !Disjoint(Claims(some.value))
             || (exists j, k :: 0 <= j < k < |some.value| && some.value[j].port == some.value[k].port == myPort)
    ensures !Acceptable(lines, myPort, portOf)
  {
    hide NodesOf, Claims;
    if NodesOf(lines, portOf).Some? {
      NodesPrefix(lines, i, portOf);
      ClaimsPrefix(NodesOf(lines[..i], portOf).value, NodesOf(lines, portOf).value);
    }
  }

  // Parsing

  /** Claims one range slot by slot; refused exactly if some slot of it is already claimed. */
  method ClaimRange(owner: array<int>, r: Range, who: nat, ghost claims: seq<Claim>) returns (ok: bool)
    requires OwnerIs(owner[..], claims) && 0 <= r.start <= r.end < NUM_SLOTS
    modifies owner
    ensures ok <==> forall k :: 0 <= k < |claims| ==> DisjointRanges(claims[k].range, r)
    ensures ok ==> OwnerIs(owner[..], claims + [Claim(who, r)])
  {
    ghost var was := owner[..];
    for s := r.start to r.end + 1
      invariant owner.Length == NUM_SLOTS
      invariant forall t :: 0 <= t < NUM_SLOTS ==> owner[t] == if r.start <= t < s then who else was[t]
      invariant forall t :: r.start <= t < s ==> was[t] == -1
    {
      if owner[s] != -1 {
        assert was[s] != -1 && InRange(r, s);
        return false;
      }
      owner[s] := who;
    }
    forall k | 0 <= k < |claims|
      ensures DisjointRanges(claims[k].range, r)
    {
      forall s | InRange(claims[k].range, s)
        ensures !InRange(r, s)
      {
        assert 0 <= s < NUM_SLOTS ==> was[s] == claims[k].who;
      }
    }
    OwnerExtended(was, owner[..], claims, Claim(who, r));
    return true;
  }

  lemma OwnerExtended(was: seq<int>, now: seq<int>, claims: seq<Claim>, c: Claim)
    requires OwnerIs(was, claims) && |now| == NUM_SLOTS
    requires forall k :: 0 <= k < |claims| ==> DisjointRanges(claims[k].range, c.range)
    requires forall s :: 0 <= s < NUM_SLOTS ==> now[s] == if InRange(c.range, s) then c.who else was[s]
    ensures OwnerIs(now, claims + [c])
  {
    var more := claims + [c];
    forall s | 0 <= s < NUM_SLOTS && now[s] != -1
      ensures exists k :: 0 <= k < |more| && InRange(more[k].range, s) && more[k].who == now[s]
    {
      if InRange(c.range, s) {
        assert more[|claims|] == c;
      } else {
        var k :| 0 <= k < |claims| && InRange(claims[k].range, s) && claims[k].who == was[s];
        assert more[k] == claims[k];
      }
    }
  }

  lemma DisjointExtended(claims: seq<Claim>, c: Claim)
    requires Disjoint(claims)
    ensures Disjoint(claims + [c]) <==> forall k :: 0 <= k < |claims| ==> DisjointRanges(claims[k].range, c.range)
  {
    var more := claims + [c];
    assert more[|claims|] == c && forall k :: 0 <= k < |claims| ==> more[k] == claims[k];
    if Disjoint(more) {
      forall k | 0 <= k < |claims|
        ensures DisjointRanges(claims[k].range, c.range)
      {
        assert DisjointRanges(more[k].range, more[|claims|].range);
      }
    }
  }

  lemma DisjointPrefix(a: seq<Claim>, b: seq<Claim>)
    requires a <= b && Disjoint(b)
    ensures Disjoint(a)
  {}

  /** Reads one node line and claims its ranges. */
  method ParseLine(fields: Fields, portOf: PortOf, owner: array<int>, who: nat, ghost claims: seq<Claim>)
    returns (n: Option<Node>)
    requires |fields| >= 3 && OwnerIs(owner[..], claims) && Disjoint(claims)
    modifies owner
    ensures n.Some? <==> NodeOf(fields, portOf).Some?
                         && Disjoint(claims + NodeClaims(who, NodeOf(fields, portOf).value.slots))
    ensures n.Some? ==> n == NodeOf(fields, portOf)
                        && OwnerIs(owner[..], claims + NodeClaims(who, n.value.slots))
  {
    hide OwnerIs, Disjoint, ParseRange;
    var port := portOf(fields[1]);
    if port.None? {
      return None;
    }
    var specs := fields[2..];
    var slots: seq<Range> := [];
    assert claims + NodeClaims(who, slots) == claims;
    for k := 0 to |specs|
      invariant Ranges(specs[..k]) == Some(slots) && |slots| == k
      invariant Disjoint(claims + NodeClaims(who, slots))
      invariant OwnerIs(owner[..], claims + NodeClaims(who, slots))
    {
      var r := ParseRange(specs[k]);
      if r.None? {
        return None;
      }
      ghost var sofar := claims + NodeClaims(who, slots);
      assert claims + NodeClaims(who, slots + [r.value]) == sofar + [Claim(who, r.value)];
      assert specs[..k + 1][..k] == specs[..k];
      DisjointExtended(sofar, Claim(who, r.value));
      var ok := ClaimRange(owner, r.value, who, sofar);
      if !ok {
        OverlapRemains(claims, who, specs, k, slots + [r.value]);
        return None;
      }
      slots := slots + [r.value];
    }
    assert specs[..|specs|] == specs;
    return Some(Node(fields[0], fields[1], port.value, slots));
  }

  /** An overlap among the first ranges of a line remains whatever follows. */
  lemma OverlapRemains(claims: seq<Claim>, who: nat, specs: Fields, k: nat, slots: seq<Range>)
    requires k < |specs| && |slots| == k + 1
    requires forall j :: 0 <= j <= k ==> ParseRange(specs[j]) == Some(slots[j])
    requires !Disjoint(claims + NodeClaims(who, slots))
    ensures Ranges(specs).Some? ==> !Disjoint(claims + NodeClaims(who, Ranges(specs).value))
  {
    hide Disjoint, ParseRange;
    if Ranges(specs).Some? {
      var all := Ranges(specs).value;
      assert forall j :: 0 <= j <= k ==> all[j] == slots[j];
      var a, b := claims + NodeClaims(who, slots), claims + NodeClaims(who, all);
      assert a <= b;
      if Disjoint(b) {
        DisjointPrefix(a, b);
      }
    }
  }

  lemma EmptyTable(owner: seq<int>)
    requires |owner| == NUM_SLOTS && forall s :: 0 <= s < NUM_SLOTS ==> owner[s] == -1
    ensures Claims([]) == [] && OwnerIs(owner, []) && Disjoint([])
  {}

  lemma ClaimsLast(nodes: seq<Node>, n: Node)
    ensures Claims(nodes + [n]) == Claims(nodes) + NodeClaims(|nodes|, n.slots)
  {
    assert (nodes + [n])[..|nodes|] == nodes;
  }

  lemma NodesNext(lines: seq<Fields>, i: nat, portOf: PortOf)
    requires i < |lines| && NodesOf(lines[..i], portOf).Some?
    ensures var now, n := NodesOf(lines[..i], portOf), NodeOf(lines[i], portOf);
            && (lines[i] == [] ==> NodesOf(lines[..i + 1], portOf) == now)
            && (lines[i] != [] && n.None? ==> NodesOf(lines[..i + 1], portOf).None?)
            && (lines[i] != [] && n.Some? ==> NodesOf(lines[..i + 1], portOf) == Some(now.value + [n.value]))
  {
    hide NodeOf;
    assert lines[..i + 1][..i] == lines[..i];
  }

  lemma NoLines(lines: seq<Fields>, portOf: PortOf)
    ensures NodesOf(lines[..0], portOf) == Some([]) && DistinctNodes([])
  {}

  lemma ShortLine(fields: Fields, portOf: PortOf)
    requires |fields| < 3
    ensures NodeOf(fields, portOf).None?
  {}

  lemma NodeNames(fields: Fields, portOf: PortOf)
    requires |fields| >= 3
    ensures NodeOf(fields, portOf).Some? ==>
              NodeOf(fields, portOf).value.name == fields[0] && NodeOf(fields, portOf).value.addr == fields[1]
  {}

  lemma DistinctExtended(nodes: seq<Node>, n: Node)
    requires DistinctNodes(nodes)
    ensures DistinctNodes(nodes + [n])
       <==> n.name !in (set m | m in nodes :: m.name) && n.addr !in (set m | m in nodes :: m.addr)
  {
    var more := nodes + [n];
    assert more[|nodes|] == n && forall k :: 0 <= k < |nodes| ==> more[k] == nodes[k];
    if DistinctNodes(more) {
      forall m | m in nodes
        ensures m.name != n.name && m.addr != n.addr
      {
        var k :| 0 <= k < |nodes| && nodes[k] == m;
        assert more[k] == m;
      }
    } else {
      var a, b :| 0 <= a < b < |more| && (more[a].name == more[b].name || more[a].addr == more[b].addr);
      assert b == |nodes| && nodes[a] in nodes;
    }
  }

  lemma AcceptableDef(lines: seq<Fields>, myPort: int, portOf: PortOf, nodes: seq<Node>)
    requires NodesOf(lines, portOf) == Some(nodes) && DistinctNodes(nodes) && Disjoint(Claims(nodes))
    ensures Acceptable(lines, myPort, portOf) <==> nodes != [] && exists i :: OnlyPort(nodes, i, myPort)
  {}

  /** Every range of an accepted file lies within the slots. */
  lemma {:induction false} NodesValid(lines: seq<Fields>, portOf: PortOf)
    requires NodesOf(lines, portOf).Some?
    ensures ValidClaims(Claims(NodesOf(lines, portOf).value))
  {
    hide ParseRange;
    if lines != [] {
      var init, last := lines[..|lines| - 1], lines[|lines| - 1];
      NodesValid(init, portOf);
      if last != [] {
        ClaimsLast(NodesOf(init, portOf).value, NodeOf(last, portOf).value);
      }
    }
  }

  /**
   Parses a layout file: accepted exactly if the file is acceptable, and then the nodes are those
   of the file, the owner table agrees with every range, and this node has found itself by port.
   */
  method ParseLayout(lines: seq<Fields>, myPort: int, portOf: PortOf) returns (r: Option<Layout>)
    ensures r.Some? <==> Acceptable(lines, myPort, portOf)
    ensures r.Some? ==> WellFormed(r.value) && Some(r.value.nodes) == NodesOf(lines, portOf)
                        && OnlyPort(r.value.nodes, r.value.self, myPort)
  {
    hide OwnerIs, Disjoint, NodeOf, NodesOf, Claims, Acceptable, DistinctNodes;
    var owner := new int[NUM_SLOTS](_ => -1);
    var nodes: seq<Node> := [];
    var names, addrs: set<string> := {}, {};
    var self := -1;
    EmptyTable(owner[..]);
    NoLines(lines, portOf);
    for i := 0 to |lines|
      invariant owner.Length == NUM_SLOTS && OwnerIs(owner[..], Claims(nodes))
      invariant NodesOf(lines[..i], portOf) == Some(nodes)
      invariant DistinctNodes(nodes) && Disjoint(Claims(nodes))
      invariant names == (set n | n in nodes :: n.name) && addrs == (set n | n in nodes :: n.addr)
      invariant if self == -1 then forall j :: 0 <= j < |nodes| ==> nodes[j].port != myPort
                else OnlyPort(nodes, self, myPort)
    {
      var fields := lines[i];
      NodesNext(lines, i, portOf);
      if fields == [] {
        continue;
      }
      if |fields| < 3 {
        ShortLine(fields, portOf);
        PrefixDefect(lines, i + 1, myPort, portOf);
        return None;
      }
      NodeNames(fields, portOf);
      ghost var parsed := NodeOf(fields, portOf);
      if parsed.Some? {
        ClaimsLast(nodes, parsed.value);
        DistinctExtended(nodes, parsed.value);
      }
      if fields[0] in names || fields[1] in addrs {
        PrefixDefect(lines, i + 1, myPort, portOf);
        return None;
      }
      var n := ParseLine(fields, portOf, owner, |nodes|, Claims(nodes));
      if n.None? {
        PrefixDefect(lines, i + 1, myPort, portOf);
        return None;
      }
      nodes := nodes + [n.value];
      names, addrs := names + {fields[0]}, addrs + {fields[1]};
      if n.value.port == myPort {
        if self != -1 {
          assert nodes[self].port == nodes[|nodes| - 1].port == myPort;
          PrefixDefect(lines, i + 1, myPort, portOf);
          return None;
        }
        self := |nodes| - 1;
      }
    }
    assert lines[..|lines|] == lines;
    AcceptableDef(lines, myPort, portOf, nodes);
    if nodes == [] || self == -1 {
      return None;
    }
    NodesValid(lines, portOf);
    return Some(Layout(nodes, self, owner[..]));
  }

  // What the owner table means

  lemma {:induction false} ClaimAt(nodes: seq<Node>, n: nat, k: nat)
    requires n < |nodes| && k < |nodes[n].slots|
    ensures |Claims(nodes[..n])| + k < |Claims(nodes)|
    ensures Claims(nodes)[|Claims(nodes[..n])| + k] == Claim(n, nodes[n].slots[k])
  {
    var init := nodes[..|nodes| - 1];
    if n == |init| {
      assert nodes[..n] == init;
    } else {
      assert init[..n] == nodes[..n];
      ClaimAt(init, n, k);
    }
  }

  lemma {:induction false} ClaimOrigin(nodes: seq<Node>, c: nat)
    requires c < |Claims(nodes)|
    ensures var claim := Claims(nodes)[c];
            claim.who < |nodes| && exists k :: 0 <= k < |nodes[claim.who].slots| && nodes[claim.who].slots[k] == claim.range
  {
    var n := |nodes| - 1;
    var init := nodes[..n];
    if c >= |Claims(init)| {
      assert nodes[n].slots[c - |Claims(init)|] == Claims(nodes)[c].range;
    } else {
      ClaimOrigin(init, c);
      var who := Claims(init)[c].who;
      var k :| 0 <= k < |init[who].slots| && init[who].slots[k] == Claims(init)[c].range;
      assert nodes[who].slots[k] == Claims(nodes)[c].range;
    }
  }

  /** Slot `s` lies in range `k` of node `n`, and in no other range of that node. */
  ghost predicate OnlyRange(l: Layout, n: nat, k: int, s: int)
    requires n < |l.nodes|
  {
    && 0 <= k < |l.nodes[n].slots| && InRange(l.nodes[n].slots[k], s)
    && forall j :: 0 <= j < |l.nodes[n].slots| && j != k ==> !InRange(l.nodes[n].slots[j], s)
  }

  /** A node owns a slot exactly when the slot lies in exactly one of its ranges. */
  lemma OwnerExact(l: Layout, n: nat, s: nat)
    requires WellFormed(l) && n < |l.nodes| && s < NUM_SLOTS
    ensures l.owner[s] == n <==> exists k :: OnlyRange(l, n, k, s)
  {
    hide Claims, Disjoint;
    var claims, base := Claims(l.nodes), |Claims(l.nodes[..n])|;
    if l.owner[s] == n {
      var c :| 0 <= c < |claims| && InRange(claims[c].range, s) && claims[c].who == n;
      ClaimOrigin(l.nodes, c);
      var k :| 0 <= k < |l.nodes[n].slots| && l.nodes[n].slots[k] == claims[c].range;
      forall j | 0 <= j < |l.nodes[n].slots| && j != k
        ensures !InRange(l.nodes[n].slots[j], s)
      {
        ClaimAt(l.nodes, n, j);
        ClaimAt(l.nodes, n, k);
        DisjointPair(claims, base + j, base + k);
      }
      assert OnlyRange(l, n, k, s);
    }
    if k :| OnlyRange(l, n, k, s) {
      ClaimAt(l.nodes, n, k);
      assert InRange(claims[base + k].range, s);
    }
  }

  lemma DisjointPair(claims: seq<Claim>, i: nat, j: nat)
    requires Disjoint(claims) && i != j && i < |claims| && j < |claims|
    ensures DisjointRanges(claims[i].range, claims[j].range) && DisjointRanges(claims[j].range, claims[i].range)
  {}

  /** The owner table is determined by the ranges, so nodes reading one file agree on it. */
  lemma OwnerUnique(a: Layout, b: Layout)
    requires WellFormed(a) && WellFormed(b) && a.nodes == b.nodes
    ensures a.owner == b.owner
  {
    hide Claims, Disjoint;
    forall s | 0 <= s < NUM_SLOTS
      ensures a.owner[s] == b.owner[s]
    {
    }
  }
}
