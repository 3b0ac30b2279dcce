/**
 How a restart from a file cut inside a command breaks the cluster: the next command is written after
 the torn bytes, and the restart after that runs a command nobody sent, on a key of another node.
 */
module TornCluster {
  import opened Clock
  import opened Commands
  import opened Slot
  import opened KeySlot
  import opened Layout
  import opened Route
  import opened Resp
  import opened Aof
  import opened StoreModel
  import opened Handlers
  import opened Torn
  import G = Registry
  import R = Recovery
  import opened ClusterSafety

  function SetCommand(key: string, value: string): Command {
    Command("SET", [key, value])
  }

  function SetArgs(key: string, value: string): Args {
    ["SET", key, value]
  }

  lemma SetFacts(key: string, value: string)
    ensures IsKnown("SET") && IsWrite("SET") && Keys(SetCommand(key, value)) == [key]
    ensures ["SET"] + SetCommand(key, value).args == SetArgs(key, value)
    ensures G.Logged(SetCommand(key, value), SimpleString("OK")) == CommandBytes(SetArgs(key, value))
  {
    hide CommandBytes;
  }

  /** A node runs and logs a SET of a key it owns. */
  lemma SetStep(layouts: seq<Layout>, w: World, i: nat, key: string, value: string, at: Moment, file: string)
    requires Agree(layouts) && i < |layouts| && OwnerOf(layouts, key) == i && ValidMoment(at) && Storable(SetArgs(key, value))
    ensures ClientStep(layouts, w, Member(map[], file),
                       Member(Set(map[], key, value, 0, at), file + CommandBytes(SetArgs(key, value))), i,
                       SetCommand(key, value), at, SimpleString("OK"), map[])
  {
    hide Agree, OwnerOf, Check, Keys, CommandBytes, Storable, G.Logged, IsKnown, IsWrite, SlotOf, Detect, StampNew;
    SetFacts(key, value);
    OneSlot(key);
    VerdictAt(layouts, [key], i);
  }

  lemma OneSlot(key: string)
    ensures SameSlot([key], SlotOf(key))
  {}

  lemma RestartEmpty(w: World, n: Member, k: nat)
    requires k <= |n.file| && RecoverSpec(n.file[..k]).calls == []
    ensures RestartStep(w, n, Member(map[], n.file[..k]), k, [], [map[]])
  {}

  lemma RestartOne(w: World, n: Member, key: string, at: Moment)
    requires RecoverSpec(n.file).calls == [SetArgs(key, "SET")] && ValidMoment(at)
    ensures var d := Set(map[], key, "SET", 0, at);
            RestartStep(w, n, Member(d, n.file), |n.file|, [at], [map[], d])
  {
    hide RecoverSpec, Detect, StampNew;
    assert n.file[..|n.file|] == n.file;
    var args, d := SetArgs(key, "SET"), Set(map[], key, "SET", 0, at);
    assert ToUpper("SET") == "SET";
    assert args[1..] == SetCommand(key, "SET").args;
    assert Runs(SetCommand(key, "SET"), map[], at, w, SimpleString("OK"), d);
    assert R.ReplayOk(w, args, at, map[], d);
  }

  /** The cluster with one node in the given state and the others empty. */
  function Only(count: nat, i: nat, n: Member): Cluster {
    seq(count, j requires 0 <= j < count => if j == i then n else Member(map[], ""))
  }

  lemma OnlyNext(layouts: seq<Layout>, w: World, i: nat, n: Member, n': Member, step: Step)
    requires Agree(layouts) && i < |layouts| && NodeStep(layouts, w, n, n', i, step)
    ensures Next(layouts, w, Only(|layouts|, i, n), Only(|layouts|, i, n'), i, step)
  {
    hide NodeStep, Agree;
  }

  /** The run in which one node takes four steps. */
  lemma FourSteps(layouts: seq<Layout>, w: World, i: nat, n: seq<Member>, steps: seq<Step>)
    returns (run: seq<Cluster>, who: seq<nat>)
    requires Agree(layouts) && i < |layouts| && |n| == 5 && |steps| == 4 && n[0] == Member(map[], "")
    requires forall t :: 0 <= t < 4 ==> NodeStep(layouts, w, n[t], n[t + 1], i, steps[t])
    ensures IsRun(layouts, w, run, who, steps) && |run| == 5 && i < |run[4]| && run[4][i] == n[4]
  {
    hide Agree, NodeStep, Next, Only;
    var count := |layouts|;
    run := seq(5, t requires 0 <= t < 5 => Only(count, i, n[t]));
    who := [i, i, i, i];
    forall t | 0 <= t < 4
      ensures Next(layouts, w, run[t], run[t + 1], who[t], steps[t])
    {
      OnlyNext(layouts, w, i, n[t], n[t + 1], steps[t]);
    }
    OnlyAt(count, i, n[0]);
    OnlyAt(count, i, n[4]);
  }

  /**
   A node that crashes inside the key of a SET, starts again, serves another SET and starts once more
   holds the key made of the torn one and the next command, whoever owns it.
   */
  lemma TornRestartStores(layouts: seq<Layout>, w: World, i: nat, key: string, lost: string, value: string, other: string, at: Moment)
    returns (run: seq<Cluster>, who: seq<nat>, steps: seq<Step>)
    requires Agree(layouts) && i < |layouts| && ValidMoment(at) && |lost| == 2
    requires OwnerOf(layouts, key + lost) == i && OwnerOf(layouts, other) == i
    requires Storable(SetArgs(key + lost, value)) && Storable(SetArgs(key + "*3", "SET")) && Storable(SetArgs(other, value))
    ensures IsRun(layouts, w, run, who, steps) && |run| == 5 && i < |run[4]|
    ensures key + "*3" in run[4][i].data
  {
    hide Agree, OwnerOf, CommandBytes, Storable, RecoverSpec, ClientStep, RestartStep, Detect, StampNew, TornSet;
    var torn := TornSet(key);
    var first, second := CommandBytes(SetArgs(key + lost, value)), CommandBytes(SetArgs(other, value));
    var d1, d3, d4 := Set(map[], key + lost, value, 0, at), Set(map[], other, value, 0, at), Set(map[], key + "*3", "SET", 0, at);
    var n := [Member(map[], ""), Member(d1, "" + first), Member(map[], torn), Member(d3, torn + second), Member(d4, torn + second)];
    SetStep(layouts, w, i, key + lost, value, at, "");
    TornLeaves(key, lost, value);
    assert "" + first == first;
    assert n[1].file[..|torn|] == torn;
    RestartEmpty(w, n[1], |torn|);
    SetStep(layouts, w, i, other, value, at, torn);
    Fabricates(key, other, value);
    RestartOne(w, n[3], key + "*3", at);
    steps := [Client(SetCommand(key + lost, value), at, SimpleString("OK"), map[]), Restart(|torn|, [], [map[]]),
              Client(SetCommand(other, value), at, SimpleString("OK"), map[]), Restart(|n[3].file|, [at], [map[], d4])];
    run, who := FourSteps(layouts, w, i, n, steps);
  }

  // Commands hidden in a value

  function DelArgs(key: string): Args {
    ["DEL", key]
  }

  /** A node runs and logs a DEL of a key it owns and does not hold. */
  lemma DelStep(layouts: seq<Layout>, w: World, i: nat, key: string, at: Moment)
    requires Agree(layouts) && i < |layouts| && OwnerOf(layouts, key) == i && ValidMoment(at) && Storable(DelArgs(key))
    ensures ClientStep(layouts, w, Member(map[], ""), Member(map[], CommandBytes(DelArgs(key))), i,
                       Command("DEL", [key]), at, Integer(0), map[])
  {
    hide Agree, OwnerOf, Check, Keys, CommandBytes, Storable, SlotOf;
    DelFacts(key, at);
    OneSlot(key);
    VerdictAt(layouts, [key], i);
    assert "" + CommandBytes(DelArgs(key)) == CommandBytes(DelArgs(key));
  }

  lemma DelFacts(key: string, at: Moment)
    ensures IsKnown("DEL") && Keys(Command("DEL", [key])) == [key] && ["DEL"] + [key] == DelArgs(key)
    ensures G.Logged(Command("DEL", [key]), Integer(0)) == CommandBytes(DelArgs(key))
    ensures HandleDel([key], map[], at.now) == Effect(Integer(0), map[])
  {
    hide CommandBytes;
    var none: Data := map[];
    assert [key][..0] == [] && DeleteCount(none, [], at.now) == 0;
    assert Delete(none, [key]) == none;
  }

  /** Replaying a DEL and a SET from an empty store leaves what was set. */
  lemma RestartTwo(w: World, n: Member, gone: string, key: string, value: string, at: Moment)
    requires RecoverSpec(n.file).calls == [DelArgs(gone), SetArgs(key, value)] && ValidMoment(at)
    ensures var d := Set(map[], key, value, 0, at);
            RestartStep(w, n, Member(d, n.file), |n.file|, [at, at], [map[], map[], d])
  {
    hide RecoverSpec, Detect, StampNew;
    assert n.file[..|n.file|] == n.file;
    var del, args, d := DelArgs(gone), SetArgs(key, value), Set(map[], key, value, 0, at);
    assert ToUpper("SET") == "SET" && ToUpper("DEL") == "DEL";
    DelFacts(gone, at);
    assert del[1..] == [gone] && args[1..] == SetCommand(key, value).args;
    assert Runs(Command("DEL", [gone]), map[], at, w, Integer(0), map[]);
    assert R.ReplayOk(w, del, at, map[], map[]);
    assert Runs(SetCommand(key, value), map[], at, w, SimpleString("OK"), d);
    assert R.ReplayOk(w, args, at, map[], d);
  }

  /** A value that holds a SET of the chosen key. */
  function Hiding(chosen: string, value: string): string {
    HidingValue([], [SetArgs(chosen, value)])
  }

  /** The part of the next SET that completes a torn key. */
  function Completion(key: string, chosen: string, value: string): string {
    Swallowed(key, Hiding(chosen, value))
  }

  lemma TornDelLeaves(a: string, lost: string)
    requires Storable(DelArgs(a + lost))
    ensures var torn := TornBody(["DEL"], a, |a + lost|, 0);
            torn <= CommandBytes(DelArgs(a + lost)) && RecoverSpec(torn).calls == []
  {
    hide CommandBytes, Storable, Decode, TornBody;
    TornBodyIsCut(["DEL"], a, lost, []);
    assert ["DEL"] + [a + lost] + [] == DelArgs(a + lost);
    var torn, all := TornBody(["DEL"], a, |a + lost|, 0), CommandBytes(DelArgs(a + lost));
    CutCommand(DelArgs(a + lost), |torn|);
    assert all[..|torn|] == torn;
  }

  lemma TornDelRuns(a: string, key: string, chosen: string, value: string)
    requires Storable(DelArgs(a + Completion(key, chosen, value))) && Storable(SetArgs(chosen, value))
    ensures var x := Completion(key, chosen, value);
            RecoverSpec(TornBody(["DEL"], a, |a + x|, 0) + CommandBytes(SetArgs(key, Hiding(chosen, value)))).calls
              == [DelArgs(a + x), SetArgs(chosen, value)]
  {
    hide CommandBytes, Storable, RecoverSpec, TornBody, Swallowed, HidingValue;
    var x := Completion(key, chosen, value);
    assert ["DEL"] + [a + x] + [] == DelArgs(a + x);
    ValueRuns(["DEL"], a, [], key, [SetArgs(chosen, value)]);
  }

  /**
   A node that crashes inside the key of a DEL, starts again, serves a SET whose value holds a command, and
   starts once more runs that command: it stores any chosen key, whoever owns it.
   */
  lemma TornDelStores(layouts: seq<Layout>, w: World, i: nat, a: string, lost: string, key: string,
                      chosen: string, value: string, at: Moment)
    returns (run: seq<Cluster>, who: seq<nat>, steps: seq<Step>)
    requires Agree(layouts) && i < |layouts| && ValidMoment(at) && |lost| == |Completion(key, chosen, value)|
    requires OwnerOf(layouts, a + lost) == i && OwnerOf(layouts, key) == i
    requires Storable(DelArgs(a + lost)) && Storable(SetArgs(key, Hiding(chosen, value))) && Storable(SetArgs(chosen, value))
    ensures IsRun(layouts, w, run, who, steps) && |run| == 5 && i < |run[4]|
    ensures chosen in run[4][i].data
  {
    hide Agree, OwnerOf, CommandBytes, RecoverSpec, ClientStep, RestartStep, Detect, StampNew, TornBody, Completion, Hiding;
    var x := Completion(key, chosen, value);
    var torn := TornBody(["DEL"], a, |a + lost|, 0);
    assert |a + lost| == |a + x|;
    assert DelArgs(a + lost)[1] == a + lost && Storable(DelArgs(a + x));
    hide Storable;
    var v := Hiding(chosen, value);
    var first, second := CommandBytes(DelArgs(a + lost)), CommandBytes(SetArgs(key, v));
    var d3, d4 := Set(map[], key, v, 0, at), Set(map[], chosen, value, 0, at);
    var n := [Member(map[], ""), Member(map[], first), Member(map[], torn), Member(d3, torn + second), Member(d4, torn + second)];
    DelStep(layouts, w, i, a + lost, at);
    TornDelLeaves(a, lost);
    assert first[..|torn|] == torn;
    RestartEmpty(w, n[1], |torn|);
    SetStep(layouts, w, i, key, v, at, torn);
    TornDelRuns(a, key, chosen, value);
    RestartTwo(w, n[3], a + x, chosen, value, at);
    steps := [Client(Command("DEL", [a + lost]), at, Integer(0), map[]), Restart(|torn|, [], [map[]]),
              Client(SetCommand(key, v), at, SimpleString("OK"), map[]), Restart(|n[3].file|, [at, at], [map[], map[], d4])];
    run, who := FourSteps(layouts, w, i, n, steps);
  }

  lemma OnlyAt(count: nat, i: nat, n: Member)
    requires i < count
    ensures |Only(count, i, n)| == count && Only(count, i, n)[i] == n
    ensures n == Member(map[], "") ==> Init(Only(count, i, n))
  {}

  lemma TornLeaves(key: string, lost: string, value: string)
    requires |lost| == 2 && Storable(SetArgs(key + lost, value))
    ensures TornSet(key) <= CommandBytes(SetArgs(key + lost, value)) && RecoverSpec(TornSet(key)).calls == []
  {
    hide CommandBytes, Storable, Decode, TornSet;
    TornSetIsCut(key, lost, value);
    var all := CommandBytes(SetArgs(key + lost, value));
    CutCommand(SetArgs(key + lost, value), |TornSet(key)|);
    assert all[..|TornSet(key)|] == TornSet(key);
  }

  // The slots of three keys

  /** Eight shifts, one by one. */
  lemma EightShifts(x: bv16)
    ensures Shifts(x, 8) == Shift(Shift(Shift(Shift(Shift(Shift(Shift(Shift(x))))))))
  {
    assert Shifts(x, 8) == Shift(Shifts(x, 7)) && Shifts(x, 7) == Shift(Shifts(x, 6));
    assert Shifts(x, 6) == Shift(Shifts(x, 5)) && Shifts(x, 5) == Shift(Shifts(x, 4));
    assert Shifts(x, 4) == Shift(Shifts(x, 3)) && Shifts(x, 3) == Shift(Shifts(x, 2));
    assert Shifts(x, 2) == Shift(Shifts(x, 1)) && Shifts(x, 1) == Shift(Shifts(x, 0));
  }

  lemma NextByte(s: seq<bv8>, b: bv8, all: seq<bv8>)
    requires all == s + [b]
    ensures Checksum(all) == Shifts(Xor(Checksum(s), High(b)), 8)
  {
    hide Shifts, Xor, High;
    assert all[..|s|] == s;
  }

  lemma SumA()
    ensures Checksum([0x61]) == 0x7C87
  {
    assert Checksum([]) == 0;
    NextByte([], 0x61, [0x61]);
    assert Xor(0x0000, High(0x61)) == 0x6100;
    EightShifts(0x6100);
    assert Shift(0x6100) == 0xC200;
    assert Shift(0xC200) == 0x9421;
    assert Shift(0x9421) == 0x3863;
    assert Shift(0x3863) == 0x70C6;
    assert Shift(0x70C6) == 0xE18C;
    assert Shift(0xE18C) == 0xD339;
    assert Shift(0xD339) == 0xB653;
    assert Shift(0xB653) == 0x7C87;
  }

  lemma SumAB()
    ensures Checksum([0x61, 0x62]) == 0x74FF
  {
    SumA();
    NextByte([0x61], 0x62, [0x61, 0x62]);
    assert Xor(0x7C87, High(0x62)) == 0x1E87;
    EightShifts(0x1E87);
    assert Shift(0x1E87) == 0x3D0E;
    assert Shift(0x3D0E) == 0x7A1C;
    assert Shift(0x7A1C) == 0xF438;
    assert Shift(0xF438) == 0xF851;
    assert Shift(0xF851) == 0xE083;
    assert Shift(0xE083) == 0xD127;
    assert Shift(0xD127) == 0xB26F;
    assert Shift(0xB26F) == 0x74FF;
  }

  lemma SumABC()
    ensures Checksum([0x61, 0x62, 0x63]) == 0x9DD6
  {
    SumAB();
    NextByte([0x61, 0x62], 0x63, [0x61, 0x62, 0x63]);
    assert Xor(0x74FF, High(0x63)) == 0x17FF;
    EightShifts(0x17FF);
    assert Shift(0x17FF) == 0x2FFE;
    assert Shift(0x2FFE) == 0x5FFC;
    assert Shift(0x5FFC) == 0xBFF8;
    assert Shift(0xBFF8) == 0x6FD1;
    assert Shift(0x6FD1) == 0xDFA2;
    assert Shift(0xDFA2) == 0xAF65;
    assert Shift(0xAF65) == 0x4EEB;
    assert Shift(0x4EEB) == 0x9DD6;
  }

  lemma SumABCD()
    ensures Checksum([0x61, 0x62, 0x63, 0x64]) == 0xA836
  {
    SumABC();
    NextByte([0x61, 0x62, 0x63], 0x64, [0x61, 0x62, 0x63, 0x64]);
    assert Xor(0x9DD6, High(0x64)) == 0xF9D6;
    EightShifts(0xF9D6);
    assert Shift(0xF9D6) == 0xE38D;
    assert Shift(0xE38D) == 0xD73B;
    assert Shift(0xD73B) == 0xBE57;
    assert Shift(0xBE57) == 0x6C8F;
    assert Shift(0x6C8F) == 0xD91E;
    assert Shift(0xD91E) == 0xA21D;
    assert Shift(0xA21D) == 0x541B;
    assert Shift(0x541B) == 0xA836;
  }

  lemma SumABStar()
    ensures Checksum([0x61, 0x62, 0x2A]) == 0x443B
  {
    SumAB();
    NextByte([0x61, 0x62], 0x2A, [0x61, 0x62, 0x2A]);
    assert Xor(0x74FF, High(0x2A)) == 0x5EFF;
    EightShifts(0x5EFF);
    assert Shift(0x5EFF) == 0xBDFE;
    assert Shift(0xBDFE) == 0x6BDD;
    assert Shift(0x6BDD) == 0xD7BA;
    assert Shift(0xD7BA) == 0xBF55;
    assert Shift(0xBF55) == 0x6E8B;
    assert Shift(0x6E8B) == 0xDD16;
    assert Shift(0xDD16) == 0xAA0D;
    assert Shift(0xAA0D) == 0x443B;
  }

  lemma SumABStar3()
    ensures Checksum([0x61, 0x62, 0x2A, 0x33]) == 0x3570
  {
    SumABStar();
    NextByte([0x61, 0x62, 0x2A], 0x33, [0x61, 0x62, 0x2A, 0x33]);
    assert Xor(0x443B, High(0x33)) == 0x773B;
    EightShifts(0x773B);
    assert Shift(0x773B) == 0xEE76;
    assert Shift(0xEE76) == 0xCCCD;
    assert Shift(0xCCCD) == 0x89BB;
    assert Shift(0x89BB) == 0x0357;
    assert Shift(0x0357) == 0x06AE;
    assert Shift(0x06AE) == 0x0D5C;
    assert Shift(0x0D5C) == 0x1AB8;
    assert Shift(0x1AB8) == 0x3570;
  }

  lemma SumK()
    ensures Checksum([0x6B]) == 0xDDCD
  {
    assert Checksum([]) == 0;
    NextByte([], 0x6B, [0x6B]);
    assert Xor(0x0000, High(0x6B)) == 0x6B00;
    EightShifts(0x6B00);
    assert Shift(0x6B00) == 0xD600;
    assert Shift(0xD600) == 0xBC21;
    assert Shift(0xBC21) == 0x6863;
    assert Shift(0x6863) == 0xD0C6;
    assert Shift(0xD0C6) == 0xB1AD;
    assert Shift(0xB1AD) == 0x737B;
    assert Shift(0x737B) == 0xE6F6;
    assert Shift(0xE6F6) == 0xDDCD;
  }

  lemma PlainSlot(key: string, bytes: seq<bv8>, crc: bv16)
    requires '{' !in key && Bytes(key) == bytes && Checksum(bytes) == crc
    ensures SlotOf(key) == LowBits(crc)
  {
    hide Checksum, Bytes, LowBits;
  }

  lemma Letters()
    ensures Bytes("abcd") == [0x61, 0x62, 0x63, 0x64]
  {
    hide Shifts;
    assert forall i :: 0 <= i < 4 ==> Bytes("abcd")[i] == [0x61, 0x62, 0x63, 0x64][i];
  }

  lemma Stars()
    ensures Bytes("ab*3") == [0x61, 0x62, 0x2A, 0x33]
  {
    assert forall i :: 0 <= i < 4 ==> Bytes("ab*3")[i] == [0x61, 0x62, 0x2A, 0x33][i];
  }

  lemma ThreeSlots()
    ensures SlotOf("abcd") == 10294 && SlotOf("k") == 7629 && SlotOf("ab*3") == 13680
  {
    hide Checksum, SlotOf, Bytes, LowBits;
    SumABCD();
    SumABStar3();
    SumK();
    Letters();
    Stars();
    assert Bytes("k") == [0x6B] by { OneLetter(); }
    PlainSlot("abcd", [0x61, 0x62, 0x63, 0x64], 0xA836);
    PlainSlot("ab*3", [0x61, 0x62, 0x2A, 0x33], 0x3570);
    PlainSlot("k", [0x6B], 0xDDCD);
    Low();
  }

  lemma OneLetter()
    ensures Bytes("k") == [0x6B]
  {}

  lemma Low()
    ensures LowBits(0xA836) == 10294 && LowBits(0x3570) == 13680 && LowBits(0xDDCD) == 7629
  {}

  // Two nodes

  const NODES := [Node("A", "a:7000", 7000, [Range(0, 12000)]), Node("B", "b:7001", 7001, [Range(12001, 16383)])]

  function TwoNodes(self: nat): Layout {
    Layout(NODES, self, seq(NUM_SLOTS, s requires 0 <= s < NUM_SLOTS => if s <= 12000 then 0 else 1))
  }

  lemma TwoClaims()
    ensures Claims(NODES) == [Claim(0, Range(0, 12000)), Claim(1, Range(12001, 16383))]
  {
    assert NODES[..1][..0] == [];
    assert Claims(NODES[..1]) == Claims(NODES[..1][..0]) + NodeClaims(0, NODES[0].slots);
    assert NodeClaims(0, NODES[0].slots) == [Claim(0, Range(0, 12000))];
    assert NodeClaims(1, NODES[1].slots) == [Claim(1, Range(12001, 16383))];
  }

  lemma TwoAgree()
    ensures Agree([TwoNodes(0), TwoNodes(1)])
  {
    hide Claims;
    TwoClaims();
    forall self | 0 <= self < 2
      ensures WellFormed(TwoNodes(self))
    {
      TwoWellFormed(self);
    }
  }

  lemma TwoWellFormed(self: nat)
    requires self < 2
    ensures WellFormed(TwoNodes(self))
  {
    hide Claims;
    TwoClaims();
    var claims, owner := Claims(NODES), TwoNodes(self).owner;
    forall s | 0 <= s < NUM_SLOTS && owner[s] != -1
      ensures exists k :: 0 <= k < |claims| && InRange(claims[k].range, s) && claims[k].who == owner[s]
    {
      var k := if s <= 12000 then 0 else 1;
      assert InRange(claims[k].range, s) && claims[k].who == owner[s];
    }
    assert NODES[0].name != NODES[1].name && NODES[0].addr != NODES[1].addr;
  }

  /**
   With A serving slots 0-12000 and B the rest: A logs SET abcd v, crashes leaving it torn inside its
   key, starts again, serves SET k v and starts once more. It then stores ab*3, which B owns.
   */
  lemma SafetyLost(w: World, at: Moment) returns (layouts: seq<Layout>, run: seq<Cluster>, who: seq<nat>, steps: seq<Step>)
    requires ValidMoment(at)
    ensures Agree(layouts) && IsRun(layouts, w, run, who, steps) && |run| == 5 && |layouts| == 2 == |run[4]|
    ensures "ab*3" in run[4][0].data && OwnerOf(layouts, "ab*3") == 1
  {
    hide Agree, IsRun, SlotOf, CommandBytes, WellFormed, Storable;
    layouts := [TwoNodes(0), TwoNodes(1)];
    TwoAgree();
    ThreeSlots();
    assert "ab" + "cd" == "abcd" && "ab" + "*3" == "ab*3";
    SmallSets();
    run, who, steps := TornRestartStores(layouts, w, 0, "ab", "cd", "v", "k", at);
    RunSize(layouts, w, run, who, steps);
  }

  lemma SmallSets()
    ensures Storable(SetArgs("abcd", "v")) && Storable(SetArgs("ab*3", "SET")) && Storable(SetArgs("k", "v"))
  {}

  lemma {:induction false} RunSize(layouts: seq<Layout>, w: World, run: seq<Cluster>, who: seq<nat>, steps: seq<Step>)
    requires Agree(layouts) && IsRun(layouts, w, run, who, steps) && |run| > 1
    ensures |run[|run| - 1]| == |layouts|
  {
    hide Agree, NodeStep;
    var t := |steps| - 1;
    assert Next(layouts, w, run[t], run[t + 1], who[t], steps[t]);
  }
}
