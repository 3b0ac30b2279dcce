/**
 A cluster of nodes that read one layout file, as a step system over client commands, removals and
 crashes with restart from the append-only file. A crash leaves any number of bytes of the file, and a
 restarted node appends after them.

 As long as no command is logged to a file cut inside a command past its array header, every key is
 stored on no other node than the owner of its slot, so no two nodes hold the same key. Each keyed
 command with an owned slot has exactly one node to run it, one redirect away.
 */
module ClusterSafety {
  import opened Numeral
  import opened Clock
  import opened Commands
  import opened KeySlot
  import opened Layout
  import opened Route
  import opened Resp
  import opened Aof
  import opened StoreModel
  import opened Handlers
  import opened Torn
  import G = Registry
  import R = Recovery

  // Layouts of a cluster

  ghost predicate DistinctPorts(nodes: seq<Node>) {
    forall i, j :: 0 <= i < j < |nodes| ==> nodes[i].port != nodes[j].port
  }

  /** One layout per node: the same nodes and table, each knowing itself. */
  ghost predicate Agree(layouts: seq<Layout>) {
    forall i :: 0 <= i < |layouts| ==>
      WellFormed(layouts[i]) && layouts[i].nodes == layouts[0].nodes && layouts[i].self == i && |layouts[i].nodes| == |layouts|
  }

  lemma EveryPortAccepted(lines: seq<Fields>, portOf: PortOf, myPort: int, i: nat)
    requires Acceptable(lines, myPort, portOf) && DistinctPorts(NodesOf(lines, portOf).value)
    requires i < |NodesOf(lines, portOf).value|
    ensures Acceptable(lines, NodesOf(lines, portOf).value[i].port, portOf)
    ensures OnlyPort(NodesOf(lines, portOf).value, i, NodesOf(lines, portOf).value[i].port)
  {
    hide NodesOf, Claims, Disjoint, DistinctNodes;
    var nodes := NodesOf(lines, portOf).value;
    assert OnlyPort(nodes, i, nodes[i].port);
  }

  /** Starts every node of a file with distinct ports; they agree. */
  method LoadAll(lines: seq<Fields>, portOf: PortOf, myPort: int) returns (layouts: seq<Layout>)
    requires Acceptable(lines, myPort, portOf) && DistinctPorts(NodesOf(lines, portOf).value)
    ensures |layouts| == |NodesOf(lines, portOf).value| && Agree(layouts)
    ensures forall i :: 0 <= i < |layouts| ==> layouts[i].nodes == NodesOf(lines, portOf).value
  {
    hide Acceptable, WellFormed, NodesOf, DistinctPorts;
    AcceptableSome(lines, myPort, portOf);
    var nodes := NodesOf(lines, portOf).value;
    layouts := [];
    for i := 0 to |nodes|
      invariant |layouts| == i
      invariant forall j :: 0 <= j < i ==> WellFormed(layouts[j]) && layouts[j].nodes == nodes && layouts[j].self == j
    {
      EveryPortAccepted(lines, portOf, myPort, i);
      var l := ParseLayout(lines, nodes[i].port, portOf);
      assert nodes[l.value.self].port == nodes[i].port;
      layouts := layouts + [l.value];
    }
  }

  lemma AcceptableSome(lines: seq<Fields>, myPort: int, portOf: PortOf)
    requires Acceptable(lines, myPort, portOf)
    ensures NodesOf(lines, portOf).Some?
  {}

  /** The node that owns the slot of a key, or -1. */
  ghost function OwnerOf(layouts: seq<Layout>, key: string): (who: int)
    requires Agree(layouts) && layouts != []
    ensures -1 <= who < |layouts|
  {
    OwnerInRange(layouts[0], SlotOf(key));
    layouts[0].owner[SlotOf(key)]
  }

  lemma SameOwner(layouts: seq<Layout>, i: nat, key: string)
    requires Agree(layouts) && i < |layouts|
    ensures SlotOf(key) < |layouts[i].owner| && layouts[i].owner[SlotOf(key)] == OwnerOf(layouts, key)
    ensures -1 <= OwnerOf(layouts, key) < |layouts|
  {
    hide SlotOf, WellFormed;
    OwnerUnique(layouts[0], layouts[i]);
    OwnerInRange(layouts[i], SlotOf(key));
    OwnerInRange(layouts[0], SlotOf(key));
  }

  // Routing across the cluster

  /** What node `i` answers to keys of one slot. */
  lemma VerdictAt(layouts: seq<Layout>, keys: seq<string>, i: nat)
    requires Agree(layouts) && i < |layouts| && keys != [] && SameSlot(keys, SlotOf(keys[0]))
    ensures var who := OwnerOf(layouts, keys[0]);
            && (who == -1 ==> Check(Some(layouts[i]), keys) == ClusterDown)
            && (who == i ==> Check(Some(layouts[i]), keys) == Serve)
            && (who != -1 && who != i ==> Check(Some(layouts[i]), keys) == Moved(SlotOf(keys[0]), layouts[i].nodes[who].addr))
  {
    hide SlotOf, WellFormed, SameSlot;
    SameOwner(layouts, i, keys[0]);
  }

  /** Exactly one node runs a keyed command whose keys share an owned slot. */
  lemma OneAcceptor(layouts: seq<Layout>, cmd: Command)
    requires Agree(layouts) && layouts != [] && Keys(cmd) != [] && SameSlot(Keys(cmd), SlotOf(Keys(cmd)[0]))
    requires OwnerOf(layouts, Keys(cmd)[0]) != -1
    ensures forall i :: 0 <= i < |layouts| ==>
              (CheckCommand(Some(layouts[i]), cmd) == Serve <==> i == OwnerOf(layouts, Keys(cmd)[0]))
    ensures 0 <= OwnerOf(layouts, Keys(cmd)[0]) < |layouts|
  {
    hide SlotOf, WellFormed, SameSlot, Check, OwnerOf, Keys;
    SameOwner(layouts, 0, Keys(cmd)[0]);
    forall i | 0 <= i < |layouts|
      ensures Check(Some(layouts[i]), Keys(cmd)) == Serve <==> i == OwnerOf(layouts, Keys(cmd)[0])
    {
      VerdictAt(layouts, Keys(cmd), i);
    }
  }

  /** Following one redirect reaches the node that runs the command. */
  lemma OneHop(layouts: seq<Layout>, keys: seq<string>, i: nat)
    requires Agree(layouts) && i < |layouts| && Check(Some(layouts[i]), keys).Moved?
    ensures forall j :: 0 <= j < |layouts| && layouts[0].nodes[j].addr == Check(Some(layouts[i]), keys).addr ==>
              Check(Some(layouts[j]), keys) == Serve
    ensures exists j :: 0 <= j < |layouts| && layouts[0].nodes[j].addr == Check(Some(layouts[i]), keys).addr
  {
    MovedKeys(layouts[i], keys);
    hide SlotOf, WellFormed, SameSlot, Check, OwnerOf;
    var who := OwnerOf(layouts, keys[0]);
    SameOwner(layouts, i, keys[0]);
    VerdictAt(layouts, keys, i);
    DistinctAddresses(layouts[0]);
    forall j | 0 <= j < |layouts| && layouts[0].nodes[j].addr == Check(Some(layouts[i]), keys).addr
      ensures Check(Some(layouts[j]), keys) == Serve
    {
      VerdictAt(layouts, keys, who);
      assert j == who;
    }
  }

  lemma MovedKeys(l: Layout, keys: seq<string>)
    requires WellFormed(l) && Check(Some(l), keys).Moved?
    ensures keys != [] && SameSlot(keys, SlotOf(keys[0]))
  {}

  lemma DistinctAddresses(l: Layout)
    requires WellFormed(l)
    ensures forall i, j :: 0 <= i < |l.nodes| && 0 <= j < |l.nodes| && l.nodes[i].addr == l.nodes[j].addr ==> i == j
  {}

  // The step system

  datatype Member = Member(data: Data, file: string)
  type Cluster = seq<Member>

  ghost predicate Init(s: Cluster) {
    forall i :: 0 <= i < |s| ==> s[i] == Member(map[], "")
  }

  /** A client command accepted by node `i`, after any evictions; what it logs is appended to the file. */
  ghost predicate ClientStep(layouts: seq<Layout>, w: World, n: Member, n': Member, i: nat, cmd: Command, at: Moment, reply: Reply, found: Data)
    requires Agree(layouts) && i < |layouts|
  {
    && IsKnown(cmd.name) && CheckCommand(Some(layouts[i]), cmd) == Serve
    && ValidMoment(at) && Restriction(found, n.data) && Sketchy(found) && !Crashes(cmd, found)
    && Runs(cmd, found, at, w, reply, n'.data) && Storable([cmd.name] + cmd.args)
    && (n'.file == n.file || n'.file == n.file + G.Logged(cmd, reply))
  }

  /** Evictions or expiry remove keys. */
  ghost predicate RemovalStep(n: Member, n': Member) {
    Restriction(n'.data, n.data) && n'.file == n.file
  }

  /** A crash leaves the first `k` bytes of the file; the restarted node replays what they recover to. */
  ghost predicate RestartStep(w: World, n: Member, n': Member, k: nat, at: seq<Moment>, rs: seq<Data>) {
    && k <= |n.file| && n'.file == n.file[..k]
    && var calls := RecoverSpec(n'.file).calls;
       R.IsReplay(w, calls, at, rs) && n'.data == rs[|calls|]
  }

  datatype Step =
    | Client(cmd: Command, at: Moment, reply: Reply, found: Data)
    | Removal
    | Restart(k: nat, when: seq<Moment>, states: seq<Data>)

  ghost predicate NodeStep(layouts: seq<Layout>, w: World, n: Member, n': Member, i: nat, step: Step)
    requires Agree(layouts) && i < |layouts|
  {
    match step
    case Client(cmd, at, reply, found) => ClientStep(layouts, w, n, n', i, cmd, at, reply, found)
    case Removal => RemovalStep(n, n')
    case Restart(k, at, rs) => RestartStep(w, n, n', k, at, rs)
  }

  ghost predicate Next(layouts: seq<Layout>, w: World, s: Cluster, s': Cluster, i: nat, step: Step)
    requires Agree(layouts)
  {
    && |s| == |s'| == |layouts| && i < |s|
    && NodeStep(layouts, w, s[i], s'[i], i, step)
    && forall j :: 0 <= j < |s| && j != i ==> s'[j] == s[j]
  }

  /** The file is the start of a log of commands whose keys all belong to this node. */
  ghost predicate FileOf(layouts: seq<Layout>, file: string, i: nat, cmds: seq<Args>, k: nat)
    requires Agree(layouts) && i < |layouts|
  {
    && AllStorable(cmds) && (forall a :: 0 <= a < |cmds| ==> OwnsCommand(layouts, cmds[a], i))
    && k <= |Log(cmds)| && file == Log(cmds)[..k]
  }

  /** The file is a log of such commands followed by an array header that was torn, and anything after it. */
  ghost predicate Stopped(layouts: seq<Layout>, file: string, i: nat, cmds: seq<Args>)
    requires Agree(layouts) && i < |layouts|
  {
    && AllStorable(cmds) && (forall a :: 0 <= a < |cmds| ==> OwnsCommand(layouts, cmds[a], i))
    && Log(cmds) <= file && StuckHeader(file[|Log(cmds)|..])
  }

  ghost predicate FileOwned(layouts: seq<Layout>, file: string, i: nat)
    requires Agree(layouts) && i < |layouts|
  {
    || (exists cmds, k :: FileOf(layouts, file, i, cmds, k))
    || (exists cmds :: Stopped(layouts, file, i, cmds))
  }

  ghost predicate DataOwned(layouts: seq<Layout>, d: Data, i: nat)
    requires Agree(layouts) && i < |layouts|
  {
    forall k :: k in d ==> OwnerOf(layouts, k) == i
  }

  /** Every stored key, and every key of a command in the file, belongs to this node. */
  ghost predicate Owns(layouts: seq<Layout>, n: Member, i: nat)
    requires Agree(layouts) && i < |layouts|
  {
    DataOwned(layouts, n.data, i) && FileOwned(layouts, n.file, i)
  }

  ghost predicate OwnsCommand(layouts: seq<Layout>, args: Args, i: nat)
    requires Agree(layouts) && i < |layouts|
  {
    args != [] && forall k :: k in Keys(Command(ToUpper(args[0]), args[1..])) ==> OwnerOf(layouts, k) == i
  }

  lemma ServedOwned(layouts: seq<Layout>, cmd: Command, i: nat, k: string)
    requires Agree(layouts) && i < |layouts| && CheckCommand(Some(layouts[i]), cmd) == Serve && k in Keys(cmd)
    ensures OwnerOf(layouts, k) == i
  {
    hide SlotOf, WellFormed, Check, Keys;
    ServedKeys(layouts[i], Keys(cmd));
    SameOwner(layouts, i, k);
  }

  lemma ClientKeepsData(layouts: seq<Layout>, w: World, n: Member, n': Member, i: nat, cmd: Command, at: Moment, reply: Reply, found: Data)
    requires Agree(layouts) && i < |layouts| && DataOwned(layouts, n.data, i)
    requires ClientStep(layouts, w, n, n', i, cmd, at, reply, found)
    ensures DataOwned(layouts, n'.data, i)
    ensures IsWrite(cmd.name) ==> OwnsCommand(layouts, [cmd.name] + cmd.args, i)
  {
    hide OwnerOf, CheckCommand, Runs, Sketchy, Crashes, Keys, IsWrite, IsKnown, ToUpper, Agree, G.Logged, Storable;
    KeysAdded(cmd, found, at, w, reply, n'.data);
    forall k | k in Keys(cmd)
      ensures OwnerOf(layouts, k) == i
    {
      ServedOwned(layouts, cmd, i, k);
    }
    if IsWrite(cmd.name) {
      WriteNamesUpper(cmd.name);
      var args := [cmd.name] + cmd.args;
      assert args[1..] == cmd.args;
    }
  }

  /** A file that recovery reads to its end stays a log of owned commands when one is appended. */
  lemma FileGrows(layouts: seq<Layout>, file: string, i: nat, cmds: seq<Args>, k: nat, args: Args)
    requires Agree(layouts) && i < |layouts| && FileOf(layouts, file, i, cmds, k) && Unread(file) == ""
    requires Storable(args) && OwnsCommand(layouts, args, i)
    ensures var more := cmds[..Whole(cmds, k)] + [args];
            FileOf(layouts, file + CommandBytes(args), i, more, |Log(more)|)
  {
    hide OwnsCommand, Agree, Storable, Log, CommandBytes, Unread, Whole;
    ReadToEnd(cmds, k);
    var whole := cmds[..Whole(cmds, k)];
    LogAppend(whole, args);
    var more := whole + [args];
    assert Log(more)[..|Log(more)|] == Log(more);
  }

  /** A file torn inside an array header stays one when a command is appended. */
  lemma StoppedGrows(layouts: seq<Layout>, file: string, i: nat, cmds: seq<Args>, args: Args)
    requires Agree(layouts) && i < |layouts| && Stopped(layouts, file, i, cmds)
    ensures Stopped(layouts, file + CommandBytes(args), i, cmds)
  {
    hide OwnsCommand, Agree, Storable, Log, CommandBytes, StuckHeader;
    var n := |Log(cmds)|;
    StuckGrows(file[n..], args);
    assert (file + CommandBytes(args))[n..] == file[n..] + CommandBytes(args);
  }

  /** A cut file whose unread part is such a header. */
  lemma TornStops(layouts: seq<Layout>, file: string, i: nat, cmds: seq<Args>, k: nat)
    requires Agree(layouts) && i < |layouts| && FileOf(layouts, file, i, cmds, k) && StuckHeader(Unread(file))
    ensures Stopped(layouts, file, i, cmds[..Whole(cmds, k)])
  {
    hide OwnsCommand, Agree, Storable, Log, StuckHeader, Unread, Whole;
    CutUnread(cmds, k);
    var n := |Log(cmds[..Whole(cmds, k)])|;
    assert file[n..] == Unread(file);
  }

  /** A file to which commands may be logged: recovery reads it to its end, or stops at a torn array header. */
  ghost predicate Loggable(file: string) {
    Unread(file) == "" || StuckHeader(Unread(file))
  }

  /** A step of this kind writes only to such a file. */
  ghost predicate CleanWrite(n: Member, n': Member, step: Step) {
    step.Client? && n'.file != n.file ==> Loggable(n.file)
  }

  lemma AppendKeepsOwned(layouts: seq<Layout>, file: string, i: nat, args: Args)
    requires Agree(layouts) && i < |layouts| && FileOwned(layouts, file, i) && Loggable(file)
    requires Storable(args) && OwnsCommand(layouts, args, i)
    ensures FileOwned(layouts, file + CommandBytes(args), i)
  {
    hide OwnsCommand, Agree, Storable, FileOf, Stopped, Unread, CommandBytes, StuckHeader;
    if cmds, k :| FileOf(layouts, file, i, cmds, k) {
      if Unread(file) == "" {
        FileGrows(layouts, file, i, cmds, k, args);
      } else {
        TornStops(layouts, file, i, cmds, k);
        StoppedGrows(layouts, file, i, cmds[..Whole(cmds, k)], args);
      }
    } else {
      var cmds :| Stopped(layouts, file, i, cmds);
      StoppedGrows(layouts, file, i, cmds, args);
    }
  }

  lemma ClientKeepsOwned(layouts: seq<Layout>, w: World, n: Member, n': Member, i: nat, step: Step)
    requires Agree(layouts) && i < |layouts| && Owns(layouts, n, i) && step.Client? && CleanWrite(n, n', step)
    requires ClientStep(layouts, w, n, n', i, step.cmd, step.at, step.reply, step.found)
    ensures Owns(layouts, n', i)
  {
    hide OwnsCommand, Agree, Storable, FileOwned, Loggable, CheckCommand, Runs, Sketchy, Crashes, IsWrite, IsKnown, DataOwned,
         CommandBytes;
    ClientKeepsData(layouts, w, n, n', i, step.cmd, step.at, step.reply, step.found);
    if n'.file != n.file {
      assert n.file + "" == n.file;
      AppendKeepsOwned(layouts, n.file, i, [step.cmd.name] + step.cmd.args);
    }
  }

  /** Whatever is left of an owned file recovers to owned commands, and is an owned file again. */
  lemma CutKeepsOwned(layouts: seq<Layout>, file: string, i: nat, k: nat)
    requires Agree(layouts) && i < |layouts| && FileOwned(layouts, file, i) && k <= |file|
    ensures FileOwned(layouts, file[..k], i)
    ensures var calls := RecoverSpec(file[..k]).calls; forall a :: 0 <= a < |calls| ==> OwnsCommand(layouts, calls[a], i)
  {
    hide OwnsCommand, Agree, Storable, Log, RecoverSpec, Whole, StuckHeader;
    if cmds, all :| FileOf(layouts, file, i, cmds, all) {
      assert file[..k] == Log(cmds)[..k];
      assert FileOf(layouts, file[..k], i, cmds, k);
      CutRecovers(cmds, k);
    } else {
      var cmds :| Stopped(layouts, file, i, cmds);
      var n := |Log(cmds)|;
      if k <= n {
        assert file[..k] == Log(cmds)[..k];
        assert FileOf(layouts, file[..k], i, cmds, k);
        CutRecovers(cmds, k);
      } else {
        StuckCut(file[n..], k - n);
        assert file[..k][n..] == file[n..][..k - n];
        assert Stopped(layouts, file[..k], i, cmds);
        StuckRecovers(cmds, file[..k][n..]);
        assert file[..k] == Log(cmds) + file[..k][n..];
      }
    }
  }

  /** Whatever a crash leaves of an owned file, the restarted node owns its keys. */
  lemma RestartKeepsOwned(layouts: seq<Layout>, w: World, n: Member, n': Member, i: nat, k: nat, at: seq<Moment>, rs: seq<Data>)
    requires Agree(layouts) && i < |layouts| && Owns(layouts, n, i) && RestartStep(w, n, n', k, at, rs)
    ensures Owns(layouts, n', i)
  {
    hide OwnsCommand, Agree, FileOwned, RecoverSpec, R.IsReplay, OwnerOf;
    CutKeepsOwned(layouts, n.file, i, k);
    var calls := RecoverSpec(n'.file).calls;
    assert calls == RecoverSpec(n.file[..k]).calls;
    assert forall a :: 0 <= a < |calls| ==> OwnsCommand(layouts, calls[a], i);
    ReplayOwned(layouts, w, calls, at, rs, i);
  }

  lemma {:induction false} ReplayOwned(layouts: seq<Layout>, w: World, calls: seq<Args>, at: seq<Moment>, rs: seq<Data>, i: nat)
    requires Agree(layouts) && i < |layouts| && R.IsReplay(w, calls, at, rs)
    requires forall a :: 0 <= a < |calls| ==> OwnsCommand(layouts, calls[a], i)
    ensures forall k :: k in rs[|calls|] ==> OwnerOf(layouts, k) == i
    decreases |calls|
  {
    hide OwnerOf, Runs, Sketchy, Crashes, Keys, IsKnown, ToUpper, Agree;
    if calls != [] {
      var m := |calls| - 1;
      R.ReplayPrefix(w, calls, at, rs, m);
      ReplayOwned(layouts, w, calls[..m], at[..m], rs[..m + 1], i);
      var args := calls[m];
      var cmd := Command(ToUpper(args[0]), args[1..]);
      assert R.ReplayOk(w, args, at[m], rs[m], rs[m + 1]);
      if IsKnown(cmd.name) {
        var reply :| Runs(cmd, rs[m], at[m], w, reply, rs[m + 1]);
        KeysAdded(cmd, rs[m], at[m], w, reply, rs[m + 1]);
      }
    }
  }

  ghost predicate Safe(layouts: seq<Layout>, s: Cluster)
    requires Agree(layouts)
  {
    |s| == |layouts| && forall i :: 0 <= i < |s| ==> Owns(layouts, s[i], i)
  }

  lemma StepKeepsSafe(layouts: seq<Layout>, w: World, s: Cluster, s': Cluster, i: nat, step: Step)
    requires Agree(layouts) && Safe(layouts, s) && Next(layouts, w, s, s', i, step) && CleanWrite(s[i], s'[i], step)
    ensures Safe(layouts, s')
  {
    hide ClientStep, RestartStep, FileOwned, OwnerOf, Agree, CleanWrite;
    match step
    case Client(cmd, at, reply, found) =>
      ClientKeepsOwned(layouts, w, s[i], s'[i], i, step);
    case Removal =>
    case Restart(k, at, rs) =>
      RestartKeepsOwned(layouts, w, s[i], s'[i], i, k, at, rs);
  }

  /** A run of the cluster from empty nodes. */
  ghost predicate IsRun(layouts: seq<Layout>, w: World, run: seq<Cluster>, who: seq<nat>, steps: seq<Step>)
    requires Agree(layouts)
  {
    && |run| == |steps| + 1 == |who| + 1 && |run[0]| == |layouts| && Init(run[0])
    && forall t :: 0 <= t < |steps| ==> Next(layouts, w, run[t], run[t + 1], who[t], steps[t])
  }

  /** No command is logged to a file cut inside a command, past its array header. */
  ghost predicate CleanRun(run: seq<Cluster>, who: seq<nat>, steps: seq<Step>) {
    forall t :: 0 <= t < |steps| ==> CleanAt(run, who, steps, t)
  }

  ghost predicate CleanAt(run: seq<Cluster>, who: seq<nat>, steps: seq<Step>, t: nat) {
    && t < |steps| && t < |who| && t + 1 < |run| && who[t] < |run[t]| && who[t] < |run[t + 1]|
    && CleanWrite(run[t][who[t]], run[t + 1][who[t]], steps[t])
  }

  lemma InitSafe(layouts: seq<Layout>, s: Cluster)
    requires Agree(layouts) && |s| == |layouts| && Init(s)
    ensures Safe(layouts, s)
  {
    hide Agree, OwnerOf, OwnsCommand;
    NoLog();
    forall i | 0 <= i < |s|
      ensures Owns(layouts, s[i], i)
    {
      assert FileOf(layouts, s[i].file, i, [], 0);
    }
  }

  lemma {:induction false} RunSafe(layouts: seq<Layout>, w: World, run: seq<Cluster>, who: seq<nat>, steps: seq<Step>, t: nat)
    requires Agree(layouts) && IsRun(layouts, w, run, who, steps) && CleanRun(run, who, steps) && t < |run|
    ensures Safe(layouts, run[t])
    decreases t
  {
    hide Agree, Next, CleanWrite, Safe;
    if t == 0 {
      InitSafe(layouts, run[0]);
    } else {
      RunSafe(layouts, w, run, who, steps, t - 1);
      assert CleanAt(run, who, steps, t - 1);
      StepKeepsSafe(layouts, w, run[t - 1], run[t], who[t - 1], steps[t - 1]);
    }
  }

  /**
   In every state of a run that logs no command to a file cut inside a command past its array header,
   each key is stored only on the node owning its slot, so the stores of any two nodes are disjoint.
   */
  lemma ClusterWideSafety(layouts: seq<Layout>, w: World, run: seq<Cluster>, who: seq<nat>, steps: seq<Step>, t: nat)
    requires Agree(layouts) && IsRun(layouts, w, run, who, steps) && CleanRun(run, who, steps) && t < |run|
    ensures |run[t]| == |layouts|
    ensures forall i, k :: 0 <= i < |layouts| && k in run[t][i].data ==> OwnerOf(layouts, k) == i
    ensures forall i, j :: 0 <= i < j < |layouts| ==> run[t][i].data.Keys !! run[t][j].data.Keys
  {
    hide Agree, IsRun, OwnerOf, FileOwned, CleanRun;
    RunSafe(layouts, w, run, who, steps, t);
  }
}
