/**
 A server that serves, crashes and starts again any number of times, as a step system. No command sets an
 expiry and there is no memory limit.

 As long as commands are logged only to a file that recovery reads to its end, the file at hand always
 rebuilds the data at hand, and a crash keeps a prefix of the commands that survived the crashes before it.
 */
module ManyCrashes {
  import opened Numeral
  import opened Clock
  import opened Commands
  import opened Layout
  import opened Resp
  import opened Aof
  import opened Torn
  import opened StoreModel
  import opened Handlers
  import G = Registry
  import U = Startup
  import opened Recovery

  datatype Server = Server(data: Data, file: string)

  datatype Step = Served(e: Event) | Crashed(k: nat, at: seq<Moment>, rs: seq<Data>)

  function ArgsFor(e: Event): Args {
    [e.cmd.name] + e.cmd.args
  }

  ghost predicate Next(w: World, n: Server, n': Server, step: Step) {
    match step
    case Served(e) =>
      && EventOk(w, n.data, e, n'.data) && Storable(ArgsFor(e))
      && n'.file == n.file + if IsLogged(e) then CommandBytes(ArgsFor(e)) else ""
    case Crashed(k, at, rs) =>
      && k <= |n.file| && n'.file == n.file[..k]
      && var calls := RecoverSpec(n'.file).calls;
         IsReplay(w, calls, at, rs) && n'.data == rs[|calls|]
  }

  /** A command is logged only to a file that recovery reads to its end. */
  ghost predicate Clean(n: Server, n': Server, step: Step) {
    step.Served? && n'.file != n.file ==> Unread(n.file) == ""
  }

  /** The commands that have survived. */
  ghost function Survivors(n: Server): seq<Args> {
    RecoverSpec(n.file).calls
  }

  // What every step keeps

  /** The node is where some run from the empty store ends, with that run's log and perhaps a torn command in its file. */
  ghost predicate Backed(w: World, n: Server, events: seq<Event>, states: seq<Data>, c: Args, m: nat) {
    && Recovery.IsRun(w, events, states) && states[|events|] == n.data
    && AllStorable(LogOf(events)) && Storable(c) && m < |CommandBytes(c)|
    && n.file == Log(LogOf(events)) + CommandBytes(c)[..m]
  }

  ghost predicate Inv(w: World, n: Server) {
    exists events, states, c, m :: Backed(w, n, events, states, c, m)
  }

  lemma {:induction false} UnreadAfter(whole: seq<Args>, tail: string)
    requires AllStorable(whole)
    ensures Unread(Log(whole) + tail) == Unread(tail)
  {
    hide CommandBytes, Storable, Unread, Log;
    if whole == [] {
      NoLog();
      assert Log(whole) + tail == tail;
    } else {
      LogFirst(whole);
      assert Log(whole) + tail == CommandBytes(whole[0]) + (Log(whole[1..]) + tail);
      UnreadNext(whole[0], Log(whole[1..]) + tail);
      UnreadAfter(whole[1..], tail);
    }
  }

  lemma TornUnread(c: Args, m: nat)
    requires Storable(c) && m < |CommandBytes(c)|
    ensures Unread(CommandBytes(c)[..m]) == CommandBytes(c)[..m]
  {
    hide CommandBytes, Decode;
    CutCommand(c, m);
    UnreadFail(CommandBytes(c)[..m]);
  }

  lemma LogOfNext(events: seq<Event>, e: Event)
    ensures LogOf(events + [e]) == if IsLogged(e) then LogOf(events) + [ArgsFor(e)] else LogOf(events)
  {
    hide IsLogged;
    assert (events + [e])[..|events|] == events;
  }

  lemma ServedBacked(w: World, n: Server, n': Server, e: Event, events: seq<Event>, states: seq<Data>, c: Args, m: nat)
    requires Backed(w, n, events, states, c, m) && Next(w, n, n', Served(e)) && Clean(n, n', Served(e))
    ensures Inv(w, n')
  {
    hide Recovery.IsRun, EventOk, Storable, CommandBytes, Log, Unread, IsLogged, LogOf;
    var log, torn := LogOf(events), CommandBytes(c)[..m];
    U.RunGrows(w, events, states, e, n'.data);
    LogOfNext(events, e);
    if IsLogged(e) {
      NonEmpty(ArgsFor(e));
      assert n'.file != n.file;
      UnreadAfter(log, torn);
      TornUnread(c, m);
      LogAppend(log, ArgsFor(e));
      assert torn == "" && n.file == Log(log) + "" == Log(log);
      assert Backed(w, n', events + [e], states + [n'.data], c, 0);
    } else {
      assert n.file + "" == n.file;
      assert Backed(w, n', events + [e], states + [n'.data], c, m);
    }
  }

  lemma NonEmpty(c: Args)
    ensures |CommandBytes(c)| > 0
  {}

  /** A replay of a log is a run with that log. */
  lemma {:induction false} ReplayIsRun(w: World, events: seq<Event>, states: seq<Data>, at: seq<Moment>, rs: seq<Data>, j: nat)
    returns (es: seq<Event>)
    requires Recovery.IsRun(w, events, states) && IsReplay(w, LogOf(events), at, rs) && j <= |LogOf(events)|
    ensures Recovery.IsRun(w, es, rs[..j + 1]) && LogOf(es) == LogOf(events)[..j]
  {
    hide EventOk, ReplayOk, Alike, LogOf, IsLogged;
    var log := LogOf(events);
    if j == 0 {
      es := [];
      NoEvents();
    } else {
      var init := ReplayIsRun(w, events, states, at, rs, j - 1);
      var i := LogPrefix(events, j - 1);
      RunPrefix(w, events, states, i);
      ReplayPrefix(w, log, at, rs, j - 1);
      ReplayRebuilds(w, events[..i], states[..i + 1], at[..j - 1], rs[..j]);
      var e := ReplayEvent(w, states[i], events[i], states[i + 1], at[j - 1], rs[j - 1], rs[j]);
      U.RunGrows(w, init, rs[..j], e, rs[j]);
      LogOfNext(init, e);
      es := init + [e];
      assert rs[..j] + [rs[j]] == rs[..j + 1] && log[..j - 1] + [log[j - 1]] == log[..j];
    }
  }

  lemma NoEvents()
    ensures LogOf([]) == []
  {}

  /** Replaying a logged command is an event that logs the same. */
  lemma ReplayEvent(w: World, d: Data, e: Event, d': Data, at: Moment, r: Data, r': Data) returns (e': Event)
    requires EventOk(w, d, e, d') && IsLogged(e) && Alike(d, r) && ReplayOk(w, ArgsFor(e), at, r, r')
    ensures EventOk(w, r, e', r') && IsLogged(e') && ArgsFor(e') == ArgsFor(e)
  {
    hide Exec, Sketchy, Crashes, SetsTtl, IsWrite, IsKnown, Alike, ToUpper;
    WriteNamesUpper(e.cmd.name);
    WriteNotSweep(e.cmd.name);
    assert ArgsFor(e)[1..] == e.cmd.args;
    var reply :| Runs(e.cmd, r, at, w, reply, r');
    WriteAlike(e.cmd, d, r, e.at, at, w);
    e' := Event(e.cmd, at, true, reply);
  }

  lemma {:induction false} LogTake(cmds: seq<Args>, n: nat)
    requires n <= |cmds|
    ensures Log(cmds[..n]) <= Log(cmds)
  {
    hide CommandBytes, Log;
    if n == 0 {
      NoLog();
      assert cmds[..0] == [];
    } else {
      LogFirst(cmds);
      LogFirst(cmds[..n]);
      assert cmds[..n][1..] == cmds[1..][..n - 1];
      LogTake(cmds[1..], n - 1);
    }
  }

  /** A cut file is its whole commands and a part of the next. */
  lemma CutSplits(cmds: seq<Args>, k: nat)
    requires k < |Log(cmds)|
    ensures var n := Whole(cmds, k);
            && n < |cmds| && |Log(cmds[..n])| <= k && k - |Log(cmds[..n])| < |CommandBytes(cmds[n])|
            && Log(cmds)[..k] == Log(cmds[..n]) + CommandBytes(cmds[n])[..k - |Log(cmds[..n])|]
  {
    hide CommandBytes, Log, Whole;
    var n := Whole(cmds, k);
    WholeIsMost(cmds, k);
    assert cmds[..|cmds|] == cmds;
    assert cmds[..n] + [cmds[n]] == cmds[..n + 1];
    LogAppend(cmds[..n], cmds[n]);
    LogTake(cmds, n + 1);
    var m := k - |Log(cmds[..n])|;
    assert Log(cmds)[..k] == Log(cmds[..n + 1])[..k];
  }

  lemma CrashedBacked(w: World, n: Server, n': Server, k: nat, at: seq<Moment>, rs: seq<Data>,
                      events: seq<Event>, states: seq<Data>, c: Args, m: nat)
    requires Backed(w, n, events, states, c, m) && Next(w, n, n', Crashed(k, at, rs))
    ensures Inv(w, n')
  {
    hide Recovery.IsRun, IsReplay, Storable, CommandBytes, Log, LogOf, RecoverSpec, Whole;
    var log := LogOf(events);
    var cmds := log + [c];
    LogAppend(log, c);
    assert n.file[..k] == Log(cmds)[..k];
    CutRecovers(cmds, k);
    CutSplits(cmds, k);
    var j := Whole(cmds, k);
    assert cmds[..j] == log[..j];
    var i := LogPrefix(events, j);
    RunPrefix(w, events, states, i);
    var es := ReplayIsRun(w, events[..i], states[..i + 1], at, rs, j);
    assert rs[..j + 1] == rs && log[..j][..j] == log[..j];
    RunLength(w, es, rs);
    RunEnds(w, es, rs, log[..j], at);
    assert Backed(w, n', es, rs, cmds[j], k - |Log(log[..j])|);
  }

  lemma RunLength(w: World, es: seq<Event>, rs: seq<Data>)
    requires Recovery.IsRun(w, es, rs)
    ensures |rs| == |es| + 1
  {}

  lemma RunEnds(w: World, es: seq<Event>, rs: seq<Data>, calls: seq<Args>, at: seq<Moment>)
    requires Recovery.IsRun(w, es, rs) && IsReplay(w, calls, at, rs)
    ensures |es| == |calls|
  {}

  lemma InvStep(w: World, n: Server, n': Server, step: Step)
    requires Inv(w, n) && Next(w, n, n', step) && Clean(n, n', step)
    ensures Inv(w, n')
  {
    hide Backed, Next, Clean;
    var events, states, c, m :| Backed(w, n, events, states, c, m);
    match step
    case Served(e) => ServedBacked(w, n, n', e, events, states, c, m);
    case Crashed(k, at, rs) => CrashedBacked(w, n, n', k, at, rs, events, states, c, m);
  }

  // What it means

  /** The file at hand, or any part a crash may leave of it, recovers to surviving commands; all of it rebuilds the data. */
  ghost predicate Rebuilds(w: World, n: Server) {
    && RecoverSpec(n.file).ok
    && (forall at, rs :: IsReplay(w, Survivors(n), at, rs) ==> Strip(rs[|Survivors(n)|]) == Strip(n.data))
    && (forall k :: 0 <= k <= |n.file| ==> RecoverSpec(n.file[..k]).ok && RecoverSpec(n.file[..k]).calls <= Survivors(n))
  }

  /** Replaying the survivors never meets the run-time failure a handler has. */
  ghost predicate NeverFails(w: World, n: Server) {
    forall j, at, rs :: 0 <= j < |Survivors(n)| && IsReplay(w, Survivors(n)[..j], at, rs) ==>
      !U.FailsNext(Survivors(n)[j], rs[j])
  }

  lemma BackedSurvivors(w: World, n: Server, events: seq<Event>, states: seq<Data>, c: Args, m: nat)
    requires Backed(w, n, events, states, c, m)
    ensures RecoverSpec(n.file) == Aof.Recovery(LogOf(events), true)
  {
    hide Recovery.IsRun, Storable, CommandBytes, Log, LogOf, Decode;
    RecoverAfter(LogOf(events), CommandBytes(c)[..m]);
    CutCommand(c, m);
    assert LogOf(events) + [] == LogOf(events);
  }

  lemma BackedRebuilds(w: World, n: Server, events: seq<Event>, states: seq<Data>, c: Args, m: nat)
    requires Backed(w, n, events, states, c, m)
    ensures Rebuilds(w, n) && NeverFails(w, n)
  {
    BackedSurvivors(w, n, events, states, c, m);
    hide Recovery.IsRun, IsReplay, Storable, CommandBytes, Log, LogOf, RecoverSpec, Whole, Strip, Crashes, ToUpper;
    var log := LogOf(events);
    forall at, rs | IsReplay(w, log, at, rs)
      ensures Strip(rs[|log|]) == Strip(n.data)
    {
      ReplayRebuilds(w, events, states, at, rs);
    }
    var cmds := log + [c];
    LogAppend(log, c);
    forall k | 0 <= k <= |n.file|
      ensures RecoverSpec(n.file[..k]).ok && RecoverSpec(n.file[..k]).calls <= log
    {
      assert n.file[..k] == Log(cmds)[..k];
      CutRecovers(cmds, k);
      CutSplits(cmds, k);
      assert cmds[..Whole(cmds, k)] == log[..Whole(cmds, k)];
    }
    forall j, at, rs | 0 <= j < |log| && IsReplay(w, log[..j], at, rs)
      ensures !U.FailsNext(log[j], rs[j])
    {
      ReplayNeverCrashes(w, events, states, j, at, rs);
    }
  }

  /** How a step changes the surviving commands: a logged command joins them, a crash keeps a prefix. */
  ghost predicate History(n: Server, n': Server, step: Step) {
    match step
    case Served(e) => Survivors(n') == if IsLogged(e) then Survivors(n) + [ArgsFor(e)] else Survivors(n)
    case Crashed(_, _, _) => Survivors(n') <= Survivors(n)
  }

  lemma StepHistory(w: World, n: Server, n': Server, step: Step)
    requires Inv(w, n) && Next(w, n, n', step) && Clean(n, n', step)
    ensures History(n, n', step)
  {
    hide EventOk, IsReplay, Storable, CommandBytes, Log, RecoverSpec, Unread, IsLogged, Backed;
    var events, states, c, m :| Backed(w, n, events, states, c, m);
    match step
    case Served(e) =>
      if IsLogged(e) {
        LoggedJoins(w, n, n', e, events, states, c, m);
      } else {
        assert n.file + "" == n.file;
      }
    case Crashed(k, at, rs) =>
      hide Rebuilds;
      BackedRebuilds(w, n, events, states, c, m);
      CutSurvivors(w, n, k);
  }

  lemma CutSurvivors(w: World, n: Server, k: nat)
    requires Rebuilds(w, n) && k <= |n.file|
    ensures RecoverSpec(n.file[..k]).calls <= Survivors(n)
  {
    hide RecoverSpec, IsReplay, Strip;
  }

  lemma LoggedJoins(w: World, n: Server, n': Server, e: Event, events: seq<Event>, states: seq<Data>, c: Args, m: nat)
    requires Backed(w, n, events, states, c, m) && Next(w, n, n', Served(e)) && Clean(n, n', Served(e)) && IsLogged(e)
    ensures Survivors(n') == Survivors(n) + [ArgsFor(e)]
  {
    BackedSurvivors(w, n, events, states, c, m);
    hide Recovery.IsRun, EventOk, Storable, CommandBytes, Log, LogOf, RecoverSpec, Unread, IsLogged;
    var log, torn := LogOf(events), CommandBytes(c)[..m];
    NonEmpty(ArgsFor(e));
    assert n'.file != n.file;
    UnreadAfter(log, torn);
    TornUnread(c, m);
    LogAppend(log, ArgsFor(e));
    assert torn == "" && n.file == Log(log) + "" == Log(log);
    WholeRecovers(log + [ArgsFor(e)]);
  }

  // Whole runs

  /** A run from an empty store and file. */
  ghost predicate IsRun(w: World, run: seq<Server>, steps: seq<Step>) {
    && |run| == |steps| + 1 && run[0] == Server(map[], "")
    && forall t :: 0 <= t < |steps| ==> Next(w, run[t], run[t + 1], steps[t]) && Clean(run[t], run[t + 1], steps[t])
  }

  lemma StartInv(w: World)
    ensures Inv(w, Server(map[], ""))
  {
    hide EventOk, CommandBytes;
    NoLog();
    NoEvents();
    NonEmpty([]);
    assert Log([]) + CommandBytes([])[..0] == "";
    assert Backed(w, Server(map[], ""), [], [map[]], [], 0);
  }

  lemma {:induction false} RunInv(w: World, run: seq<Server>, steps: seq<Step>, t: nat)
    requires IsRun(w, run, steps) && t < |run|
    ensures Inv(w, run[t])
  {
    hide Inv, Next, Clean;
    if t == 0 {
      StartInv(w);
    } else {
      RunInv(w, run, steps, t - 1);
      InvStep(w, run[t - 1], run[t], steps[t - 1]);
    }
  }

  /**
   Recovery over any number of crashes and restarts: in every state the file rebuilds the data, and the
   commands it holds are those logged so far, less what each crash cut off the end.
   */
  lemma ManyCrashesRecover(w: World, run: seq<Server>, steps: seq<Step>, t: nat)
    requires IsRun(w, run, steps) && t < |run|
    ensures Rebuilds(w, run[t]) && NeverFails(w, run[t])
    ensures t < |steps| ==> History(run[t], run[t + 1], steps[t])
  {
    hide Rebuilds, NeverFails, History, Backed, Next, Clean;
    RunInv(w, run, steps, t);
    var events, states, c, m :| Backed(w, run[t], events, states, c, m);
    BackedRebuilds(w, run[t], events, states, c, m);
    if t < |steps| {
      StepHistory(w, run[t], run[t + 1], steps[t]);
    }
  }

  // The server takes these steps

  /** Dispatching a command, with logging on and no memory limit, is a served event, unless the process ends. */
  lemma DispatchServes(w: World, layout: Option<Layout>, cmd: Command, c: Moment, how: G.How, d: Data, d': Data, file: string)
    returns (step: Step)
    requires ValidMoment(c) && (layout.Some? ==> WellFormed(layout.value)) && !SetsTtl(cmd) && !how.Panicked?
    requires G.Did(layout, w, cmd, c, how, d, d, d') && Storable([cmd.name] + cmd.args)
    ensures Next(w, Server(d, file), Server(d', file + if how.Handled? then G.Logged(cmd, how.reply) else ""), step)
  {
    hide EventOk, Storable, CommandBytes, IsWrite, G.Did, SetsTtl, WellFormed, ValidMoment;
    var e := Event(cmd, c, how.Handled?, if how.Handled? then how.reply else ERR);
    U.EventOfDispatch(w, layout, how, e, d, d');
    step := Served(e);
  }

  /** Starting from the bytes a crash left is a crash step, if the start succeeds. */
  lemma RestartCrashes(w: World, n: Server, k: nat, calls: seq<Args>, at: seq<Moment>, rs: seq<Data>)
    requires k <= |n.file| && calls == RecoverSpec(n.file[..k]).calls && |at| == |calls| && IsReplay(w, calls[..|at|], at, rs)
    ensures Next(w, n, Server(rs[|at|], n.file[..k]), Crashed(k, at, rs))
  {
    hide RecoverSpec, IsReplay;
    assert calls[..|at|] == calls;
  }
}
