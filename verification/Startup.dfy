/**
 A server that logs, crashes at any byte of its file, and starts again.
 */
module Startup {
  import opened Numeral
  import opened Clock
  import opened Commands
  import opened Layout
  import opened Resp
  import opened Aof
  import opened HllEstimate
  import opened StoreModel
  import S = Store
  import opened Handlers
  import opened Route
  import opened Registry
  import R = Recovery

  /** The moment of the n-th operation. */
  type Clockwork = nat -> Moment

  ghost predicate Ticking(clock: Clockwork) {
    forall n :: ValidMoment(clock(n))
  }

  /** The events of a run that served `cmds` in order, perhaps not all of them. */
  ghost predicate Served(events: seq<R.Event>, cmds: seq<Command>) {
    |events| <= |cmds| && forall i :: 0 <= i < |events| ==> events[i].cmd == cmds[i]
  }

  /** Serves commands until they end or one makes the server fail; the file is the log of the run. */
  method ServeAll(disp: Dispatcher, cmds: seq<Command>, clock: Clockwork)
    returns (ghost events: seq<R.Event>, ghost states: seq<Data>)
    requires disp.Valid() && disp.logging && disp.maxMemory <= 0 && Ticking(clock)
    requires disp.store.Value() == map[] && disp.aof.file == ""
    requires forall i :: 0 <= i < |cmds| ==> !R.SetsTtl(cmds[i])
    modifies disp.store, disp.store.Repr, disp.aof
    ensures disp.Valid()
    ensures R.IsRun(disp.w, events, states) && states[|events|] == disp.store.Value()
    ensures disp.aof.file == Log(R.LogOf(events))
    ensures Served(events, cmds)
    ensures |events| < |cmds| ==> Crashes(cmds[|events|], disp.store.Value())
  {
    hide Dispatcher.Valid, S.Store.Valid, S.Store.Value, Did, Crashes, Sketchy, IsKnown, R.SetsTtl, WellFormed,
         Evicting, Wrap64, ValidMoment, R.IsRun, R.EventOk, Log, R.LogOf, Logged, DeniedOnOom;
    events, states := [], [map[]];
    RunStart(disp.w);
    for i := 0 to |cmds|
      invariant disp.Valid() && fresh(disp.store.Repr - old(disp.store.Repr))
      invariant R.IsRun(disp.w, events, states) && states[|events|] == disp.store.Value()
      invariant disp.aof.file == Log(R.LogOf(events))
      invariant |events| == i && Served(events, cmds)
    {
      ghost var d := disp.store.Value();
      var how, found := disp.Dispatch(cmds[i], clock(i));
      if how.Panicked? {
        PanicCrashes(disp.w, disp.layout, cmds[i], clock(i), d, disp.store.Value());
        assert disp.aof.file == Log(R.LogOf(events)) + "" == Log(R.LogOf(events));
        break;
      }
      ghost var e := R.Event(cmds[i], clock(i), how.Handled?, if how.Handled? then how.reply else ERR);
      EventOfDispatch(disp.w, disp.layout, how, e, d, disp.store.Value());
      RunGrows(disp.w, events, states, e, disp.store.Value());
      LogGrows(events, e);
      events, states := events + [e], states + [disp.store.Value()];
    }
  }

  lemma EventOfDispatch(w: World, layout: Option<Layout>, how: How, e: R.Event, d: Data, d': Data)
    requires ValidMoment(e.at) && (layout.Some? ==> WellFormed(layout.value)) && !R.SetsTtl(e.cmd) && !how.Panicked?
    requires (e.handled <==> how.Handled?) && (how.Handled? ==> e.reply == how.reply)
    requires Did(layout, w, e.cmd, e.at, how, d, d, d')
    ensures R.EventOk(w, d, e, d')
  {
    hide Sketchy, R.SetsTtl, Crashes, Runs, WellFormed, CheckCommand, IsKnown;
  }

  lemma PanicCrashes(w: World, layout: Option<Layout>, cmd: Command, at: Moment, d: Data, d': Data)
    requires ValidMoment(at) && (layout.Some? ==> WellFormed(layout.value)) && Did(layout, w, cmd, at, Panicked, d, d, d')
    ensures Crashes(cmd, d') && d' == d
  {
    hide Sketchy, Crashes, Runs, WellFormed, CheckCommand, IsKnown;
  }

  lemma RunStart(w: World)
    ensures R.IsRun(w, [], [map[]]) && R.LogOf([]) == [] && Log([]) == ""
  {}

  /** A run grows by one event. */
  lemma RunGrows(w: World, events: seq<R.Event>, states: seq<Data>, e: R.Event, d': Data)
    requires R.IsRun(w, events, states) && R.EventOk(w, states[|events|], e, d')
    ensures R.IsRun(w, events + [e], states + [d'])
  {
    hide R.EventOk;
    var es, ss := events + [e], states + [d'];
    forall i | 0 <= i < |es|
      ensures R.EventOk(w, ss[i], es[i], ss[i + 1])
    {
      if i < |events| {
        assert es[i] == events[i] && ss[i] == states[i] && ss[i + 1] == states[i + 1];
      } else {
        assert es[i] == e && ss[i] == states[|events|] && ss[i + 1] == d';
      }
    }
  }

  /** The file grows by what the event logs. */
  lemma LogGrows(events: seq<R.Event>, e: R.Event)
    ensures Log(R.LogOf(events + [e])) == Log(R.LogOf(events)) + if e.handled then Logged(e.cmd, e.reply) else ""
  {
    hide Log, CommandBytes, IsWrite;
    assert (events + [e])[..|events|] == events;
    var log := R.LogOf(events);
    if R.IsLogged(e) {
      LogAppend(log, [e.cmd.name] + e.cmd.args);
    } else {
      assert Log(log) + "" == Log(log);
    }
  }

  /** Replaying this call would make its handler fail. */
  predicate FailsNext(args: Args, d: Data) {
    args != [] && Crashes(Command(ToUpper(args[0]), args[1..]), d)
  }

  /**
   Recovers the file and replays it through `states`; replay stops short only where the next call
   would make a handler fail.
   */
  method Restart(disp: Dispatcher, clock: Clockwork)
    returns (ok: bool, ghost calls: seq<Args>, ghost at: seq<Moment>, ghost states: seq<Data>)
    requires disp.Valid() && Ticking(clock) && disp.store.Value() == map[]
    modifies disp.store, disp.store.Repr
    ensures disp.Valid() && disp.aof.file == old(disp.aof.file) && fresh(disp.store.Repr - old(disp.store.Repr))
    ensures calls == RecoverSpec(disp.aof.file).calls
    ensures |at| <= |calls| && R.IsReplay(disp.w, calls[..|at|], at, states)
    ensures disp.store.Value() == states[|at|]
    ensures ok <==> RecoverSpec(disp.aof.file).ok && |at| == |calls|
    ensures |at| < |calls| ==> FailsNext(calls[|at|], states[|at|])
  {
    hide Dispatcher.Valid, S.Store.Valid, S.Store.Value, Runs, Crashes, Sketchy, IsKnown, ValidMoment, R.IsReplay,
         R.ReplayOk, RecoverSpec, ToUpper;
    var list, clean := disp.aof.Recover();
    calls, at, states := list, [], [map[]];
    ReplayStart(disp.w, calls);
    for i := 0 to |list|
      invariant disp.Valid() && disp.aof.file == old(disp.aof.file) && fresh(disp.store.Repr - old(disp.store.Repr))
      invariant |at| == i && R.IsReplay(disp.w, calls[..i], at, states) && disp.store.Value() == states[i]
    {
      ghost var d := disp.store.Value();
      StoreSketchy(disp.store);
      if list[i] != [] {
        var cmd := Command(ToUpper(list[i][0]), list[i][1..]);
        if IsKnown(cmd.name) {
          if disp.CrashesNow(cmd) {
            return false, calls, at, states;
          }
          var reply := disp.Replay(cmd, clock(i));
          ReplayedCall(disp.w, list[i], clock(i), d, reply, disp.store.Value());
        } else {
          ReplaySkips(disp.w, list[i], clock(i), d);
        }
      } else {
        ReplaySkips(disp.w, list[i], clock(i), d);
      }
      ReplayGrows(disp.w, calls, i, at, states, clock(i), disp.store.Value());
      at, states := at + [clock(i)], states + [disp.store.Value()];
    }
    assert calls[..|calls|] == calls;
    return clean, calls, at, states;
  }

  lemma ReplayStart(w: World, calls: seq<Args>)
    ensures R.IsReplay(w, calls[..0], [], [map[]])
  {}

  lemma ReplayedCall(w: World, args: Args, at: Moment, d: Data, reply: Reply, d': Data)
    requires args != [] && ValidMoment(at) && Sketchy(d)
    requires var cmd := Command(ToUpper(args[0]), args[1..]);
             IsKnown(cmd.name) && !Crashes(cmd, d) && Runs(cmd, d, at, w, reply, d')
    ensures R.ReplayOk(w, args, at, d, d')
  {
    hide Sketchy, Crashes, Runs, ToUpper, IsKnown;
  }

  lemma ReplaySkips(w: World, args: Args, at: Moment, d: Data)
    requires ValidMoment(at) && Sketchy(d) && (args == [] || !IsKnown(ToUpper(args[0])))
    ensures R.ReplayOk(w, args, at, d, d)
  {
    hide Sketchy, Crashes, Runs, ToUpper, IsKnown;
  }

  lemma ReplayGrows(w: World, calls: seq<Args>, n: nat, at: seq<Moment>, states: seq<Data>, t: Moment, d': Data)
    requires n < |calls| && R.IsReplay(w, calls[..n], at, states) && R.ReplayOk(w, calls[n], t, states[n], d')
    ensures R.IsReplay(w, calls[..n + 1], at + [t], states + [d'])
  {
    hide R.ReplayOk;
    var cs, ts, ss := calls[..n + 1], at + [t], states + [d'];
    forall i | 0 <= i < |cs|
      ensures R.ReplayOk(w, cs[i], ts[i], ss[i], ss[i + 1])
    {
      if i < n {
        assert cs[i] == calls[..n][i] && ts[i] == at[i] && ss[i] == states[i] && ss[i + 1] == states[i + 1];
      } else {
        assert cs[i] == calls[n] && ts[i] == t && ss[i] == states[n] && ss[i + 1] == d';
      }
    }
  }

  /** A new server, with an empty store and the given file. */
  method NewServer(w: World, layout: Option<Layout>, file: string) returns (disp: Dispatcher)
    requires IsLn(w.o.ln) && (layout.Some? ==> WellFormed(layout.value))
    ensures disp.Valid() && disp.store.Value() == map[] && disp.aof.file == file && disp.w == w
    ensures disp.logging && disp.maxMemory == 0 && disp.layout == layout
    ensures fresh(disp) && fresh(disp.store) && fresh(disp.store.Repr) && fresh(disp.aof)
  {
    hide Dispatcher.Valid, S.Store.Valid, S.Store.Value, WellFormed, IsLn;
    disp := new Dispatcher(w, layout, 0, 5, true, file);
  }

  /**
   The whole story: a server starts empty, serves any commands that set no expiry, crashes leaving
   any `k` bytes of its file, and a new server starts from what is left. The new server starts
   without failing and holds the values the old one held after some number of its commands, and all
   of them if the file was whole.
   */
  method CrashAndRestart(w: World, layout: Option<Layout>, cmds: seq<Command>, clock: Clockwork, k: nat, clock': Clockwork)
    returns (file: string, final: Dispatcher, ok: bool, ghost events: seq<R.Event>, ghost states: seq<Data>, ghost i: nat)
    requires IsLn(w.o.ln) && (layout.Some? ==> WellFormed(layout.value)) && Ticking(clock) && Ticking(clock')
    requires forall j :: 0 <= j < |cmds| ==> !R.SetsTtl(cmds[j])
    requires forall j :: 0 <= j < |cmds| ==> Storable([cmds[j].name] + cmds[j].args)
    ensures fresh(final) && final.Valid()
    ensures R.IsRun(w, events, states) && file == Log(R.LogOf(events)) && Served(events, cmds)
    ensures |events| < |cmds| ==> Crashes(cmds[|events|], states[|events|])
    ensures k <= |file| ==> final.aof.file == file[..k] && ok
    ensures k <= |file| ==> i <= |events| && R.Strip(final.store.Value()) == R.Strip(states[i])
    ensures k == |file| ==> i == |events|
  {
    hide Dispatcher.Valid, S.Store.Valid, S.Store.Value, Crashes, R.IsRun, R.IsReplay, RecoverSpec, Log, R.LogOf,
         R.SetsTtl, Storable, R.Strip, WellFormed, IsLn, FailsNext, Ticking, Served;
    var first := NewServer(w, layout, "");
    events, states := ServeAll(first, cmds, clock);
    file := first.aof.file;
    final := NewServer(w, layout, if k <= |file| then file[..k] else file);
    ghost var calls, at, rs;
    ok, calls, at, rs := Restart(final, clock');
    i := 0;
    if k <= |file| {
      i := Recovers(w, events, states, cmds, k, calls, at, rs);
    }
  }

  lemma Recovers(w: World, events: seq<R.Event>, states: seq<Data>, cmds: seq<Command>, k: nat,
                 calls: seq<Args>, at: seq<Moment>, rs: seq<Data>) returns (i: nat)
    requires R.IsRun(w, events, states) && k <= |Log(R.LogOf(events))|
    requires forall j :: 0 <= j < |cmds| ==> Storable([cmds[j].name] + cmds[j].args)
    requires Served(events, cmds)
    requires calls == RecoverSpec(Log(R.LogOf(events))[..k]).calls
    requires |at| <= |calls| && R.IsReplay(w, calls[..|at|], at, rs)
    requires |at| < |calls| ==> FailsNext(calls[|at|], rs[|at|])
    ensures RecoverSpec(Log(R.LogOf(events))[..k]).ok && |at| == |calls|
    ensures i <= |events| && R.Strip(rs[|at|]) == R.Strip(states[i])
    ensures k == |Log(R.LogOf(events))| ==> i == |events|
  {
    hide R.IsRun, R.IsReplay, RecoverSpec, Log, R.LogOf, Storable, R.Strip, FailsNext, Served;
    LogStorable(events, cmds);
    i := R.CrashRecovery(w, events, states, k);
    Finishes(w, events, states, i, at, rs, calls);
    assert calls[..|calls|] == calls;
  }

  /** Every logged command is one of those served. */
  lemma {:induction false} LogStorable(events: seq<R.Event>, cmds: seq<Command>)
    requires forall j :: 0 <= j < |cmds| ==> Storable([cmds[j].name] + cmds[j].args)
    requires Served(events, cmds)
    ensures forall j :: 0 <= j < |R.LogOf(events)| ==> Storable(R.LogOf(events)[j])
  {
    hide Storable, R.IsLogged;
    if events != [] {
      LogStorable(events[..|events| - 1], cmds);
    }
  }

  /** Replay of a recovered log runs to its end. */
  lemma Finishes(w: World, events: seq<R.Event>, states: seq<Data>, i: nat, at: seq<Moment>, rs: seq<Data>, calls: seq<Args>)
    requires R.IsRun(w, events, states) && i <= |events| && calls == R.LogOf(events[..i])
    requires |at| <= |calls| && R.IsReplay(w, calls[..|at|], at, rs)
    requires |at| < |calls| ==> FailsNext(calls[|at|], rs[|at|])
    ensures |at| == |calls|
  {
    hide R.IsRun, R.IsReplay, R.LogOf, Crashes, ToUpper;
    R.RunPrefix(w, events, states, i);
    if |at| < |calls| {
      R.ReplayNeverCrashes(w, events[..i], states[..i + 1], |at|, at, rs);
      assert false;
    }
  }
}
