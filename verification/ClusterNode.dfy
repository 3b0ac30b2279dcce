/**
 The running server against the cluster's step system: what dispatching a command, or crashing and
 starting again, does to a node is one of its steps.
 */
module ClusterNode {
  import opened Numeral
  import opened Clock
  import opened Commands
  import opened Layout
  import opened Route
  import opened Aof
  import opened HllEstimate
  import opened StoreModel
  import S = Store
  import opened Handlers
  import opened Registry
  import R = Recovery
  import opened Startup
  import C = ClusterSafety

  /** The objects a server owns. */
  ghost function Own(disp: Dispatcher): set<object>
    reads disp.store
  {
    {disp.store, disp.aof} + disp.store.Repr
  }

  lemma DispatchIsStep(layouts: seq<Layout>, w: World, i: nat, cmd: Command, c: Moment, how: How, d: Data, found: Data, d': Data,
                       file: string, file': string) returns (step: C.Step)
    requires C.Agree(layouts) && i < |layouts| && ValidMoment(c) && Storable([cmd.name] + cmd.args) && !how.Panicked?
    requires WellFormed(layouts[i]) && Did(Some(layouts[i]), w, cmd, c, how, d, found, d')
    requires file' == if how.Handled? then file + Logged(cmd, how.reply) else file
    ensures C.NodeStep(layouts, w, C.Member(d, file), C.Member(d', file'), i, step)
  {
    hide C.Agree, WellFormed, Storable, IsKnown, CheckCommand, Runs, Crashes, Sketchy, Logged, ValidMoment;
    step := if how.Handled? then C.Client(cmd, c, how.reply, found) else C.Removal;
  }

  /** Dispatching a command on a node is a step of the cluster, unless the process ends. */
  method DispatchOn(disp: Dispatcher, layouts: seq<Layout>, i: nat, cmd: Command, c: Moment) returns (how: How, ghost step: C.Step)
    requires C.Agree(layouts) && i < |layouts| && disp.Valid() && disp.layout == Some(layouts[i]) && disp.logging
    requires ValidMoment(c) && Storable([cmd.name] + cmd.args)
    modifies disp.store, disp.store.Repr, disp.aof
    ensures disp.Valid() && fresh(disp.store.Repr - old(disp.store.Repr))
    ensures !how.Panicked? ==>
              C.NodeStep(layouts, disp.w, C.Member(old(disp.store.Value()), old(disp.aof.file)),
                         C.Member(disp.store.Value(), disp.aof.file), i, step)
  {
    hide Dispatcher.Valid, S.Store.Valid, S.Store.Value, C.Agree, WellFormed, Storable, IsKnown, CheckCommand, Did, Logged,
         ValidMoment, DeniedOnOom, Evicting, Wrap64, C.NodeStep;
    ghost var d, file := disp.store.Value(), disp.aof.file;
    ghost var found;
    how, found := disp.Dispatch(cmd, c);
    assert file + "" == file;
    step := C.Removal;
    if !how.Panicked? {
      step := DispatchIsStep(layouts, disp.w, i, cmd, c, how, d, found, disp.store.Value(), file, disp.aof.file);
    }
  }

  /** A crash that leaves `k` bytes of the file and a successful start from them are a step of the cluster. */
  method CrashOn(disp: Dispatcher, layouts: seq<Layout>, i: nat, k: nat, clock: Clockwork)
    returns (next: Dispatcher, ok: bool, ghost step: C.Step)
    requires C.Agree(layouts) && i < |layouts| && disp.Valid() && disp.layout == Some(layouts[i]) && WellFormed(layouts[i])
    requires IsLn(disp.w.o.ln) && Ticking(clock) && k <= |disp.aof.file|
    ensures fresh(next) && fresh(Own(next)) && next.Valid()
    ensures next.layout == Some(layouts[i]) && next.logging && next.w == disp.w
    ensures ok ==> C.NodeStep(layouts, disp.w, C.Member(disp.store.Value(), disp.aof.file),
                              C.Member(next.store.Value(), next.aof.file), i, step)
  {
    hide Dispatcher.Valid, S.Store.Valid, S.Store.Value, C.Agree, WellFormed, IsLn, Ticking, RecoverSpec, R.IsReplay, FailsNext;
    ghost var n := C.Member(disp.store.Value(), disp.aof.file);
    next := NewServer(disp.w, Some(layouts[i]), disp.aof.file[..k]);
    ghost var calls, at, rs;
    ok, calls, at, rs := Restart(next, clock);
    step := C.Restart(k, at, rs);
    if ok {
      assert calls[..|calls|] == calls;
    }
  }

  // Whole runs

  /** What happens to a node: a command arrives, or it crashes leaving at most `k` bytes of its file and starts again. */
  datatype Order =
    | Serve(i: nat, cmd: Command, at: Moment)
    | Crash(i: nat, k: nat, clock: Clockwork)

  ghost predicate OrderOk(o: Order, count: nat)
    ensures OrderOk(o, count) ==> o.i < count
  {
    match o
    case Serve(i, cmd, at) => i < count && ValidMoment(at) && Storable([cmd.name] + cmd.args)
    case Crash(i, _, clock) => i < count && Ticking(clock)
  }

  /** A node as the step system sees it. */
  ghost function View(disp: Dispatcher): C.Member
    requires disp.store.Valid()
    reads disp.store, disp.store.Repr, disp.aof
  {
    C.Member(disp.store.Value(), disp.aof.file)
  }

  /** Node `i` is up. */
  ghost predicate Up(disp: Dispatcher, layout: Layout, w: World)
    reads disp.store, disp.store.Repr
    ensures Up(disp, layout, w) ==> disp.store.Valid()
  {
    disp.Valid() && disp.layout == Some(layout) && disp.logging && disp.w == w
  }

  /** Servers that share nothing. */
  ghost predicate Apart(ds: seq<Dispatcher>)
    reads set i | 0 <= i < |ds| :: ds[i].store
  {
    forall i, j :: 0 <= i < j < |ds| ==> Own(ds[i]) !! Own(ds[j])
  }

  /** Every node is up, they share nothing, and `s` is what they hold. */
  ghost predicate AllUp(ds: seq<Dispatcher>, layouts: seq<Layout>, w: World, s: C.Cluster)
    reads set i | 0 <= i < |ds| :: ds[i].store
    reads set i | 0 <= i < |ds| :: ds[i].aof
    reads set i, o | 0 <= i < |ds| && o in ds[i].store.Repr :: o
  {
    && |ds| == |layouts| == |s| && Apart(ds)
    && forall i :: 0 <= i < |ds| ==> Up(ds[i], layouts[i], w) && View(ds[i]) == s[i]
  }

  /** One order on one server is a step of its node, unless its process ends. */
  method ObeyAt(disp: Dispatcher, layouts: seq<Layout>, w: World, o: Order)
    returns (next: Dispatcher, ended: bool, ghost step: C.Step)
    requires C.Agree(layouts) && OrderOk(o, |layouts|) && IsLn(w.o.ln) && Up(disp, layouts[o.i], w)
    modifies Own(disp)
    ensures next == disp || fresh(next)
    ensures fresh(Own(next) - old(Own(disp)))
    ensures !ended ==> Up(next, layouts[o.i], w) && C.NodeStep(layouts, w, old(View(disp)), View(next), o.i, step)
  {
    hide Dispatcher.Valid, S.Store.Valid, S.Store.Value, C.Agree, IsLn, C.NodeStep, Storable, ValidMoment, Ticking;
    var i := o.i;
    assert WellFormed(layouts[i]) by { AgreeAt(layouts, i); }
    hide WellFormed;
    match o {
      case Serve(_, cmd, at) =>
        var how;
        how, step := DispatchOn(disp, layouts, i, cmd, at);
        next, ended := disp, how.Panicked?;
      case Crash(_, k, clock) =>
        var ok;
        var file := disp.aof.file;
        next, ok, step := CrashOn(disp, layouts, i, if k <= |file| then k else |file|, clock);
        ended := !ok;
    }
  }

  /** One order on a cluster of servers is a step of the cluster, unless that server's process ends. */
  method Obey(ds: seq<Dispatcher>, layouts: seq<Layout>, w: World, o: Order, ghost s: C.Cluster)
    returns (ds': seq<Dispatcher>, ended: bool, ghost s': C.Cluster, ghost step: C.Step)
    requires C.Agree(layouts) && AllUp(ds, layouts, w, s) && IsLn(w.o.ln) && OrderOk(o, |ds|)
    modifies Own(ds[o.i])
    ensures |ds'| == |ds| && forall j :: 0 <= j < |ds| && j != o.i ==> ds'[j] == ds[j] && Own(ds[j]) == old(Own(ds[j]))
    ensures fresh(Own(ds'[o.i]) - old(Own(ds[o.i])))
    ensures !ended ==> AllUp(ds', layouts, w, s') && C.Next(layouts, w, s, s', o.i, step)
  {
    hide Dispatcher.Valid, S.Store.Valid, S.Store.Value, C.Agree, IsLn, C.NodeStep, OrderOk;
    var i := o.i;
    var next;
    next, ended, step := ObeyAt(ds[i], layouts, w, o);
    ds', s' := ds[i := next], s;
    forall j | 0 <= j < |ds| && j != i
      ensures Own(ds[j]) == old(Own(ds[j]))
    {
      assert old(Own(ds[j])) !! old(Own(ds[i]));
    }
    if !ended {
      s' := s[i := View(next)];
      forall j | 0 <= j < |ds| && j != i
        ensures Up(ds[j], layouts[j], w) && View(ds[j]) == s[j] && Own(ds[j]) !! Own(next)
      {
        assert Own(ds[j]) !! old(Own(ds[i]));
      }
    }
  }

  /** Starts the nodes of a cluster, each with an empty file. */
  method StartAll(layouts: seq<Layout>, w: World) returns (ds: seq<Dispatcher>, ghost s: C.Cluster)
    requires C.Agree(layouts) && IsLn(w.o.ln)
    ensures AllUp(ds, layouts, w, s) && C.Init(s) && forall j :: 0 <= j < |ds| ==> fresh(Own(ds[j]))
  {
    hide Dispatcher.Valid, S.Store.Valid, S.Store.Value, C.Agree, IsLn, WellFormed;
    ds, s := [], [];
    for i := 0 to |layouts|
      invariant |ds| == i == |s| && Apart(ds) && C.Init(s)
      invariant forall j :: 0 <= j < i ==> fresh(Own(ds[j])) && Up(ds[j], layouts[j], w) && View(ds[j]) == s[j]
    {
      AgreeAt(layouts, i);
      var disp := NewServer(w, Some(layouts[i]), "");
      ds, s := ds + [disp], s + [View(disp)];
    }
  }

  /**
   Any script of commands and crashes on the servers of a cluster started empty, up to the end of a
   process, is a run of the cluster's step system.
   */
  method RunScript(layouts: seq<Layout>, w: World, script: seq<Order>)
    returns (ds: seq<Dispatcher>, done: nat, ghost run: seq<C.Cluster>, ghost who: seq<nat>, ghost steps: seq<C.Step>)
    requires C.Agree(layouts) && IsLn(w.o.ln) && forall t :: 0 <= t < |script| ==> OrderOk(script[t], |layouts|)
    ensures done <= |script|
    ensures C.IsRun(layouts, w, run, who, steps) && |steps| == done
    ensures forall t :: 0 <= t < done ==> who[t] == script[t].i
    ensures done == |script| ==> AllUp(ds, layouts, w, run[done])
  {
    hide C.Agree, IsLn, C.Next, OrderOk, AllUp, C.Init;
    ghost var s;
    ds, s := StartAll(layouts, w);
    run, who, steps, done := [s], [], [], 0;
    assert |s| == |layouts| == |ds| by { Sizes(ds, layouts, w, s); }
    while done < |script|
      invariant done <= |script| && C.IsRun(layouts, w, run, who, steps) && |steps| == done
      invariant AllUp(ds, layouts, w, run[done]) && |ds| == |layouts|
      invariant forall j :: 0 <= j < |ds| ==> fresh(Own(ds[j]))
      invariant forall t :: 0 <= t < done ==> who[t] == script[t].i
    {
      var ended;
      ghost var s', step;
      ds, ended, s', step := Obey(ds, layouts, w, script[done], run[done]);
      if ended {
        return;
      }
      RunGrows(layouts, w, run, who, steps, s', script[done].i, step);
      run, who, steps, done := run + [s'], who + [script[done].i], steps + [step], done + 1;
    }
  }

  lemma Sizes(ds: seq<Dispatcher>, layouts: seq<Layout>, w: World, s: C.Cluster)
    requires AllUp(ds, layouts, w, s)
    ensures |ds| == |layouts| == |s|
  {}

  lemma RunGrows(layouts: seq<Layout>, w: World, run: seq<C.Cluster>, who: seq<nat>, steps: seq<C.Step>,
                 s': C.Cluster, i: nat, step: C.Step)
    requires C.Agree(layouts) && C.IsRun(layouts, w, run, who, steps) && C.Next(layouts, w, run[|steps|], s', i, step)
    ensures C.IsRun(layouts, w, run + [s'], who + [i], steps + [step])
  {
    hide C.Agree, C.Next;
    var run', who', steps' := run + [s'], who + [i], steps + [step];
    forall t | 0 <= t < |steps'|
      ensures C.Next(layouts, w, run'[t], run'[t + 1], who'[t], steps'[t])
    {
      if t < |steps| {
        assert run'[t] == run[t] && run'[t + 1] == run[t + 1];
      }
    }
  }

  lemma AgreeAt(layouts: seq<Layout>, i: nat)
    requires C.Agree(layouts) && i < |layouts|
    ensures WellFormed(layouts[i])
  {}
}
