/**
 Crash recovery. In a run without expiries and memory limit, every cut of the append-only file
 recovers the data reached after some prefix of the run, and the whole file recovers the final data,
 up to recency stamps.
 */
module Recovery {
  import opened Numeral
  import opened Clock
  import opened Commands
  import opened Resp
  import opened Aof
  import opened Hll
  import opened HllLattice
  import M = StoreModel
  import opened StoreModel
  import opened Handlers

  type Vals = map<string, Val>

  /** The logical data: keys and values, without stamps. */
  function Strip(d: Data): Vals {
    map k | k in d :: d[k].val
  }

  ghost predicate NoExpiry(d: Data) {
    forall k :: k in d ==> d[k].exp.None?
  }

  /** A command that asks for an expiry and gets one. */
  predicate SetsTtl(cmd: Command) {
    || (cmd.name == "SET" && |cmd.args| == 4 && SetTtl(cmd.args).Ttl? && SetTtl(cmd.args).ns > 0)
    || (cmd.name == "EXPIRE" && |cmd.args| == 2 && Parse(cmd.args[1]).Some?
        && Wrap64(Parse(cmd.args[1]).value * SECOND) > 0)
  }

  /** Stores that hold the same values and no expiry. */
  ghost predicate Alike(a: Data, b: Data) {
    Strip(a) == Strip(b) && NoExpiry(a) && NoExpiry(b)
  }

  // Operations on stores alike

  lemma AlikeAt(a: Data, b: Data, key: string)
    requires Alike(a, b)
    ensures key in a <==> key in b
    ensures key in a ==> a[key].val == b[key].val && a[key].exp.None? && b[key].exp.None?
  {
    assert key in Strip(a) <==> key in Strip(b);
    if key in a {
      assert Strip(a)[key] == Strip(b)[key];
    }
  }

  lemma AlikePut(a: Data, b: Data, key: string, x: Entry, y: Entry)
    requires Alike(a, b) && x.val == y.val && x.exp.None? && y.exp.None?
    ensures Alike(a[key := x], b[key := y])
  {
    assert Strip(a[key := x]) == Strip(a)[key := x.val];
    assert Strip(b[key := y]) == Strip(b)[key := y.val];
  }

  /** Restamping or dropping expired keys, with no expiry about, keeps the values. */
  lemma ReadKeeps(d: Data, c: Moment, key: string)
    requires NoExpiry(d) && ValidMoment(c)
    ensures Alike(Touch(d, key, c), d) && Drop(d, key, c.now) == d && AfterFreq(d, key, c) == d
  {
    hide StampAccess;
    assert Strip(Touch(d, key, c)) == Strip(d);
  }

  lemma {:induction false} JoinAllAlike(a: Data, b: Data, keys: seq<string>)
    requires Alike(a, b) && ValidData(a) && ValidData(b)
    ensures JoinAll(a, keys) == JoinAll(b, keys)
  {
    if keys != [] {
      JoinAllAlike(a, b, keys[..|keys| - 1]);
      AlikeAt(a, b, keys[|keys| - 1]);
    }
  }

  lemma AlikeJoin(a: Data, b: Data, c: Data)
    requires Alike(a, b) && Alike(b, c)
    ensures Alike(a, c)
  {}

  lemma AlikeSet(a: Data, b: Data, key: string, value: string, ttl: int, c: Moment, c': Moment)
    requires Alike(a, b) && ttl <= 0
    ensures Alike(M.Set(a, key, value, ttl, c), M.Set(b, key, value, ttl, c'))
  {
    hide StampNew, Detect, Alike;
    AlikePut(a, b, key, M.Set(a, key, value, ttl, c)[key], M.Set(b, key, value, ttl, c')[key]);
  }

  ghost predicate Comparable(cmd: Command, a: Data, b: Data, c: Moment, c': Moment) {
    && Alike(a, b) && !SetsTtl(cmd) && ValidMoment(c) && ValidMoment(c') && Sketchy(a) && Sketchy(b)
    && !Crashes(cmd, a) && !Crashes(cmd, b)
  }

  /** The same effect as far as values and success go. */
  ghost predicate SameEffect(x: Effect, y: Effect) {
    Alike(x.data, y.data) && (x.reply.Error? <==> y.reply.Error?)
  }

  lemma SetAlike(args: seq<string>, a: Data, b: Data, c: Moment, c': Moment)
    requires Comparable(Command("SET", args), a, b, c, c')
    ensures SameEffect(HandleSet(args, a, c), HandleSet(args, b, c'))
  {
    hide M.Set, Parse, Wrap64, ToUpper, Alike, Sketchy;
    if (|args| == 2 || |args| == 4) && SetTtl(args).Ttl? {
      AlikeSet(a, b, args[0], args[1], SetTtl(args).ns, c, c');
    }
  }

  lemma ExpireAlike(args: seq<string>, a: Data, b: Data, c: Moment, c': Moment)
    requires Comparable(Command("EXPIRE", args), a, b, c, c')
    ensures SameEffect(HandleExpire(args, a, c), HandleExpire(args, b, c'))
  {
    hide M.Set, Parse, Wrap64, Alike, Sketchy, Touch, Format;
    if |args| == 2 && Parse(args[1]).Some? {
      var key, ttl := args[0], Wrap64(Parse(args[1]).value * SECOND);
      AlikeAt(a, b, key);
      AlikeParts(a, b);
      ReadKeeps(a, c, key);
      ReadKeeps(b, c', key);
      AlikeFlip(Touch(b, key, c'), b);
      AlikeJoin(Touch(a, key, c), a, b);
      AlikeJoin(Touch(a, key, c), b, Touch(b, key, c'));
      if GetResult(a, key, c.now).Some? {
        AlikeSet(Touch(a, key, c), Touch(b, key, c'), key, GetResult(a, key, c.now).value, ttl, c, c');
      }
    }
  }

  lemma AlikeParts(a: Data, b: Data)
    requires Alike(a, b)
    ensures NoExpiry(a) && NoExpiry(b)
  {}

  lemma AlikeFlip(a: Data, b: Data)
    requires Alike(a, b)
    ensures Alike(b, a)
  {}

  lemma IncrAlike(args: seq<string>, a: Data, b: Data, c: Moment, c': Moment)
    requires Comparable(Command("INCR", args), a, b, c, c')
    ensures SameEffect(HandleIncr(args, a, c), HandleIncr(args, b, c'))
  {
    hide M.Set, Wrap64, Alike, Sketchy, Touch, Format;
    if |args| == 1 {
      var key := args[0];
      AlikeAt(a, b, key);
      AlikeParts(a, b);
      ReadKeeps(a, c, key);
      ReadKeeps(b, c', key);
      AlikeFlip(Touch(b, key, c'), b);
      AlikeJoin(Touch(a, key, c), a, b);
      AlikeJoin(Touch(a, key, c), b, Touch(b, key, c'));
      var n := if GetIntResult(a, key, c.now).Number? then Wrap64(GetIntResult(a, key, c.now).n + 1) else 1;
      AlikeSet(Touch(a, key, c), Touch(b, key, c'), key, Format(n), 0, c, c');
    }
  }

  lemma AppendAlike(args: seq<string>, a: Data, b: Data, c: Moment, c': Moment)
    requires Comparable(Command("APPEND", args), a, b, c, c')
    ensures SameEffect(HandleAppend(args, a, c), HandleAppend(args, b, c'))
  {
    hide Alike, Sketchy, StampAccess, StampNew, Format, Detect;
    if |args| == 2 {
      var key := args[0];
      AlikeAt(a, b, key);
      AlikePut(a, b, key, M.Append(a, key, args[1], c)[key], M.Append(b, key, args[1], c')[key]);
    }
  }

  lemma PFAddAlike(args: seq<string>, a: Data, b: Data, c: Moment, c': Moment, hash: Hash)
    requires Comparable(Command("PFADD", args), a, b, c, c')
    ensures SameEffect(HandlePFAdd(args, a, c, hash), HandlePFAdd(args, b, c', hash))
  {
    hide Alike, Sketchy, StampAccess, StampNew, AddAll;
    if args != [] {
      var key := args[0];
      AlikeAt(a, b, key);
      if !WrongType(a, key, c.now) {
        AlikePut(a, b, key, M.PFAdd(a, key, args[1..], c, hash)[key], M.PFAdd(b, key, args[1..], c', hash)[key]);
      }
    }
  }

  lemma PFMergeAlike(args: seq<string>, a: Data, b: Data, c: Moment, c': Moment)
    requires Comparable(Command("PFMERGE", args), a, b, c, c') && ValidData(a) && ValidData(b)
    ensures SameEffect(HandlePFMerge(args, a, c), HandlePFMerge(args, b, c'))
  {
    hide Alike, Sketchy, StampNew, JoinAll, ValidData;
    if args != [] {
      JoinAllAlike(a, b, [args[0]] + args[1..]);
      AlikePut(a, b, args[0], M.PFMerge(a, args[0], args[1..], c)[args[0]], M.PFMerge(b, args[0], args[1..], c')[args[0]]);
    }
  }

  lemma DelAlike(args: seq<string>, a: Data, b: Data, c: Moment, c': Moment)
    requires Comparable(Command("DEL", args), a, b, c, c')
    ensures SameEffect(HandleDel(args, a, c.now), HandleDel(args, b, c'.now))
  {
    hide DeleteCount, Sketchy;
    assert Strip(M.Delete(a, args)) == Strip(a) - (set k | k in args);
    assert Strip(M.Delete(b, args)) == Strip(b) - (set k | k in args);
  }

  /** Write commands have the same effect on stores alike, at any two moments. */
  lemma WriteAlike(cmd: Command, a: Data, b: Data, c: Moment, c': Moment, w: World)
    requires Comparable(cmd, a, b, c, c') && IsWrite(cmd.name)
    ensures SameEffect(Exec(cmd, a, c, w), Exec(cmd, b, c', w))
  {
    hide SameEffect, HandleSet, HandleExpire, HandleIncr, HandleAppend, HandlePFAdd, HandlePFMerge, HandleDel,
         HandleGet, HandleTTL, HandlePFCount, ObjectData, Sketchy, Alike, CanAppend, SetTtl, Parse, Wrap64;
    SketchyValid(a);
    SketchyValid(b);
    assert cmd == Command(cmd.name, cmd.args);
    if cmd.name == "SET" {
      SetAlike(cmd.args, a, b, c, c');
    } else if cmd.name == "EXPIRE" {
      ExpireAlike(cmd.args, a, b, c, c');
    } else if cmd.name == "INCR" {
      IncrAlike(cmd.args, a, b, c, c');
    } else if cmd.name == "APPEND" {
      AppendAlike(cmd.args, a, b, c, c');
    } else if cmd.name == "PFADD" {
      PFAddAlike(cmd.args, a, b, c, c', w.o.hash);
    } else if cmd.name == "PFMERGE" {
      PFMergeAlike(cmd.args, a, b, c, c');
    } else {
      DelAlike(cmd.args, a, b, c, c');
    }
  }

  /** Handlers that answer an error, and all that are not logged, leave the values alone. */
  lemma FailedWriteKeeps(cmd: Command, d: Data, c: Moment, w: World)
    requires Comparable(cmd, d, d, c, c) && IsWrite(cmd.name) && Exec(cmd, d, c, w).reply.Error?
    ensures Alike(Exec(cmd, d, c, w).data, d)
  {
    hide Alike, Sketchy, M.Set, M.Append, M.PFAdd, M.PFMerge, M.Delete, Touch, Parse, Wrap64, Format, DeleteCount,
         JoinAll, AddAll, GetResult, GetIntResult, PFAddChanged, AppendLength, CanAppend, ToUpper, ValidData;
    AlikeParts(d, d);
    if cmd.args != [] {
      ReadKeeps(d, c, cmd.args[0]);
    }
  }

  lemma ReadCommandKeeps(cmd: Command, d: Data, c: Moment, w: World)
    requires Comparable(cmd, d, d, c, c) && !IsWrite(cmd.name)
    ensures Alike(Exec(cmd, d, c, w).data, d)
  {
    hide Alike, Sketchy, Touch, Drop, AfterFreq, GetResult, TTLResult, EstimateOf, ToUpper;
    AlikeParts(d, d);
    if |cmd.args| >= 1 {
      ReadKeeps(d, c, cmd.args[0]);
    }
    if |cmd.args| >= 2 {
      ReadKeeps(d, c, cmd.args[1]);
    }
  }

  lemma SweepKeeps(d: Data, d': Data, now: nat)
    requires NoExpiry(d) && Swept(d, d', now)
    ensures d' == d
  {
    assert d'.Keys == d.Keys;
  }

  // Runs

  /** One dispatched command: when, whether a handler ran, and its reply. */
  datatype Event = Event(cmd: Command, at: Moment, handled: bool, reply: Reply)

  ghost predicate EventOk(w: World, d: Data, e: Event, d': Data) {
    && ValidMoment(e.at) && Sketchy(d) && !SetsTtl(e.cmd)
    && (if e.handled then !Crashes(e.cmd, d) && Runs(e.cmd, d, e.at, w, e.reply, d') else d' == d)
  }

  /** A run from the empty store in which no command sets an expiry; states[i] is before event i. */
  ghost predicate IsRun(w: World, events: seq<Event>, states: seq<Data>)
    ensures IsRun(w, events, states) ==> |states| == |events| + 1
  {
    && |states| == |events| + 1 && states[0] == map[]
    && forall i :: 0 <= i < |events| ==> EventOk(w, states[i], events[i], states[i + 1])
  }

  predicate IsLogged(e: Event) {
    e.handled && IsWrite(e.cmd.name) && !e.reply.Error?
  }

  /** The commands the run appends to the file. */
  ghost function LogOf(events: seq<Event>): seq<Args> {
    if events == [] then []
    else
      var init, e := LogOf(events[..|events| - 1]), events[|events| - 1];
      if IsLogged(e) then init + [[e.cmd.name] + e.cmd.args] else init
  }

  /** One call of replay: the executor upper-cases the name and ignores unknown commands. */
  ghost predicate ReplayOk(w: World, args: Args, at: Moment, d: Data, d': Data) {
    if args == [] then d' == d
    else
      var cmd := Command(ToUpper(args[0]), args[1..]);
      && ValidMoment(at) && Sketchy(d)
      && (if IsKnown(cmd.name) then !Crashes(cmd, d) && exists reply :: Runs(cmd, d, at, w, reply, d') else d' == d)
  }

  /** A replay of recovered commands from the empty store, at any moments. */
  ghost predicate IsReplay(w: World, calls: seq<Args>, at: seq<Moment>, states: seq<Data>)
    ensures IsReplay(w, calls, at, states) ==> |states| == |calls| + 1
  {
    && |states| == |calls| + 1 == |at| + 1 && states[0] == map[]
    && forall i :: 0 <= i < |calls| ==> ReplayOk(w, calls[i], at[i], states[i], states[i + 1])
  }

  /** An event that logs nothing keeps the values. */
  lemma UnloggedKeeps(w: World, d: Data, e: Event, d': Data)
    requires EventOk(w, d, e, d') && NoExpiry(d) && !IsLogged(e)
    ensures Alike(d', d)
  {
    hide Exec, Sketchy, Crashes, SetsTtl, IsWrite, Swept;
    assert Alike(d, d);
    if e.handled {
      if e.cmd.name == "_EXPIRY" {
        SweepKeeps(d, d', e.at.now);
      } else if IsWrite(e.cmd.name) {
        FailedWriteKeeps(e.cmd, d, e.at, w);
      } else {
        ReadCommandKeeps(e.cmd, d, e.at, w);
      }
    }
  }

  lemma WriteNotSweep(name: string)
    requires IsWrite(name)
    ensures name != "_EXPIRY"
  {}

  /** Replaying a logged command on a store alike repeats what the run did. */
  lemma LoggedReplays(w: World, d: Data, e: Event, d': Data, at: Moment, r: Data, r': Data)
    requires EventOk(w, d, e, d') && IsLogged(e) && Alike(d, r)
    requires ReplayOk(w, [e.cmd.name] + e.cmd.args, at, r, r')
    ensures Alike(d', r')
  {
    hide Exec, Sketchy, Crashes, SetsTtl, IsWrite, IsKnown, Alike, ToUpper;
    WriteNamesUpper(e.cmd.name);
    WriteNotSweep(e.cmd.name);
    assert ([e.cmd.name] + e.cmd.args)[1..] == e.cmd.args;
    WriteAlike(e.cmd, d, r, e.at, at, w);
  }

  /** A logged command never crashes on a store alike the one it ran on. */
  lemma LoggedDoesNotCrash(w: World, d: Data, e: Event, d': Data, r: Data)
    requires EventOk(w, d, e, d') && IsLogged(e) && Alike(d, r)
    ensures !Crashes(e.cmd, r)
  {
    hide Runs, Sketchy, SetsTtl, IsWrite, Alike;
    if |e.cmd.args| == 2 {
      AlikeAt(d, r, e.cmd.args[0]);
    }
  }

  lemma EmptyAlike()
    ensures Alike(map[], map[])
  {}

  lemma RunPrefix(w: World, events: seq<Event>, states: seq<Data>, i: nat)
    requires IsRun(w, events, states) && i <= |events|
    ensures IsRun(w, events[..i], states[..i + 1])
  {
    hide EventOk;
  }

  lemma ReplayPrefix(w: World, calls: seq<Args>, at: seq<Moment>, states: seq<Data>, i: nat)
    requires IsReplay(w, calls, at, states) && i <= |calls|
    ensures IsReplay(w, calls[..i], at[..i], states[..i + 1])
  {
    hide ReplayOk;
  }

  /** Replaying the whole log of a run rebuilds the values the run ended with. */
  lemma {:induction false} ReplayRebuilds(w: World, events: seq<Event>, states: seq<Data>, at: seq<Moment>, rs: seq<Data>)
    requires IsRun(w, events, states) && IsReplay(w, LogOf(events), at, rs)
    ensures Alike(states[|events|], rs[|LogOf(events)|])
    decreases |events|
  {
    hide EventOk, ReplayOk, Alike, IsLogged;
    if events == [] {
      EmptyAlike();
    } else {
      var n := |events| - 1;
      var e, log := events[n], LogOf(events[..n]);
      RunPrefix(w, events, states, n);
      if IsLogged(e) {
        var m := |log|;
        assert LogOf(events)[..m] == log;
        ReplayPrefix(w, LogOf(events), at, rs, m);
        ReplayRebuilds(w, events[..n], states[..n + 1], at[..m], rs[..m + 1]);
        assert LogOf(events)[m] == [e.cmd.name] + e.cmd.args;
        LoggedReplays(w, states[n], e, states[n + 1], at[m], rs[m], rs[m + 1]);
      } else {
        ReplayRebuilds(w, events[..n], states[..n + 1], at, rs);
        AlikeParts(states[n], rs[|log|]);
        UnloggedKeeps(w, states[n], e, states[n + 1]);
        AlikeJoin(states[n + 1], states[n], rs[|log|]);
      }
    }
  }

  /** Every prefix of the log is the log of a prefix of the run. */
  lemma {:induction false} LogPrefix(events: seq<Event>, j: nat) returns (i: nat)
    requires j <= |LogOf(events)|
    ensures i <= |events| && LogOf(events[..i]) == LogOf(events)[..j]
    ensures j < |LogOf(events)| ==> i < |events| && IsLogged(events[i])
                                    && LogOf(events)[j] == [events[i].cmd.name] + events[i].cmd.args
    ensures j == |LogOf(events)| ==> i == |events|
    decreases |events|
  {
    hide IsLogged;
    if j == |LogOf(events)| {
      assert events[..|events|] == events && LogOf(events)[..j] == LogOf(events);
      return |events|;
    }
    var n := |events| - 1;
    var init := LogOf(events[..n]);
    if j == |init| {
      assert LogOf(events)[..j] == init;
      return n;
    }
    i := LogPrefix(events[..n], j);
    assert events[..n][..i] == events[..i];
    assert LogOf(events)[..j] == init[..j];
    assert events[..n][i] == events[i];
  }

  /**
   Cutting the file of a run at any byte and recovering: the recovered commands are the log of some
   prefix of the run, and replaying them rebuilds the values reached after that prefix. The uncut
   file gives the whole run.
   */
  lemma CrashRecovery(w: World, events: seq<Event>, states: seq<Data>, k: nat) returns (i: nat)
    requires IsRun(w, events, states)
    requires forall j :: 0 <= j < |LogOf(events)| ==> Storable(LogOf(events)[j])
    requires k <= |Log(LogOf(events))|
    ensures i <= |events|
    ensures RecoverSpec(Log(LogOf(events))[..k]) == Aof.Recovery(LogOf(events[..i]), true)
    ensures forall at, rs :: IsReplay(w, LogOf(events[..i]), at, rs) ==> Strip(rs[|LogOf(events[..i])|]) == Strip(states[i])
    ensures k == |Log(LogOf(events))| ==> i == |events|
  {
    hide IsRun, IsReplay, LogOf, Storable, RecoverSpec, Log, Strip, Whole;
    var log := LogOf(events);
    CutRecovers(log, k);
    WholeIsMost(log, k);
    i := LogPrefix(events, Whole(log, k));
    RunPrefix(w, events, states, i);
    forall at, rs | IsReplay(w, LogOf(events[..i]), at, rs)
      ensures Strip(rs[|LogOf(events[..i])|]) == Strip(states[i])
    {
      ReplayRebuilds(w, events[..i], states[..i + 1], at, rs);
    }
  }

  /** Replay never meets the one run-time failure a handler has. */
  lemma ReplayNeverCrashes(w: World, events: seq<Event>, states: seq<Data>, j: nat, at: seq<Moment>, rs: seq<Data>)
    requires IsRun(w, events, states) && j < |LogOf(events)| && IsReplay(w, LogOf(events)[..j], at, rs)
    ensures var args := LogOf(events)[j];
            args != [] && !Crashes(Command(ToUpper(args[0]), args[1..]), rs[j])
  {
    hide EventOk, ReplayOk, Alike, LogOf, Crashes, IsWrite, ToUpper;
    var i := LogPrefix(events, j);
    RunPrefix(w, events, states, i);
    ReplayRebuilds(w, events[..i], states[..i + 1], at, rs);
    var e := events[i];
    LoggedDoesNotCrash(w, states[i], e, states[i + 1], rs[j]);
    WriteNamesUpper(e.cmd.name);
    assert ([e.cmd.name] + e.cmd.args)[1..] == e.cmd.args;
  }
}
