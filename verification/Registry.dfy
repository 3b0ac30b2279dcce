/**
 Running commands on the store: the registry's checks before a handler, the handlers themselves,
 and the append-only file after them.
 */
module Registry {
  import opened Numeral
  import opened Clock
  import opened Commands
  import opened Layout
  import opened Route
  import opened Resp
  import opened Aof
  import opened EvictionPool
  import opened Hll
  import opened HllEstimate
  import M = StoreModel
  import opened StoreModel
  import S = Store
  import opened Handlers

  // Handlers on the store object

  ghost predicate Ready(store: S.Store, w: World)
    reads store`data, store`usedMemory, store`keysStat, store`Repr, store.Repr
  {
    store.Valid() && store.o == w.o
  }

  /** The sketches of a valid store have the shape the value model asks for. */
  lemma StoreSketchy(store: S.Store)
    requires store.Valid()
    ensures Sketchy(store.Value())
  {
    forall k | k in store.Value() && store.Value()[k].val.HllV?
      ensures IsRegs(store.Value()[k].val.regs)
    {
      store.ValueAt(k);
    }
  }

  method RunSet(store: S.Store, args: seq<string>, c: Moment) returns (reply: Reply)
    requires store.Valid()
    modifies store`data, store`usedMemory, store`keysStat, store`Repr
    ensures store.Valid() && fresh(store.Repr - old(store.Repr))
    ensures Effect(reply, store.Value()) == HandleSet(args, old(store.Value()), c)
  {
    hide S.Store.Valid, S.Store.Value, M.Set, Parse, ToUpper, Wrap64;
    if |args| != 2 && |args| != 4 {
      return ERR;
    }
    var ttl := SetTtl(args);
    if ttl.BadTtl? {
      return ERR;
    }
    store.Set(args[0], args[1], ttl.ns, c);
    return SimpleString("OK");
  }

  method RunExpire(store: S.Store, args: seq<string>, c: Moment) returns (reply: Reply)
    requires store.Valid() && ValidMoment(c)
    modifies store`data, store`usedMemory, store`keysStat, store`Repr
    ensures store.Valid() && fresh(store.Repr - old(store.Repr))
    ensures Effect(reply, store.Value()) == HandleExpire(args, old(store.Value()), c)
  {
    hide S.Store.Valid, S.Store.Value, M.Set, Parse, Wrap64, Touch, GetResult;
    if |args| != 2 {
      return ERR;
    }
    var n := Parse(args[1]);
    if n.None? {
      return ERR;
    }
    var value := store.Get(args[0], c);
    if value.None? {
      return ERR;
    }
    store.Set(args[0], value.value, Wrap64(n.value * SECOND), c);
    return Integer(1);
  }

  method RunIncr(store: S.Store, args: seq<string>, find: Moment, until: nat, c: Moment) returns (reply: Reply)
    requires store.Valid() && ValidMoment(find)
    modifies store`data, store`usedMemory, store`keysStat, store`Repr
    ensures store.Valid() && fresh(store.Repr - old(store.Repr))
    ensures Effect(reply, store.Value()) == HandleIncrAt(args, old(store.Value()), find, until, c)
  {
    hide S.Store.Valid, S.Store.Value, M.Set, Format, Wrap64, Touch, GetIntResult;
    if |args| != 1 {
      return ERR;
    }
    var read := store.GetInt(args[0], find);
    if read.NotInteger? {
      return ERR;
    }
    var n, ttl := 1, 0;
    if read.Number? {
      n := Wrap64(read.n + 1);
      if read.exp.Some? {
        ttl := read.exp.value - until;
      }
    }
    store.Set(args[0], Format(n), ttl, c);
    return Integer(n);
  }

  method RunAppend(store: S.Store, args: seq<string>, c: Moment) returns (reply: Reply)
    requires store.Valid() && ValidMoment(c) && (|args| == 2 ==> CanAppend(store.Value(), args[0]))
    modifies store`data, store`usedMemory, store`keysStat, store`Repr, store.Repr
    ensures store.Valid() && fresh(store.Repr - old(store.Repr))
    ensures Effect(reply, store.Value()) == HandleAppend(args, old(store.Value()), c)
  {
    hide S.Store.Valid, S.Store.Value, M.Append, AppendLength, CanAppend;
    if |args| != 2 {
      return ERR;
    }
    var length := store.Append(args[0], args[1], c);
    return Integer(length);
  }

  method RunPFAdd(store: S.Store, args: seq<string>, c: Moment) returns (reply: Reply)
    requires store.Valid() && ValidMoment(c)
    modifies store`data, store`usedMemory, store`keysStat, store`Repr, store.Repr
    ensures store.Valid() && fresh(store.Repr - old(store.Repr))
    ensures Effect(reply, store.Value()) == HandlePFAdd(args, old(store.Value()), c, store.o.hash)
  {
    hide S.Store.Valid, S.Store.Value, PFAddChanged;
    if args == [] {
      return ERR;
    }
    var changed := store.PFAdd(args[0], args[1..], c);
    if changed.None? {
      return Error("WRONGTYPE");
    }
    return Integer(if changed.value then 1 else 0);
  }

  method RunPFMerge(store: S.Store, args: seq<string>, c: Moment) returns (reply: Reply)
    requires store.Valid()
    modifies store`data, store`usedMemory, store`keysStat, store`Repr
    ensures store.Valid() && fresh(store.Repr - old(store.Repr))
    ensures ValidData(old(store.Value()))
    ensures Effect(reply, store.Value()) == HandlePFMerge(args, old(store.Value()), c)
  {
    hide S.Store.Valid, S.Store.Value, M.PFMerge, ValidData;
    store.SketchesValid();
    if args == [] {
      return ERR;
    }
    store.PFMerge(args[0], args[1..], c);
    return SimpleString("OK");
  }

  method RunDel(store: S.Store, args: seq<string>, now: nat) returns (reply: Reply)
    requires store.Valid()
    modifies store`data, store`usedMemory, store`keysStat, store`Repr
    ensures store.Valid() && fresh(store.Repr - old(store.Repr))
    ensures Effect(reply, store.Value()) == HandleDel(args, old(store.Value()), now)
  {
    hide S.Store.Valid, S.Store.Value, M.Delete, DeleteCount;
    if args == [] {
      return ERR;
    }
    var removed := store.Delete(args, now);
    return Integer(removed);
  }

  method RunObject(store: S.Store, args: seq<string>, c: Moment) returns (reply: Reply)
    requires store.Valid()
    modifies store`data, store`usedMemory, store`keysStat, store`Repr
    ensures store.Valid() && fresh(store.Repr - old(store.Repr))
    ensures reply == ObjectReply(args, old(store.Value()), c) && store.Value() == ObjectData(args, old(store.Value()), c)
  {
    hide S.Store.Valid, S.Store.Value, ToUpper, Drop, AfterFreq, EncodingResult, FreqResult;
    if |args| < 2 {
      return ERR;
    }
    if ToUpper(args[0]) == "ENCODING" {
      var enc := store.GetEncoding(args[1], c.now);
      match enc
      case Some(EncInt) => return BulkString("int");
      case Some(EncEmbstr) => return BulkString("embstr");
      case Some(EncRaw) => return BulkString("str");
      case _ => return ERR;
    } else if ToUpper(args[0]) == "FREQ" {
      var freq := store.GetFreq(args[1], c);
      return if freq.Freq? then Integer(freq.n) else ERR;
    }
    return ERR;
  }

  method RunRead(store: S.Store, cmd: Command, c: Moment, w: World) returns (reply: Reply)
    requires Ready(store, w) && ValidMoment(c) && !IsWrite(cmd.name) && cmd.name != "_EXPIRY"
    modifies store`data, store`usedMemory, store`keysStat, store`Repr, store.Repr
    ensures store.Valid() && fresh(store.Repr - old(store.Repr))
    ensures Sketchy(old(store.Value())) && !Crashes(cmd, old(store.Value()))
    ensures Effect(reply, store.Value()) == Exec(cmd, old(store.Value()), c, w)
  {
    hide S.Store.Valid, S.Store.Value, GetResult, Touch, TTLResult, Drop, EstimateOf, Sketchy, ObjectReply, ObjectData;
    StoreSketchy(store);
    var args := cmd.args;
    if cmd.name == "GET" {
      if |args| != 1 {
        return ERR;
      }
      var r := store.Get(args[0], c);
      return if r.Some? then BulkString(r.value) else NullBulkString;
    } else if cmd.name == "TTL" {
      if |args| != 1 {
        return ERR;
      }
      var seconds := store.TTL(args[0], c.now);
      return Integer(seconds);
    } else if cmd.name == "PFCOUNT" {
      if |args| != 1 {
        return ERR;
      }
      var n := store.PFCount(args[0]);
      return Integer(n);
    } else if cmd.name == "OBJECT" {
      reply := RunObject(store, args, c);
      return;
    }
    return w.report(cmd);
  }

  method RunWrite(store: S.Store, cmd: Command, c: Moment, w: World) returns (reply: Reply)
    requires Ready(store, w) && ValidMoment(c) && IsWrite(cmd.name) && !Crashes(cmd, store.Value())
    modifies store`data, store`usedMemory, store`keysStat, store`Repr, store.Repr
    ensures store.Valid() && fresh(store.Repr - old(store.Repr))
    ensures Sketchy(old(store.Value()))
    ensures Effect(reply, store.Value()) == Exec(cmd, old(store.Value()), c, w)
  {
    hide S.Store.Valid, S.Store.Value, Sketchy, HandleSet, HandleExpire, HandleIncrAt, HandleAppend, HandlePFAdd,
         HandlePFMerge, HandleDel, HandleGet, HandleTTL, HandlePFCount, ObjectData, CanAppend;
    StoreSketchy(store);
    if cmd.name == "SET" {
      reply := RunSet(store, cmd.args, c);
    } else if cmd.name == "EXPIRE" {
      reply := RunExpire(store, cmd.args, c);
    } else if cmd.name == "INCR" {
      reply := RunIncr(store, cmd.args, c, c.now, c);
    } else if cmd.name == "APPEND" {
      reply := RunAppend(store, cmd.args, c);
    } else if cmd.name == "PFADD" {
      reply := RunPFAdd(store, cmd.args, c);
    } else if cmd.name == "PFMERGE" {
      reply := RunPFMerge(store, cmd.args, c);
    } else {
      reply := RunDel(store, cmd.args, c.now);
    }
  }

  /** Runs the handler of a registered command. */
  method RunHandler(store: S.Store, cmd: Command, c: Moment, w: World) returns (reply: Reply)
    requires Ready(store, w) && ValidMoment(c) && !Crashes(cmd, store.Value())
    modifies store`data, store`usedMemory, store`keysStat, store`Repr, store.Repr
    ensures store.Valid() && fresh(store.Repr - old(store.Repr))
    ensures Sketchy(old(store.Value()))
    ensures Runs(cmd, old(store.Value()), c, w, reply, store.Value())
  {
    hide S.Store.Valid, S.Store.Value, Sketchy, Exec, Crashes, Swept;
    StoreSketchy(store);
    if IsWrite(cmd.name) {
      reply := RunWrite(store, cmd, c, w);
    } else if cmd.name == "_EXPIRY" {
      var deleted := store.DeleteExpired(c.now);
      reply := Integer(deleted);
    } else {
      reply := RunRead(store, cmd, c, w);
    }
  }

  // Dispatch

  /** How a dispatched command ended; a panic is the source's run-time failure. */
  datatype How = Unknown | Refused(v: Verdict) | Oom | Panicked | Handled(reply: Reply)

  function ReplyOf(how: How): Reply {
    match how
    case Unknown => Error("ERR unknown command")
    case Refused(v) => Error("redirected")
    case Oom => Error("OOM")
    case Panicked => Error("")
    case Handled(reply) => reply
  }

  /** A transaction is refused as a whole, or runs to its end, or to the first run-time failure. */
  datatype BatchResult = BatchRefused(v: Verdict) | BatchPanicked(hows: seq<How>) | Replies(hows: seq<How>)

  predicate Evicting(policy: string) {
    policy == "allkeys-lru" || policy == "allkeys-lfu" || policy == "volatile-lfu"
  }

  /** The bytes a handled command adds to the file. */
  function Logged(cmd: Command, reply: Reply): string {
    if IsWrite(cmd.name) && !reply.Error? then CommandBytes([cmd.name] + cmd.args) else ""
  }

  /** What dispatching one command did to the data: the handler ran on what evictions left, or nothing did. */
  ghost predicate Did(layout: Option<Layout>, w: World, cmd: Command, c: Moment, how: How, d: Data, found: Data, d': Data)
    requires ValidMoment(c) && (layout.Some? ==> WellFormed(layout.value))
  {
    && Restriction(found, d) && Sketchy(found)
    && (how.Unknown? <==> !IsKnown(cmd.name))
    && (how.Refused? <==> IsKnown(cmd.name) && CheckCommand(layout, cmd) != Serve)
    && (how.Refused? ==> how.v == CheckCommand(layout, cmd))
    && (how.Unknown? || how.Refused? || how.Oom? ==> found == d)
    && (how.Handled? ==> !Crashes(cmd, found) && Runs(cmd, found, c, w, how.reply, d'))
    && (how.Panicked? ==> Crashes(cmd, found))
    && (!how.Handled? ==> d' == found)
  }

  /** The bytes commands add to the file, given how they ended. */
  function LoggedAll(cmds: seq<Command>, hows: seq<How>): string
    requires |hows| <= |cmds|
  {
    if hows == [] then ""
    else
      var n := |hows| - 1;
      LoggedAll(cmds, hows[..n]) + if hows[n].Handled? then Logged(cmds[n], hows[n].reply) else ""
  }

  /** Commands dispatched one after the other, each on what the one before it left. */
  ghost predicate DidAll(layout: Option<Layout>, w: World, cmds: seq<Command>, cs: seq<Moment>, hows: seq<How>,
                         trace: seq<Data>, founds: seq<Data>)
    requires |hows| <= |cmds| == |cs| && (layout.Some? ==> WellFormed(layout.value))
    requires forall i :: 0 <= i < |cs| ==> ValidMoment(cs[i])
    ensures DidAll(layout, w, cmds, cs, hows, trace, founds) ==> |trace| == |hows| + 1
  {
    && |trace| == |hows| + 1 && |founds| == |hows|
    && forall i :: 0 <= i < |hows| ==> Did(layout, w, cmds[i], cs[i], hows[i], trace[i], founds[i], trace[i + 1])
  }

  lemma DidNext(layout: Option<Layout>, w: World, cmds: seq<Command>, cs: seq<Moment>, hows: seq<How>,
                trace: seq<Data>, founds: seq<Data>, how: How, found: Data, d': Data)
    requires |hows| < |cmds| == |cs| && (layout.Some? ==> WellFormed(layout.value))
    requires forall i :: 0 <= i < |cs| ==> ValidMoment(cs[i])
    requires DidAll(layout, w, cmds, cs, hows, trace, founds)
    requires Did(layout, w, cmds[|hows|], cs[|hows|], how, trace[|hows|], found, d')
    ensures DidAll(layout, w, cmds, cs, hows + [how], trace + [d'], founds + [found])
    ensures LoggedAll(cmds, hows + [how])
         == LoggedAll(cmds, hows) + if how.Handled? then Logged(cmds[|hows|], how.reply) else ""
  {
    hide Did, Logged, WellFormed, ValidMoment;
    assert (hows + [how])[..|hows|] == hows;
    forall i | 0 <= i < |hows| + 1
      ensures Did(layout, w, cmds[i], cs[i], (hows + [how])[i], (trace + [d'])[i], (founds + [found])[i], (trace + [d'])[i + 1])
    {
      if i < |hows| {
        assert (trace + [d'])[i + 1] == trace[i + 1];
      }
    }
  }

  class Dispatcher {
    const store: S.Store
    const aof: AOF
    const logging: bool
    const layout: Option<Layout>
    const w: World
    const maxMemory: int
    const samples: int

    constructor (w: World, layout: Option<Layout>, maxMemory: int, samples: int, logging: bool, file: string)
      requires IsLn(w.o.ln) && (layout.Some? ==> WellFormed(layout.value))
      ensures Valid() && fresh(store) && fresh(store.Repr) && fresh(aof)
      ensures store.Value() == map[] && aof.file == file
      ensures this.w == w && this.layout == layout && this.maxMemory == maxMemory && this.logging == logging
    {
      store := new S.Store(w.o);
      aof := new AOF(file);
      this.w, this.layout, this.logging := w, layout, logging;
      this.maxMemory, this.samples := maxMemory, samples;
    }

    ghost predicate Valid()
      reads store, store.Repr
      ensures Valid() ==> store.Valid()
    {
      && Ready(store, w) && PoolOk(store.evPool)
      && aof !in store.Repr && aof as object != store
      && (layout.Some? ==> WellFormed(layout.value))
    }

    /** The limit in bytes; the shift wraps at 64 bits. */
    function MaxBytes(): int {
      Wrap64(maxMemory * 0x10_0000)
    }

    /** The memory check: evict if the policy says so, then test the limit. */
    method MakeRoom(cmd: Command, c: Moment) returns (over: bool)
      requires Valid()
      modifies store`data, store`usedMemory, store`keysStat, store`Repr, store`evPool
      ensures Valid() && store.Repr <= old(store.Repr)
      ensures Restriction(store.Value(), old(store.Value()))
      ensures !(DeniedOnOom(cmd.name) && maxMemory > 0 && Evicting(c.policy)) ==> store.Value() == old(store.Value())
      ensures over <==> DeniedOnOom(cmd.name) && maxMemory > 0 && 0 < MaxBytes() < store.usedMemory
      ensures if Evicting(c.policy) then !over else store.usedMemory == old(store.usedMemory)
    {
      hide S.Store.Valid, S.Store.Value, DeniedOnOom, Wrap64, PoolOk, WellFormed;
      if !(DeniedOnOom(cmd.name) && maxMemory > 0) {
        return false;
      }
      if Evicting(c.policy) {
        store.PerformEvictions(samples, MaxBytes(), c);
      }
      over := 0 < MaxBytes() < store.usedMemory;
    }

    /** Runs the handler and logs a write that did not fail. */
    method RunAndLog(cmd: Command, c: Moment) returns (reply: Reply)
      requires Valid() && ValidMoment(c) && !Crashes(cmd, store.Value())
      modifies store`data, store`usedMemory, store`keysStat, store`Repr, store.Repr, aof
      ensures Valid() && fresh(store.Repr - old(store.Repr))
      ensures Sketchy(old(store.Value())) && Runs(cmd, old(store.Value()), c, w, reply, store.Value())
      ensures aof.file == old(aof.file) + if logging then Logged(cmd, reply) else ""
    {
      hide S.Store.Valid, S.Store.Value, WellFormed, PoolOk, Sketchy, Runs, Crashes, IsWrite, CommandBytes, ValidMoment;
      reply := RunHandler(store, cmd, c, w);
      if logging && IsWrite(cmd.name) && !reply.Error? {
        aof.Write([cmd.name] + cmd.args);
      }
    }

    /**
     Runs one command. `found` is the data the handler found, after any evictions.

     A command that is unknown, refused by routing or rejected for memory runs nothing and logs
     nothing; under an evicting policy memory never rejects one.
     */
    method Dispatch(cmd: Command, c: Moment) returns (how: How, ghost found: Data)
      requires Valid() && ValidMoment(c)
      modifies store, store.Repr, aof
      ensures Valid() && fresh(store.Repr - old(store.Repr)) && (layout.Some? ==> WellFormed(layout.value))
      ensures Did(layout, w, cmd, c, how, old(store.Value()), found, store.Value())
      ensures how.Oom? <==> IsKnown(cmd.name) && CheckCommand(layout, cmd) == Serve && DeniedOnOom(cmd.name)
                            && maxMemory > 0 && !Evicting(c.policy) && 0 < MaxBytes() < old(store.usedMemory)
      ensures !(DeniedOnOom(cmd.name) && maxMemory > 0 && Evicting(c.policy)) ==> found == old(store.Value())
      ensures aof.file == old(aof.file) + if logging && how.Handled? then Logged(cmd, how.reply) else ""
    {
      hide S.Store.Valid, S.Store.Value, IsKnown, CheckCommand, WellFormed, Wrap64, PoolOk, Sketchy, Runs, Crashes,
           Restriction, DeniedOnOom, Logged, Did, ValidMoment, Dispatcher.Valid;
      ServableLayout();
      found := store.Value();
      ghost var d := found;
      StoreSketchy(store);
      assert aof.file + "" == aof.file;
      if !IsKnown(cmd.name) {
        DidNothing(layout, w, cmd, c, Unknown, d);
        return Unknown, found;
      }
      var v := CheckOne(cmd, layout);
      if v != Serve {
        DidNothing(layout, w, cmd, c, Refused(v), d);
        return Refused(v), found;
      }
      ghost var used := store.usedMemory;
      var over := MakeRoom(cmd, c);
      found := store.Value();
      StoreSketchy(store);
      if over {
        DidNothing(layout, w, cmd, c, Oom, d);
        return Oom, found;
      }
      if CrashesNow(cmd) {
        DidServe(layout, w, cmd, c, Panicked, d, found, found);
        return Panicked, found;
      }
      var reply := RunAndLog(cmd, c);
      DidServe(layout, w, cmd, c, Handled(reply), d, found, store.Value());
      return Handled(reply), found;
    }

    /** Runs a command read back from the file: no routing check, no memory check, nothing logged. */
    method Replay(cmd: Command, c: Moment) returns (reply: Reply)
      requires Valid() && ValidMoment(c) && !Crashes(cmd, store.Value())
      modifies store, store.Repr
      ensures Valid() && fresh(store.Repr - old(store.Repr)) && aof.file == old(aof.file)
      ensures Sketchy(old(store.Value())) && Runs(cmd, old(store.Value()), c, w, reply, store.Value())
    {
      hide S.Store.Valid, S.Store.Value, WellFormed, PoolOk, Sketchy, Runs, Crashes;
      reply := RunHandler(store, cmd, c, w);
    }

    /**
     Runs a transaction. All its keys together must be served here; if they are not, that one
     refusal is the answer and nothing ran. If they are, routing stops no member.
     */
    method DispatchBatch(cmds: seq<Command>, cs: seq<Moment>)
      returns (r: BatchResult, ghost trace: seq<Data>, ghost founds: seq<Data>)
      requires Valid() && |cs| == |cmds| && forall i :: 0 <= i < |cs| ==> ValidMoment(cs[i])
      modifies store, store.Repr, aof
      ensures Valid() && fresh(store.Repr - old(store.Repr)) && (layout.Some? ==> WellFormed(layout.value))
      ensures r.BatchRefused? <==> Check(layout, BatchKeys(cmds)) != Serve
      ensures r.BatchRefused? ==> r.v == Check(layout, BatchKeys(cmds))
                                  && store.Value() == old(store.Value()) && aof.file == old(aof.file)
      ensures !r.BatchRefused? ==> |r.hows| <= |cmds| && DidAll(layout, w, cmds, cs, r.hows, trace, founds)
      ensures !r.BatchRefused? ==> trace[0] == old(store.Value())
      ensures !r.BatchRefused? ==> forall i :: 0 <= i < |r.hows| ==> !r.hows[i].Refused? && !r.hows[i].Panicked?
      ensures r.Replies? ==> |r.hows| == |cmds| && store.Value() == trace[|cmds|]
      ensures !r.BatchRefused? ==> aof.file == old(aof.file) + if logging then LoggedAll(cmds, r.hows) else ""
    {
      hide Dispatcher.Valid, Check, CheckCommand, BatchKeys, IsKnown, S.Store.Valid, S.Store.Value, Logged, Wrap64, Evicting,
           Did, DidAll, LoggedAll, DeniedOnOom, WellFormed, ValidMoment, Dispatcher.MaxBytes;
      ServableLayout();
      trace, founds := [store.Value()], [];
      var v := CheckBatch(layout, cmds);
      if v != Serve {
        return BatchRefused(v), trace, founds;
      }
      var hows: seq<How> := [];
      DidNone(layout, w, cmds, cs, store.Value());
      assert aof.file + "" == aof.file;
      for i := 0 to |cmds|
        invariant Valid() && fresh(store.Repr - old(store.Repr)) && |hows| == i
        invariant DidAll(layout, w, cmds, cs, hows, trace, founds) && trace[0] == old(store.Value()) && trace[i] == store.Value()
        invariant forall j :: 0 <= j < i ==> !hows[j].Refused? && !hows[j].Panicked?
        invariant aof.file == old(aof.file) + if logging then LoggedAll(cmds, hows) else ""
      {
        BatchServesMembers(layout, cmds, i);
        var how, found := Dispatch(cmds[i], cs[i]);
        NotRefused(layout, w, cmds[i], cs[i], how, trace[i], found, store.Value());
        if how.Panicked? {
          assert aof.file == old(aof.file) + if logging then LoggedAll(cmds, hows) else "";
          return BatchPanicked(hows), trace, founds;
        }
        DidNext(layout, w, cmds, cs, hows, trace, founds, how, found, store.Value());
        FileNext(old(aof.file), LoggedAll(cmds, hows), if how.Handled? then Logged(cmds[i], how.reply) else "");
        hows, trace, founds := hows + [how], trace + [store.Value()], founds + [found];
      }
      return Replies(hows), trace, founds;
    }

    lemma ServableLayout()
      requires Valid()
      ensures layout.Some? ==> WellFormed(layout.value)
    {}

    /**
     The worker's answer to an EXEC. A batch with no commands is sent on as a command without a
     name, so the reply is an array exactly if the batch is not empty and is served here.
     */
    method RunExec(cmds: seq<Command>, cs: seq<Moment>, c: Moment)
      returns (panicked: bool, reply: Reply, ghost hows: seq<How>, ghost trace: seq<Data>, ghost founds: seq<Data>)
      requires Valid() && ValidMoment(c) && |cs| == |cmds| && forall i :: 0 <= i < |cs| ==> ValidMoment(cs[i])
      modifies store, store.Repr, aof
      ensures Valid() && fresh(store.Repr - old(store.Repr)) && (layout.Some? ==> WellFormed(layout.value))
      ensures !panicked ==> (reply.Array? <==> cmds != [] && Check(layout, BatchKeys(cmds)) == Serve)
      ensures !panicked && reply.Array? ==> |hows| == |cmds| && DidAll(layout, w, cmds, cs, hows, trace, founds)
      ensures !panicked && reply.Array? ==> trace[0] == old(store.Value()) && store.Value() == trace[|cmds|]
      ensures !panicked && reply.Array? ==>
                |reply.items| == |cmds| && forall i :: 0 <= i < |cmds| ==> reply.items[i] == ReplyOf(hows[i])
      ensures !panicked && !reply.Array? ==> reply.Error? && store.Value() == old(store.Value()) && aof.file == old(aof.file)
    {
      hide Dispatcher.Valid, Check, CheckCommand, BatchKeys, S.Store.Valid, S.Store.Value, DidAll, LoggedAll, Logged,
           Wrap64, Evicting, WellFormed, DeniedOnOom, Sketchy, Runs, Crashes;
      hows, trace, founds := [], [], [];
      if cmds == [] {
        var how, _ := Dispatch(Command("", []), c);
        assert aof.file == old(aof.file) + "" == old(aof.file);
        return false, ReplyOf(how), hows, trace, founds;
      }
      var r;
      r, trace, founds := DispatchBatch(cmds, cs);
      match r
      case BatchRefused(v) => return false, Error("redirected"), hows, trace, founds;
      case BatchPanicked(_) => return true, Error(""), hows, trace, founds;
      case Replies(all) =>
        return false, Array(seq(|all|, i requires 0 <= i < |all| => ReplyOf(all[i]))), all, trace, founds;
    }

    predicate CrashesNow(cmd: Command)
      requires store.Valid()
      reads store, store.Repr
      ensures CrashesNow(cmd) == Crashes(cmd, store.Value())
    {
      if cmd.name == "APPEND" && |cmd.args| == 2 && cmd.args[0] in store.data then
        store.ValueAt(cmd.args[0]);
        store.data[cmd.args[0]].cell.HllCell?
      else false
    }
  }

  lemma DidNone(layout: Option<Layout>, w: World, cmds: seq<Command>, cs: seq<Moment>, d: Data)
    requires |cmds| == |cs| && (layout.Some? ==> WellFormed(layout.value))
    requires forall i :: 0 <= i < |cs| ==> ValidMoment(cs[i])
    ensures DidAll(layout, w, cmds, cs, [], [d], []) && LoggedAll(cmds, []) == ""
  {}

  lemma DidNothing(layout: Option<Layout>, w: World, cmd: Command, c: Moment, how: How, d: Data)
    requires ValidMoment(c) && (layout.Some? ==> WellFormed(layout.value)) && Sketchy(d)
    requires how.Unknown? || how.Refused? || how.Oom?
    requires how.Unknown? <==> !IsKnown(cmd.name)
    requires how.Refused? <==> IsKnown(cmd.name) && CheckCommand(layout, cmd) != Serve
    requires how.Refused? ==> how.v == CheckCommand(layout, cmd)
    ensures Did(layout, w, cmd, c, how, d, d, d)
  {
    hide WellFormed, ValidMoment, IsKnown, CheckCommand, Runs, Crashes, Sketchy;
  }

  lemma DidServe(layout: Option<Layout>, w: World, cmd: Command, c: Moment, how: How, d: Data, found: Data, d': Data)
    requires ValidMoment(c) && (layout.Some? ==> WellFormed(layout.value)) && Sketchy(found) && Restriction(found, d)
    requires IsKnown(cmd.name) && CheckCommand(layout, cmd) == Serve
    requires (how.Panicked? && Crashes(cmd, found) && d' == found)
             || (how.Handled? && !Crashes(cmd, found) && Runs(cmd, found, c, w, how.reply, d'))
    ensures Did(layout, w, cmd, c, how, d, found, d')
  {
    hide WellFormed, ValidMoment, IsKnown, CheckCommand, Runs, Crashes, Sketchy, Restriction;
  }

  lemma FileNext(file: string, before: string, more: string)
    ensures file + before + more == file + (before + more) && file + "" + "" == file + ""
  {}

  lemma NotRefused(layout: Option<Layout>, w: World, cmd: Command, c: Moment, how: How, d: Data, found: Data, d': Data)
    requires ValidMoment(c) && (layout.Some? ==> WellFormed(layout.value))
    requires Did(layout, w, cmd, c, how, d, found, d') && CheckCommand(layout, cmd) == Serve
    ensures !how.Refused?
  {
    hide WellFormed, ValidMoment, IsKnown, CheckCommand, Runs, Crashes, Sketchy, Restriction;
  }
}
