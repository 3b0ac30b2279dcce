/**
 What each command's handler answers and does to the data, as functions on the value model.

 Replies of commands that only report (PING, INFO, DEBUG, CLUSTER) are a parameter; what
 they do to the data is not.
 */
module Handlers {
  import opened Numeral
  import opened Clock
  import opened Commands
  import opened Resp
  import opened Hll
  import opened HllLattice
  import opened HllEstimate
  import M = StoreModel
  import opened StoreModel

  const MILLISECOND: int := 1_000_000

  /** The hash and logarithm of sketches, and the replies that are not modelled. */
  datatype World = World(o: Oracle, report: Command -> Reply)

  datatype Effect = Effect(reply: Reply, data: Data)

  /** Every sketch has 16384 six-bit registers. */
  ghost predicate Sketchy(d: Data) {
    forall k :: k in d && d[k].val.HllV? ==> IsRegs(d[k].val.regs)
  }

  /** The source fails at run time on APPEND to a sketch. */
  predicate Crashes(cmd: Command, d: Data) {
    cmd.name == "APPEND" && |cmd.args| == 2 && !CanAppend(d, cmd.args[0])
  }

  const ERR: Reply := Error("ERR")

  // Write handlers

  datatype Ttl = BadTtl | Ttl(ns: int)

  /** The expiry a SET asks for; the arithmetic wraps at 64 bits. */
  function SetTtl(args: seq<string>): Ttl
    requires |args| == 2 || |args| == 4
  {
    if |args| == 2 then Ttl(0)
    else
      match Parse(args[3])
      case None => BadTtl
      case Some(n) =>
        if n <= 0 then BadTtl
        else if ToUpper(args[2]) == "EX" then Ttl(Wrap64(n * SECOND))
        else if ToUpper(args[2]) == "PX" then Ttl(Wrap64(n * MILLISECOND))
        else BadTtl
  }

  function HandleSet(args: seq<string>, d: Data, c: Moment): Effect {
    if |args| != 2 && |args| != 4 then Effect(ERR, d)
    else
      match SetTtl(args)
      case BadTtl => Effect(ERR, d)
      case Ttl(ns) => Effect(SimpleString("OK"), M.Set(d, args[0], args[1], ns, c))
  }

  /** EXPIRE reads the value and stores it again with an expiry; without a positive one it has none. */
  function HandleExpire(args: seq<string>, d: Data, c: Moment): Effect
    requires c.roll >= 0.0 && c.decayTime >= 1
  {
    if |args| != 2 || Parse(args[1]).None? then Effect(ERR, d)
    else
      var value, read := GetResult(d, args[0], c.now), Touch(d, args[0], c);
      if value.None? then Effect(ERR, read)
      else Effect(Integer(1), M.Set(read, args[0], value.value, Wrap64(Parse(args[1]).value * SECOND), c))
  }

  /**
   INCR keeps the time left to live; the number wraps at 64 bits. The clock is read to find the key, to
   compute the time left and to store the number.
   */
  function HandleIncrAt(args: seq<string>, d: Data, find: Moment, until: nat, store: Moment): Effect
    requires find.roll >= 0.0 && find.decayTime >= 1
  {
    if |args| != 1 then Effect(ERR, d)
    else
      var read := Touch(d, args[0], find);
      match GetIntResult(d, args[0], find.now)
      case NotInteger => Effect(ERR, read)
      case Missing => Effect(Integer(1), M.Set(read, args[0], Format(1), 0, store))
      case Number(n, exp) =>
        var ttl := if exp.Some? then exp.value - until else 0;
        Effect(Integer(Wrap64(n + 1)), M.Set(read, args[0], Format(Wrap64(n + 1)), ttl, store))
  }

  /** INCR with the three readings equal. */
  function HandleIncr(args: seq<string>, d: Data, c: Moment): Effect
    requires c.roll >= 0.0 && c.decayTime >= 1
  {
    HandleIncrAt(args, d, c, c.now, c)
  }

  function HandleAppend(args: seq<string>, d: Data, c: Moment): Effect
    requires c.roll >= 0.0 && c.decayTime >= 1 && (|args| == 2 ==> CanAppend(d, args[0]))
  {
    if |args| != 2 then Effect(ERR, d)
    else Effect(Integer(AppendLength(d, args[0], args[1])), M.Append(d, args[0], args[1], c))
  }

  function HandlePFAdd(args: seq<string>, d: Data, c: Moment, hash: Hash): Effect
    requires c.roll >= 0.0 && c.decayTime >= 1
  {
    if args == [] then Effect(ERR, d)
    else if WrongType(d, args[0], c.now) then Effect(Error("WRONGTYPE"), d)
    else
      Effect(Integer(if PFAddChanged(d, args[0], args[1..], c, hash) then 1 else 0),
             M.PFAdd(d, args[0], args[1..], c, hash))
  }

  function HandlePFMerge(args: seq<string>, d: Data, c: Moment): Effect
    requires ValidData(d)
  {
    if args == [] then Effect(ERR, d)
    else Effect(SimpleString("OK"), M.PFMerge(d, args[0], args[1..], c))
  }

  function HandleDel(args: seq<string>, d: Data, now: nat): Effect {
    if args == [] then Effect(ERR, d)
    else Effect(Integer(DeleteCount(d, args, now)), M.Delete(d, args))
  }

  // Read handlers

  function HandleGet(args: seq<string>, d: Data, c: Moment): Effect
    requires c.roll >= 0.0 && c.decayTime >= 1
  {
    if |args| != 1 then Effect(ERR, d)
    else
      var r := GetResult(d, args[0], c.now);
      Effect(if r.Some? then BulkString(r.value) else NullBulkString, Touch(d, args[0], c))
  }

  function HandleTTL(args: seq<string>, d: Data, now: nat): Effect {
    if |args| != 1 then Effect(ERR, d)
    else Effect(Integer(TTLResult(d, args[0], now)), Drop(d, args[0], now))
  }

  ghost function HandlePFCount(args: seq<string>, d: Data, ln: Ln): Effect
    requires Sketchy(d)
  {
    if |args| != 1 then Effect(ERR, d)
    else if args[0] in d && d[args[0]].val.HllV? then Effect(Integer(EstimateOf(d[args[0]].val.regs, ln)), d)
    else Effect(Integer(0), d)
  }

  /** What OBJECT answers about a live key. */
  function ObjectReply(args: seq<string>, d: Data, c: Moment): Reply {
    if |args| < 2 then ERR
    else if ToUpper(args[0]) == "ENCODING" then
      match EncodingResult(d, args[1], c.now)
      case Some(EncInt) => BulkString("int")
      case Some(EncEmbstr) => BulkString("embstr")
      case Some(EncRaw) => BulkString("str")
      case _ => ERR
    else if ToUpper(args[0]) == "FREQ" then
      match FreqResult(d, args[1], c)
      case Freq(n) => Integer(n)
      case _ => ERR
    else ERR
  }

  /** What OBJECT does to the data: it drops an expired key it is asked about. */
  function ObjectData(args: seq<string>, d: Data, c: Moment): Data {
    if |args| < 2 then d
    else if ToUpper(args[0]) == "ENCODING" then Drop(d, args[1], c.now)
    else if ToUpper(args[0]) == "FREQ" then AfterFreq(d, args[1], c)
    else d
  }

  // All commands but the expiry sweep

  lemma SketchyValid(d: Data)
    requires Sketchy(d)
    ensures ValidData(d)
  {}

  ghost function Exec(cmd: Command, d: Data, c: Moment, w: World): Effect
    requires ValidMoment(c) && Sketchy(d) && !Crashes(cmd, d)
  {
    SketchyValid(d);
    if cmd.name == "SET" then HandleSet(cmd.args, d, c)
    else if cmd.name == "EXPIRE" then HandleExpire(cmd.args, d, c)
    else if cmd.name == "INCR" then HandleIncr(cmd.args, d, c)
    else if cmd.name == "APPEND" then HandleAppend(cmd.args, d, c)
    else if cmd.name == "PFADD" then HandlePFAdd(cmd.args, d, c, w.o.hash)
    else if cmd.name == "PFMERGE" then HandlePFMerge(cmd.args, d, c)
    else if cmd.name == "DEL" then HandleDel(cmd.args, d, c.now)
    else if cmd.name == "GET" then HandleGet(cmd.args, d, c)
    else if cmd.name == "TTL" then HandleTTL(cmd.args, d, c.now)
    else if cmd.name == "PFCOUNT" then HandlePFCount(cmd.args, d, w.o.ln)
    else if cmd.name == "OBJECT" then Effect(ObjectReply(cmd.args, d, c), ObjectData(cmd.args, d, c))
    else Effect(w.report(cmd), d)
  }

  /** A handler run, including the sweep, which may remove any expired keys. */
  ghost predicate Runs(cmd: Command, d: Data, c: Moment, w: World, reply: Reply, d': Data)
    requires ValidMoment(c) && Sketchy(d) && !Crashes(cmd, d)
  {
    if cmd.name == "_EXPIRY" then Swept(d, d', c.now) && reply == Integer(|d| - |d'|)
    else Effect(reply, d') == Exec(cmd, d, c, w)
  }

  /** Running a handler adds only keys the routing check has seen. */
  lemma KeysAdded(cmd: Command, d: Data, c: Moment, w: World, reply: Reply, d': Data)
    requires ValidMoment(c) && Sketchy(d) && !Crashes(cmd, d) && Runs(cmd, d, c, w, reply, d')
    ensures forall k :: k in d' && k !in d ==> k in Keys(cmd)
  {
    hide StampAccess, StampNew, Parse, Format, AddAll, JoinAll, EstimateOf, DeleteCount, PFAddChanged, Detect, Sketchy,
         ValidData, Wrap64, GetResult, TTLResult, ToUpper;
  }
}
