/**
 From the bytes of a connection to the commands it serves: each decoded value is parsed into a command,
 until something does not decode.
 */
module Frames {
  import opened Numeral
  import opened Resp
  import opened RespReader
  import opened Aof
  import opened Torn
  import opened Layout
  import opened Commands
  import opened Transaction
  import opened Connection

  ghost predicate AllText(items: seq<Value>) {
    forall i :: 0 <= i < |items| ==> items[i].Str?
  }

  /** A command is a non-empty array of strings; its name is upper-cased. */
  ghost function FrameOf(v: Value): Frame {
    if !v.Arr? then Malformed("expected array")
    else if v.items == [] then Malformed("empty command")
    else if !AllText(v.items) then Malformed("expected bulk string")
    else Parsed(Command(ToUpper(v.items[0].s), ArgsOf(v.items)[1..]))
  }

  method ParseCommand(v: Value) returns (f: Frame)
    ensures f == FrameOf(v)
  {
    hide ToUpper;
    if !v.Arr? {
      return Malformed("expected array");
    }
    if |v.items| == 0 {
      return Malformed("empty command");
    }
    var parts := [];
    for i := 0 to |v.items|
      invariant |parts| == i
      invariant forall j :: 0 <= j < i ==> v.items[j].Str? && parts[j] == v.items[j].s
    {
      if !v.items[i].Str? {
        return Malformed("expected bulk string");
      }
      parts := parts + [v.items[i].s];
    }
    assert parts == ArgsOf(v.items);
    return Parsed(Command(ToUpper(parts[0]), parts[1..]));
  }

  /** What a connection's bytes hold: frames, and whether reading on ends the process. */
  datatype Stream = Stream(frames: seq<Frame>, dies: bool)

  /** The frames at the front of some bytes, up to the first that does not decode. */
  ghost function FramesOf(input: string): Stream
    decreases |input|
  {
    match Decode(input)
    case Ok(v, rest) =>
      var after := FramesOf(rest);
      Stream([FrameOf(v)] + after.frames, after.dies)
    case Fail => Stream([], false)
    case Panic => Stream([], true)
  }

  /** Decoding a whole stream through one reader, with its scratch buffer reused or not, gives its frames. */
  method ReadFrames(input: string, reuse: bool) returns (s: Stream)
    ensures s == FramesOf(input)
  {
    hide Decode, FrameOf;
    var reader := new Reader(input);
    var decoder := new Decoder(reader, reuse);
    var frames := [];
    while true
      invariant fresh(reader) && fresh(decoder) && fresh(decoder.scratch) && decoder.r == reader
      invariant Stream(frames + FramesOf(reader.rest).frames, FramesOf(reader.rest).dies) == FramesOf(input)
      decreases |reader.rest|
    {
      ghost var before := FramesOf(reader.rest);
      var value := decoder.Decode();
      if !value.Done? {
        assert before.frames == [] && frames + [] == frames;
        return Stream(frames, value.Panicked?);
      }
      var f := ParseCommand(value.value);
      ghost var after := FramesOf(reader.rest).frames;
      assert frames + ([f] + after) == frames + [f] + after;
      frames := frames + [f];
    }
  }

  /**
   A connection served from its bytes emits what serving their frames one at a time emits, exactly if
   reading does not end the process while a pipeline is open; what is missing otherwise is that pipeline.
   */
  method ServeBytes(input: string, reuse: bool, buffered: nat -> bool, layout: Option<Layout>)
    returns (out: seq<Emit>, ghost lost: seq<Command>)
    requires LayoutOk(layout)
    ensures var s := FramesOf(input);
            && lost == (if s.dies then Pending(s.frames, IDLE, layout, buffered, 0, []) else [])
            && Unpack(out) + Singles(lost) == OneByOne(s.frames, IDLE, layout)
            && (Unpack(out) == OneByOne(s.frames, IDLE, layout) <==> !s.dies || lost == [])
    ensures NonEmptyPipes(out)
  {
    hide FramesOf, Pending, OneByOne, Unpack, LayoutOk;
    var s := ReadFrames(input, reuse);
    out, lost := Serve(s.frames, s.dies, buffered, layout);
    assert |Unpack(out) + Singles(lost)| == |Unpack(out)| + |lost|;
    if lost == [] {
      assert Unpack(out) + Singles(lost) == Unpack(out);
    }
  }

  /** One command followed by an array with a negative count. */
  function DyingInput(): string {
    CommandBytes(["PING"]) + ("*-1" + CRLF)
  }

  lemma DyingFrames()
    ensures FramesOf(DyingInput()) == Stream([Parsed(Command("PING", []))], true)
  {
    hide Decode, FrameOf, CommandBytes, ToUpper;
    NegativeCount("");
    assert "*-1" + CRLF + "" == "*-1" + CRLF;
    DeadEnd("*-1" + CRLF);
    FrameNext(["PING"], "*-1" + CRLF);
    SentParsed(["PING"]);
    assert ToUpper("PING") == "PING" by { PingUpper(); }
    assert ["PING"][1..] == [];
  }

  lemma PingUpper()
    ensures ToUpper("PING") == "PING"
  {}

  lemma DeadEnd(input: string)
    requires Decode(input) == Panic
    ensures FramesOf(input) == Stream([], true)
  {}

  /**
   With all of it buffered the command is never sent, because the process dies looking ahead; read one frame
   at a time it is.
   */
  method DyingLosesPing(reuse: bool) returns (ahead: seq<Emit>, oneByOne: seq<Emit>)
    ensures Unpack(ahead) == [] && Unpack(oneByOne) == [Single(Command("PING", []))]
  {
    hide FramesOf, Unpack, DyingInput;
    DyingFrames();
    var ping := Command("PING", []);
    ghost var lost;
    ahead, lost := ServeBytes(DyingInput(), reuse, n => true, None);
    PingAlone(n => true);
    oneByOne, lost := ServeBytes(DyingInput(), reuse, n => false, None);
    PingAlone(n => false);
    assert Singles([ping]) == [Single(ping)] && Singles([]) == [];
    assert |Unpack(ahead)| == 0;
  }

  lemma PingAlone(buffered: nat -> bool)
    ensures LayoutOk(None)
    ensures OneByOne([Parsed(Command("PING", []))], IDLE, None) == [Single(Command("PING", []))]
    ensures Pending([Parsed(Command("PING", []))], IDLE, None, buffered, 0, [])
         == if buffered(0) then [Command("PING", [])] else []
  {
    var ping := Command("PING", []);
    assert [Parsed(ping)][1..] == [];
    assert Step(IDLE, ping, None) == (IDLE, Passthrough);
    assert [] + [ping] == [ping];
  }

  // What a client sends

  ghost function Sent(cmds: seq<Args>): seq<Frame> {
    if cmds == [] then [] else [FrameOf(Arr(Texts(cmds[0])))] + Sent(cmds[1..])
  }

  ghost function Texts(args: Args): seq<Value> {
    seq(|args|, i requires 0 <= i < |args| => Str(args[i]))
  }

  /** A command that is sent is the command that is served. */
  lemma SentParsed(args: Args)
    requires args != []
    ensures FrameOf(Arr(Texts(args))) == Parsed(Command(ToUpper(args[0]), args[1..]))
  {
    hide ToUpper;
    assert ArgsOf(Texts(args)) == args;
  }

  lemma FrameNext(args: Args, rest: string)
    requires Storable(args)
    ensures var after := FramesOf(rest);
            FramesOf(CommandBytes(args) + rest) == Stream([FrameOf(Arr(Texts(args)))] + after.frames, after.dies)
  {
    hide Decode, FrameOf, EraseItems;
    StorableItems(args);
    EraseBulks(args);
    RoundTrip(AsReply(args), rest);
  }

  /** A client that breaks off inside a command has all the commands before it served, and no other. */
  lemma {:induction false} FramesSent(cmds: seq<Args>, c: Args, m: nat)
    requires AllStorable(cmds) && Storable(c) && m < |CommandBytes(c)|
    ensures FramesOf(Log(cmds) + CommandBytes(c)[..m]) == Stream(Sent(cmds), false)
  {
    hide Decode, FrameOf, Storable, CommandBytes, Log;
    var torn := CommandBytes(c)[..m];
    if cmds == [] {
      NoLog();
      CutCommand(c, m);
      assert Log(cmds) + torn == torn;
    } else {
      LogFirst(cmds);
      assert Log(cmds) + torn == CommandBytes(cmds[0]) + (Log(cmds[1..]) + torn);
      FrameNext(cmds[0], Log(cmds[1..]) + torn);
      FramesSent(cmds[1..], c, m);
    }
  }
}
