/**
 The append-only file: commands are appended as RESP arrays of bulk strings, and recovery decodes
 the file from the start until something does not decode.
 */
module Aof {
  import opened Numeral
  import opened Resp
  import opened RespReader

  type Args = seq<string>

  /** A command as the encoder prints it. */
  function AsReply(args: Args): Reply {
    Array(seq(|args|, i requires 0 <= i < |args| => BulkString(args[i])))
  }

  function CommandBytes(args: Args): string {
    Encode(AsReply(args))
  }

  /** Lengths the source can hold. */
  ghost predicate Storable(args: Args) {
    |args| <= INT64_MAX && forall i :: 0 <= i < |args| ==> |args[i]| + 2 <= INT64_MAX
  }

  lemma {:induction false} StorableItems(args: Args)
    requires Storable(args)
    ensures EncodableItems(AsReply(args).items)
  {
    if args != [] {
      assert AsReply(args).items[1..] == AsReply(args[1..]).items;
      StorableItems(args[1..]);
    }
  }

  method EncodeArray(args: Args) returns (out: string)
    ensures out == CommandBytes(args)
  {
    out := "*" + Format(|args|) + CRLF;
    ghost var items := AsReply(args).items;
    assert items[0..] == items;
    for i := 0 to |args|
      invariant out + EncodeItems(items[i..]) == CommandBytes(args)
    {
      out := out + ("$" + Format(|args[i]|) + CRLF + args[i] + CRLF);
      assert items[i..][1..] == items[i + 1..];
    }
  }

  /** The file holding the given commands. */
  function Log(cmds: seq<Args>): string {
    if cmds == [] then "" else CommandBytes(cmds[0]) + Log(cmds[1..])
  }

  lemma {:induction false} LogAppend(cmds: seq<Args>, cmd: Args)
    ensures Log(cmds + [cmd]) == Log(cmds) + CommandBytes(cmd)
  {
    if cmds == [] {
      assert cmds + [cmd] == [cmd] && [cmd][1..] == [];
    } else {
      assert (cmds + [cmd])[1..] == cmds[1..] + [cmd];
      LogAppend(cmds[1..], cmd);
    }
  }

  // Recovery

  /** The arguments handed to the executor; items that are not strings are left empty. */
  function ArgsOf(items: seq<Value>): Args {
    seq(|items|, i requires 0 <= i < |items| => if items[i].Str? then items[i].s else "")
  }

  /** The commands recovery replays, and whether it ends without a run-time error. */
  datatype Recovery = Recovery(calls: seq<Args>, ok: bool)

  function RecoverSpec(file: string): Recovery
    decreases |file|
  {
    match Decode(file)
    case Ok(v, rest) =>
      var after := RecoverSpec(rest);
      if v.Arr? then Recovery([ArgsOf(v.items)] + after.calls, after.ok) else after
    case Fail => Recovery([], true)
    case Panic => Recovery([], false)
  }

  class AOF {
    var file: string

    constructor (file: string)
      ensures this.file == file
    {
      this.file := file;
    }

    method Write(args: Args)
      modifies this
      ensures file == old(file) + CommandBytes(args)
    {
      var bytes := EncodeArray(args);
      file := file + bytes;
    }

    /** Replays the file: the executor is called with exactly these argument lists, in order. */
    method Recover() returns (calls: seq<Args>, ok: bool)
      ensures Recovery(calls, ok) == RecoverSpec(file)
    {
      hide Decode, ArgsOf;
      var reader := new Reader(file);
      var decoder := new Decoder(reader, false);
      calls := [];
      while true
        invariant fresh(reader) && fresh(decoder) && fresh(decoder.scratch) && decoder.r == reader
        invariant RecoverSpec(file) == Recovery(calls + RecoverSpec(reader.rest).calls, RecoverSpec(reader.rest).ok)
        decreases |reader.rest|
      {
        ghost var before := RecoverSpec(reader.rest);
        var value := decoder.Decode();
        if !value.Done? {
          assert before.calls == [] && calls + [] == calls;
          return calls, value.Failed?;
        }
        if value.value.Arr? {
          ghost var after := RecoverSpec(reader.rest);
          assert calls + ([ArgsOf(value.value.items)] + after.calls) == calls + [ArgsOf(value.value.items)] + after.calls;
          calls := calls + [ArgsOf(value.value.items)];
        }
      }
    }
  }

  // Crash truncation

  /** How many whole commands lie within the first `k` bytes of their file. */
  function Whole(cmds: seq<Args>, k: nat): (n: nat)
    ensures n <= |cmds|
  {
    if cmds == [] || |CommandBytes(cmds[0])| > k then 0
    else 1 + Whole(cmds[1..], k - |CommandBytes(cmds[0])|)
  }

  /** The count is exact: those commands fit into `k` bytes, and one more would not. */
  lemma {:induction false} WholeIsMost(cmds: seq<Args>, k: nat)
    ensures |Log(cmds[..Whole(cmds, k)])| <= k
    ensures Whole(cmds, k) < |cmds| ==> |Log(cmds[..Whole(cmds, k) + 1])| > k
    ensures k >= |Log(cmds)| ==> Whole(cmds, k) == |cmds|
  {
    hide CommandBytes;
    if cmds == [] {
    } else if |CommandBytes(cmds[0])| > k {
      assert cmds[..1][0] == cmds[0];
    } else {
      var n := Whole(cmds[1..], k - |CommandBytes(cmds[0])|);
      WholeIsMost(cmds[1..], k - |CommandBytes(cmds[0])|);
      assert cmds[..n + 1][1..] == cmds[1..][..n];
      assert n + 1 < |cmds| ==> cmds[..n + 2][1..] == cmds[1..][..n + 1];
    }
  }

  lemma {:induction false} EraseBulks(args: Args)
    ensures EraseItems(AsReply(args).items) == seq(|args|, i requires 0 <= i < |args| => Str(args[i]))
  {
    if args != [] {
      assert AsReply(args).items[1..] == AsReply(args[1..]).items;
      EraseBulks(args[1..]);
    }
  }

  /** An encoded command is decoded back to its arguments, leaving what follows. */
  lemma DecodeCommand(args: Args, rest: string)
    requires Storable(args)
    ensures Decode(CommandBytes(args) + rest).Ok?
    ensures var d := Decode(CommandBytes(args) + rest);
            d.value.Arr? && ArgsOf(d.value.items) == args && d.rest == rest
  {
    hide Decode, EraseItems;
    StorableItems(args);
    EraseBulks(args);
    RoundTrip(AsReply(args), rest);
  }

  /** Recovery of a whole command followed by more. */
  lemma RecoverNext(args: Args, rest: string)
    requires Storable(args)
    ensures var after := RecoverSpec(rest);
            RecoverSpec(CommandBytes(args) + rest) == Recovery([args] + after.calls, after.ok)
  {
    hide Decode, CommandBytes, ArgsOf, Storable;
    DecodeCommand(args, rest);
  }

  lemma CutCommand(args: Args, k: nat)
    requires Storable(args) && k < |CommandBytes(args)|
    ensures Decode(CommandBytes(args)[..k]) == Fail
  {
    hide Decode, Encode;
    StorableItems(args);
    NoProperPrefix(AsReply(args), k);
  }

  /**
   A file cut at any byte recovers exactly the commands that are whole before the cut, and never
   ends in a run-time error.
   */
  lemma {:induction false} CutRecovers(cmds: seq<Args>, k: nat)
    requires forall i :: 0 <= i < |cmds| ==> Storable(cmds[i])
    requires k <= |Log(cmds)|
    ensures RecoverSpec(Log(cmds)[..k]) == Recovery(cmds[..Whole(cmds, k)], true)
  {
    hide Decode, CommandBytes, ArgsOf, Storable;
    if cmds == [] {
      assert Decode("") == Fail by { DecodeEmpty(); }
    } else {
      var head, tail := CommandBytes(cmds[0]), Log(cmds[1..]);
      if |head| > k {
        assert Log(cmds)[..k] == head[..k];
        CutCommand(cmds[0], k);
      } else {
        var j := k - |head|;
        assert Log(cmds)[..k] == head + tail[..j];
        RecoverNext(cmds[0], tail[..j]);
        CutRecovers(cmds[1..], j);
        assert [cmds[0]] + cmds[1..][..Whole(cmds[1..], j)] == cmds[..Whole(cmds, k)];
      }
    }
  }

  lemma DecodeEmpty()
    ensures Decode("") == Fail
  {}

  /** An uncut file recovers every command. */
  lemma WholeRecovers(cmds: seq<Args>)
    requires forall i :: 0 <= i < |cmds| ==> Storable(cmds[i])
    ensures RecoverSpec(Log(cmds)) == Recovery(cmds, true)
  {
    hide RecoverSpec, Log;
    CutRecovers(cmds, |Log(cmds)|);
    WholeIsMost(cmds, |Log(cmds)|);
    assert Log(cmds)[..|Log(cmds)|] == Log(cmds) && cmds[..|cmds|] == cmds;
  }
}
