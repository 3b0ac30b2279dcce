/**
 The decoder as it runs: it advances a shared reader and, on a connection, keeps one scratch buffer
 that every bulk string overwrites. Each method is proved against the decoding function of the
 unread bytes alone, so nothing left in the buffer can ever reach a result.
 */
module RespReader {
  import opened Numeral
  import R = Resp
  import opened Resp

  /** The unread input of a connection or file. */
  class Reader {
    var rest: string

    constructor (input: string)
      ensures rest == input
    {
      rest := input;
    }
  }

  datatype Status<T> = Done(value: T) | Failed | Panicked

  /** The outcome of a read agrees with the decoding function, also in what is left unread. */
  ghost predicate Agrees<T>(s: Status<T>, rest: string, spec: Result<T>) {
    match spec
    case Ok(v, r) => s == Done(v) && rest == r
    case Fail => s == Failed
    case Panic => s == Panicked
  }

  /** The items already read, put before the items a result still holds. */
  ghost function Prepend(items: seq<Value>, r: Result<seq<Value>>): Result<seq<Value>> {
    match r
    case Ok(vs, rest) => Ok(items + vs, rest)
    case Fail => Fail
    case Panic => Panic
  }

  class Decoder {
    const r: Reader
    const reuse: bool
    var scratch: array<char>

    constructor (r: Reader, reuse: bool)
      ensures this.r == r && this.reuse == reuse && fresh(scratch)
    {
      this.r, this.reuse := r, reuse;
      scratch := new char[0];
    }

    method ReadLine() returns (s: Status<string>)
      modifies r
      ensures Agrees(s, r.rest, R.ReadLine(old(r.rest)))
    {
      var input := r.rest;
      var i := IndexOf(input, '\n');
      if i == |input| {
        return Failed;
      }
      r.rest := input[i + 1..];
      if i == 0 || input[i - 1] != '\r' {
        return Failed;
      }
      return Done(input[..i - 1]);
    }

    method ReadCount() returns (s: Status<int>)
      modifies r
      ensures Agrees(s, r.rest, R.ReadCount(old(r.rest)))
    {
      hide R.ReadLine, Parse;
      var line := ReadLine();
      if !line.Done? {
        return if line.Failed? then Failed else Panicked;
      }
      var n := Parse(line.value);
      return if n.Some? then Done(n.value) else Failed;
    }

    /** Fills the first `need` bytes of the buffer from the reader, or fails at end of input. */
    method ReadFull(buffer: array<char>, need: nat) returns (ok: bool)
      requires need <= buffer.Length
      modifies r, buffer
      ensures ok <==> |old(r.rest)| >= need
      ensures ok ==> buffer[..need] == old(r.rest)[..need] && r.rest == old(r.rest)[need..]
    {
      var input := r.rest;
      for i := 0 to need
        invariant i <= |input| && r.rest == input
        invariant buffer[..i] == input[..i]
      {
        if i == |input| {
          r.rest := "";
          return false;
        }
        buffer[i] := input[i];
      }
      r.rest := input[need..];
      return true;
    }

    method ReadBulkString() returns (s: Status<Value>)
      modifies r, this`scratch, scratch
      ensures scratch == old(scratch) || fresh(scratch)
      ensures Agrees(s, r.rest, R.ReadBulkString(old(r.rest)))
    {
      hide R.ReadCount;
      var count := ReadCount();
      if !count.Done? {
        return if count.Failed? then Failed else Panicked;
      }
      var length := count.value;
      if length == -1 {
        return Done(Str(""));
      }
      if length < -1 || length + 2 > INT64_MAX {
        return Panicked;
      }
      var need := length + 2;
      var buffer: array<char>;
      if reuse {
        if scratch.Length < need {
          scratch := new char[need];
        }
        buffer := scratch;
      } else {
        buffer := new char[need];
      }
      ghost var body := r.rest;
      var ok := ReadFull(buffer, need);
      if !ok {
        return Failed;
      }
      assert buffer[length] == buffer[..need][length] == body[length];
      assert buffer[length + 1] == buffer[..need][length + 1] == body[length + 1];
      if buffer[length] != '\r' || buffer[length + 1] != '\n' {
        return Failed;
      }
      assert buffer[..length] == buffer[..need][..length] == body[..length];
      return Done(Str(buffer[..length]));
    }

    method ReadArray() returns (s: Status<Value>)
      modifies r, this`scratch, scratch
      ensures scratch == old(scratch) || fresh(scratch)
      ensures Agrees(s, r.rest, R.ReadArray(old(r.rest)))
      decreases |r.rest|, 1
    {
      hide R.ReadCount, R.Decode;
      var count := ReadCount();
      if !count.Done? {
        return if count.Failed? then Failed else Panicked;
      }
      if count.value < 0 {
        return Panicked;
      }
      ghost var all := ReadItems(r.rest, count.value);
      var items: seq<Value> := [];
      PrependNone(all);
      for i := 0 to count.value
        invariant scratch == old(scratch) || fresh(scratch)
        invariant |r.rest| < |old(r.rest)|
        invariant all == Prepend(items, ReadItems(r.rest, count.value - i))
      {
        ghost var before := r.rest;
        var item := Decode();
        if !item.Done? {
          return if item.Failed? then Failed else Panicked;
        }
        PrependNext(items, before, count.value - i);
        items := items + [item.value];
      }
      assert items + [] == items;
      return Done(Arr(items));
    }

    lemma PrependNone(all: Result<seq<Value>>)
      ensures Prepend([], all) == all
    {
      if all.Ok? {
        assert [] + all.value == all.value;
      }
    }

    lemma PrependNext(items: seq<Value>, rest: string, count: nat)
      requires count > 0 && R.Decode(rest).Ok?
      ensures var d := R.Decode(rest);
              Prepend(items, ReadItems(rest, count)) == Prepend(items + [d.value], ReadItems(d.rest, count - 1))
    {
      hide R.Decode;
      var d := R.Decode(rest);
      match ReadItems(d.rest, count - 1)
      case Ok(vs, _) => assert items + ([d.value] + vs) == items + [d.value] + vs;
      case Fail =>
      case Panic =>
    }

    /** One value: the same result and the same bytes left, with or without a reused buffer. */
    method Decode() returns (s: Status<Value>)
      modifies r, this`scratch, scratch
      ensures scratch == old(scratch) || fresh(scratch)
      ensures Agrees(s, r.rest, R.Decode(old(r.rest)))
      decreases |r.rest|, 0
    {
      hide R.ReadLine, Parse, R.ReadCount, R.ReadBulkString, R.ReadArray;
      if r.rest == [] {
        return Failed;
      }
      var tag := r.rest[0];
      r.rest := r.rest[1..];
      match tag {
        case '$' =>
          s := ReadBulkString();
        case '*' =>
          s := ReadArray();
        case _ =>
          if tag != '+' && tag != '-' && tag != ':' {
            return Failed;
          }
          var line := ReadLine();
          if !line.Done? {
            return if line.Failed? then Failed else Panicked;
          }
          if tag != ':' {
            return Done(Str(line.value));
          }
          var n := Parse(line.value);
          return if n.Some? then Done(Int(n.value)) else Failed;
      }
    }
  }
}
