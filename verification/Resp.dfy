/**
 The RESP wire format: what the encoders print and what the decoder reads back.

 `Decode` is the decoder as a function of the bytes still unread. It returns the value with the
 bytes after it, fails on malformed or incomplete input, and reports `Panic` where the source would
 stop with a run-time error (negative array counts and bulk lengths below -1).
 */
module Resp {
  import opened Numeral

  /** A decoded value: simple strings, errors and bulk strings all become strings. */
  datatype Value = Str(s: string) | Int(n: int) | Arr(items: seq<Value>)

  datatype Result<T> = Ok(value: T, rest: string) | Fail | Panic

  // Decoding

  function IndexOf(s: string, c: char): (i: nat)
    ensures i <= |s| && c !in s[..i] && (i < |s| ==> s[i] == c)
  {
    if s == [] || s[0] == c then 0
    else
      var i := IndexOf(s[1..], c);
      assert s[..i + 1] == [s[0]] + s[1..][..i];
      i + 1
  }

  /** A line without its terminator; the line must end in carriage return, line feed. */
  function ReadLine(input: string): (r: Result<string>)
    ensures r.Ok? ==> |r.rest| + 2 <= |input|
  {
    var i := IndexOf(input, '\n');
    if i == |input| then Fail
    else if i == 0 || input[i - 1] != '\r' then Fail
    else Ok(input[..i - 1], input[i + 1..])
  }

  function ReadInteger(input: string): (r: Result<Value>)
    ensures r.Ok? ==> |r.rest| < |input|
  {
    match ReadLine(input)
    case Ok(line, rest) =>
      (match Parse(line)
       case Some(n) => Ok(Int(n), rest)
       case None => Fail)
    case Fail => Fail
    case Panic => Panic
  }

  /** A length line: the number it holds. */
  function ReadCount(input: string): (r: Result<int>)
    ensures r.Ok? ==> |r.rest| < |input|
  {
    match ReadLine(input)
    case Ok(line, rest) =>
      (match Parse(line)
       case Some(n) => Ok(n, rest)
       case None => Fail)
    case Fail => Fail
    case Panic => Panic
  }

  function ReadBody(length: nat, input: string): (r: Result<Value>)
    ensures r.Ok? ==> |r.rest| <= |input|
  {
    if |input| < length + 2 then Fail
    else if input[length] != '\r' || input[length + 1] != '\n' then Fail
    else Ok(Str(input[..length]), input[length + 2..])
  }

  function ReadBulkString(input: string): (r: Result<Value>)
    ensures r.Ok? ==> |r.rest| < |input|
  {
    match ReadCount(input)
    case Ok(length, rest) =>
      if length == -1 then Ok(Str(""), rest)
      else if length < -1 || length + 2 > INT64_MAX then Panic
      else ReadBody(length, rest)
    case Fail => Fail
    case Panic => Panic
  }

  function ReadText(input: string): (r: Result<Value>)
    ensures r.Ok? ==> |r.rest| < |input|
  {
    match ReadLine(input)
    case Ok(line, rest) => Ok(Str(line), rest)
    case Fail => Fail
    case Panic => Panic
  }

  function ReadArray(input: string): (r: Result<Value>)
    ensures r.Ok? ==> |r.rest| < |input|
    decreases |input|, 2
  {
    match ReadCount(input)
    case Ok(count, rest) =>
      if count < 0 then Panic
      else
        (match ReadItems(rest, count)
         case Ok(items, after) => Ok(Arr(items), after)
         case Fail => Fail
         case Panic => Panic)
    case Fail => Fail
    case Panic => Panic
  }

  function ReadItems(input: string, count: nat): (r: Result<seq<Value>>)
    ensures r.Ok? ==> |r.rest| <= |input| && |r.value| == count
    decreases |input|, 1
  {
    if count == 0 then Ok([], input)
    else
      match Decode(input)
      case Ok(v, rest) =>
        (match ReadItems(rest, count - 1)
         case Ok(vs, after) => Ok([v] + vs, after)
         case Fail => Fail
         case Panic => Panic)
      case Fail => Fail
      case Panic => Panic
  }

  function Decode(input: string): (r: Result<Value>)
    ensures r.Ok? ==> |r.rest| < |input|
    decreases |input|, 0
  {
    if input == [] then Fail
    else
      match input[0]
      case '+' => ReadText(input[1..])
      case '-' => ReadText(input[1..])
      case ':' => ReadInteger(input[1..])
      case '$' => ReadBulkString(input[1..])
      case '*' => ReadArray(input[1..])
      case _ => Fail
  }

  // Encoding

  /** What the encoders can print. */
  datatype Reply =
    | SimpleString(s: string)
    | Error(s: string)
    | Integer(n: int)
    | BulkString(s: string)
    | NullBulkString
    | Array(items: seq<Reply>)

  const CRLF: string := "\r\n"

  function Encode(v: Reply): string {
    match v
    case SimpleString(s) => "+" + s + CRLF
    case Error(s) => "-" + s + CRLF
    case Integer(n) => ":" + Format(n) + CRLF
    case BulkString(s) => "$" + Format(|s|) + CRLF + s + CRLF
    case NullBulkString => "$-1\r\n"
    case Array(items) => "*" + Format(|items|) + CRLF + EncodeItems(items)
  }

  /** Texts that are encodings of replies. */
  ghost predicate Prints(texts: seq<string>, items: seq<Reply>) {
    |texts| == |items| && forall i :: 0 <= i < |items| ==> texts[i] == Encode(items[i])
  }

  /** Wrapping encoded replies gives the encoding of the array of them. */
  method EncodeRawArray(texts: seq<string>, ghost items: seq<Reply>) returns (out: string)
    requires Prints(texts, items)
    ensures out == Encode(Array(items))
  {
    out := "*" + Format(|texts|) + CRLF;
    assert items[0..] == items;
    for i := 0 to |texts|
      invariant out + EncodeItems(items[i..]) == Encode(Array(items))
    {
      out := out + texts[i];
      assert items[i..][1..] == items[i + 1..];
    }
  }

  function EncodeItems(items: seq<Reply>): string {
    if items == [] then "" else Encode(items[0]) + EncodeItems(items[1..])
  }

  /** What decoding keeps of a reply: simple strings, errors and null bulks lose their kind. */
  function Erase(v: Reply): Value {
    match v
    case SimpleString(s) => Str(s)
    case Error(s) => Str(s)
    case Integer(n) => Int(n)
    case BulkString(s) => Str(s)
    case NullBulkString => Str("")
    case Array(items) => Arr(EraseItems(items))
  }

  function EraseItems(items: seq<Reply>): (vs: seq<Value>)
    ensures |vs| == |items|
  {
    if items == [] then [] else [Erase(items[0])] + EraseItems(items[1..])
  }

  /** Replies the source can hold: 64-bit numbers and lengths, no line feed in a line. */
  predicate Encodable(v: Reply) {
    match v
    case SimpleString(s) => '\n' !in s
    case Error(s) => '\n' !in s
    case Integer(n) => InInt64(n)
    case BulkString(s) => |s| + 2 <= INT64_MAX
    case NullBulkString => true
    case Array(items) => |items| <= INT64_MAX && EncodableItems(items)
  }

  predicate EncodableItems(items: seq<Reply>) {
    items == [] || (Encodable(items[0]) && EncodableItems(items[1..]))
  }

  // Round trip

  lemma {:induction false} IndexOfLine(line: string, rest: string)
    requires '\n' !in line
    ensures IndexOf(line + "\n" + rest, '\n') == |line|
  {
    var s := line + "\n" + rest;
    var i := IndexOf(s, '\n');
    assert forall k :: 0 <= k < |line| ==> s[k] == line[k];
    assert s[|line|] == '\n';
  }

  lemma ReadLineOf(line: string, rest: string)
    requires '\n' !in line
    ensures ReadLine(line + CRLF + rest) == Ok(line, rest)
  {
    var s := line + CRLF + rest;
    assert s == (line + "\r") + "\n" + rest;
    IndexOfLine(line + "\r", rest);
    hide IndexOf;
    assert s[..|line|] == line;
    assert s[|line| + 2..] == rest;
  }

  lemma NoLineFeed(n: int)
    ensures '\n' !in Format(n)
  {}

  lemma ReadCountOf(n: int, rest: string)
    requires InInt64(n)
    ensures ReadCount(Format(n) + CRLF + rest) == Ok(n, rest)
  {
    hide ReadLine, Parse, Format;
    NoLineFeed(n);
    ReadLineOf(Format(n), rest);
    ParseFormat(n);
  }

  lemma ReadBodyOf(s: string, rest: string)
    ensures ReadBody(|s|, s + CRLF + rest) == Ok(Str(s), rest)
  {
    var t := s + CRLF + rest;
    assert t[..|s|] == s;
    assert t[|s| + 2..] == rest;
  }

  lemma DecodeText(s: string, rest: string, tag: char)
    requires '\n' !in s && (tag == '+' || tag == '-')
    ensures Decode([tag] + s + CRLF + rest) == Ok(Str(s), rest)
  {
    hide ReadLine;
    assert ([tag] + s + CRLF + rest)[1..] == s + CRLF + rest;
    ReadLineOf(s, rest);
  }

  lemma DecodeInteger(n: int, rest: string)
    requires InInt64(n)
    ensures Decode(":" + Format(n) + CRLF + rest) == Ok(Int(n), rest)
  {
    hide ReadLine, Parse, Format;
    assert (":" + Format(n) + CRLF + rest)[1..] == Format(n) + CRLF + rest;
    NoLineFeed(n);
    ReadLineOf(Format(n), rest);
    ParseFormat(n);
  }

  lemma DecodeBulk(s: string, rest: string)
    requires |s| + 2 <= INT64_MAX
    ensures Decode("$" + Format(|s|) + CRLF + s + CRLF + rest) == Ok(Str(s), rest)
  {
    hide ReadCount, ReadBody, Format;
    assert ("$" + Format(|s|) + CRLF + s + CRLF + rest)[1..] == Format(|s|) + CRLF + (s + CRLF + rest);
    ReadCountOf(|s|, s + CRLF + rest);
    ReadBodyOf(s, rest);
  }

  lemma DecodeNull(rest: string)
    ensures Decode("$-1\r\n" + rest) == Ok(Str(""), rest)
  {
    hide ReadCount, Format;
    assert Format(-1) == "-1" by { FormatMinusOne(); }
    assert ("$-1\r\n" + rest)[1..] == Format(-1) + CRLF + rest;
    ReadCountOf(-1, rest);
  }

  lemma FormatMinusOne()
    ensures Format(-1) == "-1"
  {
    assert FormatNat(1) == "1";
  }

  lemma DecodeArrayOf(count: nat, items: string, vs: seq<Value>, rest: string)
    requires count <= INT64_MAX && ReadItems(items + rest, count) == Ok(vs, rest)
    ensures Decode("*" + Format(count) + CRLF + items + rest) == Ok(Arr(vs), rest)
  {
    hide ReadCount, ReadItems, Format;
    assert ("*" + Format(count) + CRLF + items + rest)[1..] == Format(count) + CRLF + (items + rest);
    ReadCountOf(count, items + rest);
  }

  /** Decoding an encoded reply followed by anything gives the reply and leaves what follows. */
  lemma {:induction false} RoundTrip(v: Reply, rest: string)
    requires Encodable(v)
    ensures Decode(Encode(v) + rest) == Ok(Erase(v), rest)
    decreases v, 1
  {
    hide Decode, Format;
    match v
    case SimpleString(s) =>
      DecodeText(s, rest, '+');
      assert Encode(v) == ['+'] + s + CRLF;
    case Error(s) =>
      DecodeText(s, rest, '-');
      assert Encode(v) == ['-'] + s + CRLF;
    case Integer(n) =>
      DecodeInteger(n, rest);
    case BulkString(s) =>
      DecodeBulk(s, rest);
    case NullBulkString =>
      DecodeNull(rest);
    case Array(items) =>
      RoundTripItems(items, rest);
      DecodeArrayOf(|items|, EncodeItems(items), EraseItems(items), rest);
  }

  lemma {:induction false} RoundTripItems(items: seq<Reply>, rest: string)
    requires EncodableItems(items)
    ensures ReadItems(EncodeItems(items) + rest, |items|) == Ok(EraseItems(items), rest)
    decreases items, 0
  {
    hide Decode, Encode, Erase;
    if items == [] {
      assert EncodeItems(items) + rest == rest;
    } else {
      RoundTrip(items[0], EncodeItems(items[1..]) + rest);
      RoundTripItems(items[1..], rest);
      assert EncodeItems(items) + rest == Encode(items[0]) + (EncodeItems(items[1..]) + rest);
    }
  }

  // More input does not change a decision

  /** `later` is `r` with `more` appended to what is left; failures may still turn into anything. */
  predicate Extends<T(==)>(r: Result<T>, later: Result<T>, more: string) {
    match r
    case Ok(v, rest) => later == Ok(v, rest + more)
    case Panic => later == Panic
    case Fail => true
  }

  lemma IndexOfExtends(s: string, more: string)
    requires IndexOf(s, '\n') < |s|
    ensures IndexOf(s + more, '\n') == IndexOf(s, '\n')
  {
    var i := IndexOf(s, '\n');
    assert s + more == s[..i] + "\n" + (s[i + 1..] + more);
    IndexOfLine(s[..i], s[i + 1..] + more);
  }

  lemma ReadLineExtends(s: string, more: string)
    ensures Extends(ReadLine(s), ReadLine(s + more), more)
  {
    hide IndexOf;
    var i := IndexOf(s, '\n');
    if i < |s| && i > 0 {
      IndexOfExtends(s, more);
      assert (s + more)[..i - 1] == s[..i - 1];
      assert (s + more)[i + 1..] == s[i + 1..] + more;
    }
  }

  lemma ReadCountExtends(s: string, more: string)
    ensures Extends(ReadCount(s), ReadCount(s + more), more)
    ensures Extends(ReadInteger(s), ReadInteger(s + more), more)
    ensures Extends(ReadText(s), ReadText(s + more), more)
  {
    hide ReadLine, Parse;
    ReadLineExtends(s, more);
  }

  lemma ReadBodyExtends(length: nat, s: string, more: string)
    ensures Extends(ReadBody(length, s), ReadBody(length, s + more), more)
  {
    if |s| >= length + 2 {
      assert (s + more)[..length] == s[..length];
      assert (s + more)[length + 2..] == s[length + 2..] + more;
    }
  }

  lemma ReadBulkExtends(s: string, more: string)
    ensures Extends(ReadBulkString(s), ReadBulkString(s + more), more)
  {
    hide ReadCount, ReadBody;
    ReadCountExtends(s, more);
    match ReadCount(s)
    case Ok(length, rest) =>
      if length >= 0 {
        ReadBodyExtends(length, rest, more);
      }
    case Fail =>
    case Panic =>
  }

  lemma {:induction false} ReadArrayExtends(s: string, more: string)
    ensures Extends(ReadArray(s), ReadArray(s + more), more)
    decreases |s|, 2
  {
    hide ReadCount, ReadItems;
    ReadCountExtends(s, more);
    match ReadCount(s)
    case Ok(count, rest) =>
      if count >= 0 {
        ReadItemsExtends(rest, count, more);
      }
    case Fail =>
    case Panic =>
  }

  lemma {:induction false} ReadItemsExtends(s: string, count: nat, more: string)
    ensures Extends(ReadItems(s, count), ReadItems(s + more, count), more)
    decreases |s|, 1
  {
    hide Decode;
    if count > 0 {
      DecodeExtends(s, more);
      match Decode(s)
      case Ok(v, rest) => ReadItemsExtends(rest, count - 1, more);
      case Fail =>
      case Panic =>
    }
  }

  /** Bytes that arrive later never change a value already decoded, they only follow it. */
  lemma {:induction false} DecodeExtends(s: string, more: string)
    ensures Extends(Decode(s), Decode(s + more), more)
    decreases |s|, 0
  {
    hide ReadText, ReadInteger, ReadBulkString, ReadArray;
    if s != [] {
      assert (s + more)[1..] == s[1..] + more;
      ReadCountExtends(s[1..], more);
      ReadBulkExtends(s[1..], more);
      ReadArrayExtends(s[1..], more);
    }
  }

  /** No proper prefix of an encoding decodes: a cut value is always seen to be incomplete. */
  lemma NoProperPrefix(v: Reply, k: nat)
    requires Encodable(v) && k < |Encode(v)|
    ensures Decode(Encode(v)[..k]) == Fail
  {
    hide Decode, Encode;
    var s, more := Encode(v)[..k], Encode(v)[k..];
    assert s + more == Encode(v) && Encode(v) + "" == Encode(v);
    DecodeExtends(s, more);
    RoundTrip(v, "");
  }
}
