/**
 Files that were cut inside a command and then appended to.

 Recovery stops at the torn command but leaves its bytes in the file, and later commands are written
 after them. The next recovery reads the mixture.
 */
module Torn {
  import opened Numeral
  import opened Commands
  import opened Resp
  import opened Aof

  ghost predicate AllStorable(cmds: seq<Args>) {
    forall i :: 0 <= i < |cmds| ==> Storable(cmds[i])
  }

  lemma NoLog()
    ensures Log([]) == ""
  {}

  lemma LogFirst(cmds: seq<Args>)
    requires cmds != []
    ensures Log(cmds) == CommandBytes(cmds[0]) + Log(cmds[1..])
  {
    hide CommandBytes;
  }

  /** Whole commands at the front are recovered whatever follows them. */
  lemma {:induction false} RecoverAfter(whole: seq<Args>, tail: string)
    requires AllStorable(whole)
    ensures var after := RecoverSpec(tail);
            RecoverSpec(Log(whole) + tail) == Recovery(whole + after.calls, after.ok)
  {
    hide CommandBytes, Storable, RecoverSpec, Log;
    var calls := RecoverSpec(tail).calls;
    if whole == [] {
      NoLog();
      assert Log(whole) + tail == tail && whole + calls == calls;
    } else {
      var rest := Log(whole[1..]) + tail;
      LogFirst(whole);
      assert Log(whole) + tail == CommandBytes(whole[0]) + rest;
      RecoverNext(whole[0], rest);
      RecoverAfter(whole[1..], tail);
      assert [whole[0]] + (whole[1..] + calls) == whole + calls;
    }
  }

  /** After a cut between two commands, what is appended later is recovered too. */
  lemma CleanCutKeepsRest(whole: seq<Args>, more: seq<Args>)
    requires AllStorable(whole) && AllStorable(more)
    ensures RecoverSpec(Log(whole) + Log(more)) == Recovery(whole + more, true)
  {
    hide RecoverSpec, Log;
    RecoverAfter(whole, Log(more));
    WholeRecovers(more);
  }

  /** What recovery leaves unread at the end of the file. */
  function Unread(file: string): string
    decreases |file|
  {
    match Decode(file)
    case Ok(_, rest) => Unread(rest)
    case Fail => file
    case Panic => file
  }

  lemma UnreadNext(c: Args, rest: string)
    requires Storable(c)
    ensures Unread(CommandBytes(c) + rest) == Unread(rest)
  {
    hide Decode, CommandBytes, Storable, ArgsOf;
    DecodeCommand(c, rest);
  }

  /** What recovery leaves unread of a cut file is what follows its whole commands. */
  lemma {:induction false} CutUnread(cmds: seq<Args>, k: nat)
    requires AllStorable(cmds) && k <= |Log(cmds)|
    ensures Log(cmds)[..k] == Log(cmds[..Whole(cmds, k)]) + Unread(Log(cmds)[..k])
  {
    hide Decode, CommandBytes, Storable, Log, Unread;
    if cmds == [] {
      NoLog();
      DecodeEmpty();
      UnreadFail("");
    } else {
      LogFirst(cmds);
      var head, tail := CommandBytes(cmds[0]), Log(cmds[1..]);
      if |head| > k {
        assert Log(cmds)[..k] == head[..k];
        CutCommand(cmds[0], k);
        UnreadFail(head[..k]);
        NoLog();
      } else {
        var j := k - |head|;
        assert Log(cmds)[..k] == head + tail[..j];
        UnreadNext(cmds[0], tail[..j]);
        CutUnread(cmds[1..], j);
        var part := cmds[..Whole(cmds, k)];
        assert part[1..] == cmds[1..][..Whole(cmds[1..], j)];
        LogFirst(part);
      }
    }
  }

  /** A cut file that recovery reads to its end consists of whole commands. */
  lemma ReadToEnd(cmds: seq<Args>, k: nat)
    requires AllStorable(cmds) && k <= |Log(cmds)| && Unread(Log(cmds)[..k]) == ""
    ensures Log(cmds)[..k] == Log(cmds[..Whole(cmds, k)])
  {
    hide Log, Unread, Whole;
    CutUnread(cmds, k);
  }

  lemma UnreadFail(file: string)
    requires Decode(file) == Fail
    ensures Unread(file) == file
  {}

  // The first decode of a mixture

  /** The array header of a command. */
  function Header(c: Args): string {
    "*" + Format(|c|) + CRLF
  }

  lemma HeaderFirst(c: Args)
    ensures CommandBytes(c) == Header(c) + EncodeItems(AsReply(c).items)
  {
    hide EncodeItems;
  }

  /** A complete header fixes the number of arguments, whatever follows. */
  lemma HeaderFixesCount(n: nat, rest: string)
    requires n <= INT64_MAX
    ensures var d := Decode("*" + Format(n) + CRLF + rest); d.Ok? ==> d.value.Arr? && |d.value.items| == n
  {
    hide ReadCount, ReadItems, Format;
    var input := "*" + Format(n) + CRLF + rest;
    assert input[1..] == Format(n) + CRLF + rest;
    ReadCountOf(n, rest);
  }

  // A tear inside an array header

  /** Unread bytes that start an array whose count is missing or is no number. */
  ghost predicate StuckHeader(u: string) {
    u != "" && u[0] == '*' && ReadCount(u[1..]) == Fail
  }

  lemma StuckFails(u: string)
    requires StuckHeader(u)
    ensures Decode(u) == Fail
  {
    hide ReadCount;
  }

  /** Cutting keeps it stuck. */
  lemma StuckCut(u: string, j: nat)
    requires StuckHeader(u) && 0 < j <= |u|
    ensures StuckHeader(u[..j])
  {
    hide Parse;
    assert u[1..] == u[..j][1..] + u[j..];
    ReadCountExtends(u[..j][1..], u[j..]);
    CountNeverPanics(u[..j][1..]);
  }

  lemma CountNeverPanics(s: string)
    ensures ReadCount(s) != Panic
  {}

  lemma StarInLine(line: string)
    requires '*' in line
    ensures Parse(line) == None
  {
    hide DigitsValue;
    var i :| 0 <= i < |line| && line[i] == '*';
    assert !IsDigit(line[i]);
    if i > 0 {
      assert line[1..][i - 1] == '*';
    }
  }

  lemma BadLineStays(s: string, more: string)
    requires ReadCount(s) == Fail && '\n' in s
    ensures ReadCount(s + more) == Fail
  {
    hide Parse, IndexOf;
    var i := IndexOf(s, '\n');
    assert i < |s|;
    IndexOfExtends(s, more);
    assert i > 0 ==> (s + more)[..i - 1] == s[..i - 1];
  }

  /** So does appending a command. */
  lemma StuckGrows(u: string, c: Args)
    requires StuckHeader(u)
    ensures StuckHeader(u + CommandBytes(c))
  {
    hide CommandBytes, ReadCount, Format, Items;
    var s, more := u[1..], CommandBytes(c);
    assert (u + more)[1..] == s + more;
    if '\n' in s {
      BadLineStays(s, more);
    } else {
      HeaderFirst(c);
      ItemsDef(c);
      NoLineFeed(|c|);
      var line := s + "*" + Format(|c|);
      assert s + more == line + CRLF + Items(c);
      BadLine(line, Items(c));
    }
  }

  lemma BadLine(line: string, rest: string)
    requires '*' in line && '\n' !in line
    ensures ReadCount(line + CRLF + rest) == Fail
  {
    hide Parse, ReadLine;
    ReadLineOf(line, rest);
    StarInLine(line);
  }

  /** A tear inside a header, followed by whole commands and cut again any number of times, is never read past. */
  lemma StuckRecovers(whole: seq<Args>, u: string)
    requires AllStorable(whole) && StuckHeader(u)
    ensures RecoverSpec(Log(whole) + u) == Recovery(whole, true)
  {
    hide Storable, Log, StuckHeader, Decode;
    StuckFails(u);
    RecoverAfter(whole, u);
    assert whole + [] == whole;
  }

  lemma TornHeaderStuck(c: Args, m: nat)
    requires 0 < m < |Header(c)|
    ensures m <= |CommandBytes(c)| && StuckHeader(CommandBytes(c)[..m])
  {
    hide Format, Items, CommandBytes;
    HeaderFirst(c);
    ItemsDef(c);
    NoLineFeed(|c|);
    var u := CommandBytes(c)[..m];
    assert u == Header(c)[..m];
    assert '\n' !in u[1..];
    NoLineNoCount(u[1..]);
  }

  lemma NoLineNoCount(s: string)
    requires '\n' !in s
    ensures ReadCount(s) == Fail
  {
    assert IndexOf(s, '\n') == |s|;
  }

  /** So does appending any log. */
  lemma {:induction false} StuckLog(u: string, more: seq<Args>)
    requires StuckHeader(u)
    ensures StuckHeader(u + Log(more))
    decreases |more|
  {
    hide StuckHeader, CommandBytes, Log;
    if more == [] {
      NoLog();
      assert u + "" == u;
    } else {
      LogFirst(more);
      StuckGrows(u, more[0]);
      StuckLog(u + CommandBytes(more[0]), more[1..]);
      assert u + Log(more) == u + CommandBytes(more[0]) + Log(more[1..]);
    }
  }

  /** A tear inside the header hides everything written to the file after it, for good. */
  lemma TornHeaderHidesRest(whole: seq<Args>, c: Args, m: nat, more: seq<Args>)
    requires AllStorable(whole) && 0 < m < |Header(c)|
    ensures m <= |CommandBytes(c)|
    ensures RecoverSpec(Log(whole) + (CommandBytes(c)[..m] + Log(more))) == Recovery(whole, true)
  {
    hide Storable, AllStorable, CommandBytes, Log, Header, StuckHeader;
    TornHeaderStuck(c, m);
    StuckLog(CommandBytes(c)[..m], more);
    StuckRecovers(whole, CommandBytes(c)[..m] + Log(more));
  }

  /** The first command recovered from a mixture has as many arguments as the torn one. */
  lemma TornFirstCall(c: Args, m: nat, more: seq<Args>)
    requires Storable(c) && 0 < m < |CommandBytes(c)|
    ensures var calls := RecoverSpec(CommandBytes(c)[..m] + Log(more)).calls; calls != [] ==> |calls[0]| == |c|
  {
    hide Decode, EncodeItems, Format, Log, CommandBytes, StuckHeader;
    HeaderFirst(c);
    var torn := CommandBytes(c)[..m];
    if m < |Header(c)| {
      TornHeaderStuck(c, m);
      StuckLog(torn, more);
      StuckFails(torn + Log(more));
    } else {
      var rest := torn[|Header(c)|..] + Log(more);
      assert torn + Log(more) == "*" + Format(|c|) + CRLF + rest;
      HeaderFixesCount(|c|, rest);
    }
  }

  /** Commands a server can have logged: a write with at least one argument. */
  ghost predicate AllWrites(cmds: seq<Args>) {
    forall i :: 0 <= i < |cmds| ==> Storable(cmds[i]) && |cmds[i]| >= 2 && IsWrite(cmds[i][0])
  }

  /** Whatever writes are appended after a cut, they are recovered. */
  ghost predicate AppendsSurvive(whole: seq<Args>, torn: string) {
    forall more :: AllWrites(more) ==> RecoverSpec(Log(whole) + (torn + Log(more))) == Recovery(whole + more, true)
  }

  /** A later command with another number of arguments is not recovered after a tear. */
  lemma TornLoses(whole: seq<Args>, c: Args, m: nat, more: seq<Args>)
    requires AllStorable(whole) && Storable(c) && 0 < m < |CommandBytes(c)| && more != [] && |more[0]| != |c|
    ensures RecoverSpec(Log(whole) + (CommandBytes(c)[..m] + Log(more))).calls != whole + more
  {
    hide Storable, AllStorable, CommandBytes, Log, RecoverSpec;
    var tail := CommandBytes(c)[..m] + Log(more);
    RecoverAfter(whole, tail);
    TornFirstCall(c, m, more);
    var calls := RecoverSpec(tail).calls;
    assert (whole + calls)[|whole|..] == calls && (whole + more)[|whole|..] == more;
  }

  /**
   Exactly when what is appended after a crash is recovered: the cut must lie between two commands.
   */
  lemma AppendsSurviveExactly(whole: seq<Args>, c: Args, m: nat)
    requires AllStorable(whole) && Storable(c) && m < |CommandBytes(c)|
    ensures AppendsSurvive(whole, CommandBytes(c)[..m]) <==> m == 0
  {
    hide Storable, CommandBytes, Log, RecoverSpec, IsWrite;
    var torn := CommandBytes(c)[..m];
    if m == 0 {
      forall more | AllWrites(more)
        ensures RecoverSpec(Log(whole) + (torn + Log(more))) == Recovery(whole + more, true)
      {
        CleanCutKeepsRest(whole, more);
        assert torn + Log(more) == Log(more);
      }
    } else {
      var more: seq<Args> := if |c| == 2 then [["SET", "a", "b"]] else [["INCR", "a"]];
      ShortWrites();
      assert AllWrites(more);
      TornLoses(whole, c, m, more);
    }
  }

  lemma ShortWrites()
    ensures Storable(["SET", "a", "b"]) && Storable(["INCR", "a"]) && IsWrite("SET") && IsWrite("INCR")
  {}

  // A command nobody sent

  function Bulk(s: string): string {
    Encode(BulkString(s))
  }

  lemma BulkItems(args: Args)
    requires |args| == 3
    ensures CommandBytes(args) == "*3" + CRLF + (Bulk(args[0]) + Bulk(args[1]) + Bulk(args[2]))
  {
    hide Encode;
    var items := AsReply(args).items;
    assert Format(3) == "3";
    assert items[1..][1..] == items[2..] && items[2..][1..] == [];
    assert CommandBytes(args) == "*3" + CRLF + EncodeItems(items) by { HeaderFirst(args); }
    assert EncodeItems(items[2..]) == Bulk(args[2]) + "";
    assert EncodeItems(items[1..]) == Bulk(args[1]) + EncodeItems(items[2..]);
    assert EncodeItems(items) == Bulk(args[0]) + EncodeItems(items[1..]);
  }

  /** Bulk strings between commands are skipped. */
  lemma SkipBulk(s: string, rest: string)
    requires |s| + 2 <= INT64_MAX
    ensures RecoverSpec(Bulk(s) + rest) == RecoverSpec(rest)
  {
    hide Decode, Encode;
    RoundTrip(BulkString(s), rest);
  }

  /** The bytes left of a SET whose key lost its last two characters. */
  function TornSet(key: string): string {
    "*3" + CRLF + Bulk("SET") + ("$" + Format(|key| + 2) + CRLF + key)
  }

  lemma TornSetIsCut(key: string, lost: string, value: string)
    requires |lost| == 2
    ensures TornSet(key) <= CommandBytes(["SET", key + lost, value])
    ensures |TornSet(key)| < |CommandBytes(["SET", key + lost, value])|
  {
    hide Format, CommandBytes;
    BulkItems(["SET", key + lost, value]);
    var all := "*3" + CRLF + (Bulk("SET") + Bulk(key + lost) + Bulk(value));
    assert Bulk(key + lost) == "$" + Format(|key| + 2) + CRLF + key + (lost + CRLF);
    assert all == TornSet(key) + (lost + CRLF + Bulk(value));
  }

  /**
   Two SETs, the first cut inside its key, are recovered as one that nobody sent: its key is the rest
   of the first key and the start of the second command, its value the name SET.
   */
  lemma Fabricates(key: string, other: string, value: string)
    requires Storable(["SET", key + "*3", "SET"]) && Storable(["SET", other, value])
    ensures RecoverSpec(TornSet(key) + CommandBytes(["SET", other, value])) == Recovery([["SET", key + "*3", "SET"]], true)
  {
    hide Decode, Format, CommandBytes, RecoverSpec, Encode;
    var made, tail := ["SET", key + "*3", "SET"], Bulk(other) + (Bulk(value) + "");
    BulkItems(["SET", other, value]);
    BulkItems(made);
    BulkText(key + "*3");
    assert TornSet(key) + CommandBytes(["SET", other, value])
        == "*3" + CRLF + (Bulk("SET") + ("$" + Format(|key| + 2) + CRLF + (key + "*3") + CRLF) + Bulk("SET")) + tail;
    assert TornSet(key) + CommandBytes(["SET", other, value]) == CommandBytes(made) + tail;
    RecoverNext(made, tail);
    SkipBoth(other, value);
    assert [made] + [] == [made];
  }

  /** The exact condition is about all later writes: one that happens to survive a tear. */
  lemma SomeSurvive(key: string)
    requires Storable(["SET", key + "*3", "SET"])
    ensures var c := ["SET", key + "*3", "SET"];
            RecoverSpec(TornSet(key) + CommandBytes(c)) == Recovery([c], true)
  {
    hide RecoverSpec, CommandBytes, Storable, TornSet;
    Fabricates(key, key + "*3", "SET");
  }

  lemma BulkText(s: string)
    ensures Bulk(s) == "$" + Format(|s|) + CRLF + s + CRLF
  {}

  lemma SkipBoth(other: string, value: string)
    requires Storable(["SET", other, value])
    ensures RecoverSpec(Bulk(other) + (Bulk(value) + "")) == Recovery([], true)
  {
    hide Decode, Bulk;
    assert ["SET", other, value][1] == other && ["SET", other, value][2] == value;
    SkipBulk(other, Bulk(value) + "");
    SkipBulk(value, "");
    DecodeEmpty();
  }

  // A tear inside an argument

  /** Arguments as the encoder prints them after the header. */
  function Items(args: Args): string {
    EncodeItems(AsReply(args).items)
  }

  lemma ItemsFirst(args: Args)
    requires args != []
    ensures Items(args) == Bulk(args[0]) + Items(args[1..])
  {
    hide Encode;
    assert AsReply(args).items[1..] == AsReply(args[1..]).items;
  }

  lemma {:induction false} ItemsConcat(a: Args, b: Args)
    ensures Items(a + b) == Items(a) + Items(b)
  {
    hide Bulk, Items;
    if a == [] {
      NoItems();
      assert a + b == b;
    } else {
      ItemsFirst(a);
      ItemsFirst(a + b);
      assert (a + b)[1..] == a[1..] + b;
      ItemsConcat(a[1..], b);
    }
  }

  lemma NoItems()
    ensures Items([]) == ""
  {}

  lemma ItemsOne(s: string)
    ensures Items([s]) == "$" + Format(|s|) + CRLF + s + CRLF
  {
    hide Items, Bulk;
    ItemsFirst([s]);
    NoItems();
    BulkText(s);
    assert [s][1..] == [] && Bulk(s) + "" == Bulk(s);
  }

  /**
   What a crash leaves of a command torn inside an argument: all the arguments before it, the length of
   that argument and the part `a` of its text; `more` arguments would have followed.
   */
  function TornBody(before: Args, a: string, size: nat, more: nat): string {
    "*" + Format(|before| + 1 + more) + CRLF + Items(before) + ("$" + Format(size) + CRLF + a)
  }

  lemma Around(before: Args, arg: string, after: Args)
    ensures CommandBytes(before + [arg] + after)
         == "*" + Format(|before| + 1 + |after|) + CRLF + Items(before) + ("$" + Format(|arg|) + CRLF + arg + CRLF) + Items(after)
  {
    hide Items, Format, CommandBytes;
    HeaderFirst(before + [arg] + after);
    ItemsDef(before + [arg] + after);
    ItemsConcat(before + [arg], after);
    ItemsConcat(before, [arg]);
    ItemsOne(arg);
  }

  lemma ItemsDef(args: Args)
    ensures Items(args) == EncodeItems(AsReply(args).items)
  {}

  lemma TornBodyIsCut(before: Args, a: string, lost: string, after: Args)
    ensures var torn, all := TornBody(before, a, |a + lost|, |after|), CommandBytes(before + [a + lost] + after);
            torn <= all && |torn| < |all|
  {
    hide Items, Format, CommandBytes;
    Around(before, a + lost, after);
    var torn := TornBody(before, a, |a + lost|, |after|);
    assert CommandBytes(before + [a + lost] + after) == torn + (lost + CRLF + Items(after));
  }

  /** What follows the tear completes the torn argument as long as it ends a line where the argument should end. */
  lemma TornBodyReads(before: Args, a: string, x: string, fill: Args, rest: string)
    ensures TornBody(before, a, |a + x|, |fill|) + (x + CRLF + Items(fill) + rest) == CommandBytes(before + [a + x] + fill) + rest
  {
    hide Items, Format, CommandBytes;
    Around(before, a + x, fill);
  }

  lemma TailSkipped(hidden: seq<Args>)
    requires AllStorable(hidden)
    ensures RecoverSpec(Log(hidden) + CRLF) == Recovery(hidden, true)
  {
    hide Log, Storable;
    RecoverAfter(hidden, CRLF);
    assert Decode(CRLF) == Fail;
    assert hidden + [] == hidden;
  }

  /**
   A tear inside any argument followed by a command that ends a line at the right place: recovery runs a
   command nobody sent and then whatever commands the text of that later command holds.
   */
  lemma RunsHidden(before: Args, a: string, x: string, fill: Args, hidden: seq<Args>, next: Args)
    requires Storable(before + [a + x] + fill) && AllStorable(hidden)
    requires CommandBytes(next) == x + CRLF + Items(fill) + (Log(hidden) + CRLF)
    ensures RecoverSpec(TornBody(before, a, |a + x|, |fill|) + CommandBytes(next))
         == Recovery([before + [a + x] + fill] + hidden, true)
  {
    hide Items, CommandBytes, Log, RecoverSpec, Storable, TornBody;
    TornBodyReads(before, a, x, fill, Log(hidden) + CRLF);
    RecoverNext(before + [a + x] + fill, Log(hidden) + CRLF);
    TailSkipped(hidden);
  }

  /** The start of a SET, up to the length of its value. */
  function Swallowed(key: string, value: string): string {
    "*3" + CRLF + Bulk("SET") + Bulk(key) + "$" + Format(|value|)
  }

  lemma SetSplits(key: string, value: string)
    ensures CommandBytes(["SET", key, value]) == Swallowed(key, value) + CRLF + value + CRLF
  {
    hide Format, CommandBytes;
    BulkItems(["SET", key, value]);
    BulkText(value);
  }

  /** A value that holds the arguments the torn command lacks and then any commands at all. */
  function HidingValue(fill: Args, hidden: seq<Args>): string {
    Items(fill) + Log(hidden)
  }

  /**
   For a tear that lost as many bytes of an argument as a SET has before its value: whatever commands
   were sent as a value are run.
   */
  lemma ValueRuns(before: Args, a: string, fill: Args, key: string, hidden: seq<Args>)
    requires var x := Swallowed(key, HidingValue(fill, hidden)); Storable(before + [a + x] + fill) && AllStorable(hidden)
    ensures var x := Swallowed(key, HidingValue(fill, hidden));
            RecoverSpec(TornBody(before, a, |a + x|, |fill|) + CommandBytes(["SET", key, HidingValue(fill, hidden)]))
              == Recovery([before + [a + x] + fill] + hidden, true)
  {
    hide Items, CommandBytes, Log, RecoverSpec, Storable, TornBody, Swallowed;
    var v := HidingValue(fill, hidden);
    var x := Swallowed(key, v);
    SetSplits(key, v);
    assert x + CRLF + (Items(fill) + Log(hidden)) + CRLF == x + CRLF + Items(fill) + (Log(hidden) + CRLF);
    RunsHidden(before, a, x, fill, hidden, ["SET", key, v]);
  }

  /** The same for a tear that lost more: the value starts with any `pad` that makes up for it. */
  lemma PaddedValueRuns(before: Args, a: string, fill: Args, key: string, pad: string, hidden: seq<Args>)
    requires var x := Swallowed(key, pad + CRLF + HidingValue(fill, hidden)) + CRLF + pad;
             Storable(before + [a + x] + fill) && AllStorable(hidden)
    ensures var x := Swallowed(key, pad + CRLF + HidingValue(fill, hidden)) + CRLF + pad;
            RecoverSpec(TornBody(before, a, |a + x|, |fill|) + CommandBytes(["SET", key, pad + CRLF + HidingValue(fill, hidden)]))
              == Recovery([before + [a + x] + fill] + hidden, true)
  {
    hide Items, CommandBytes, Log, RecoverSpec, Storable, TornBody, Swallowed;
    var v := pad + CRLF + HidingValue(fill, hidden);
    var s := Swallowed(key, v);
    var x := s + CRLF + pad;
    SetSplits(key, v);
    assert s + CRLF + (pad + CRLF + (Items(fill) + Log(hidden))) + CRLF == x + CRLF + Items(fill) + (Log(hidden) + CRLF);
    RunsHidden(before, a, x, fill, hidden, ["SET", key, v]);
  }

  // A file no server starts from

  lemma {:induction false} ReadItemsPanic(args: Args, n: nat, rest: string)
    requires Storable(args) && n > 0 && Decode(rest) == Panic
    ensures ReadItems(Items(args) + rest, |args| + n) == Panic
  {
    hide Decode, Bulk, Items;
    if args == [] {
      NoItems();
      assert Items(args) + rest == rest;
    } else {
      ItemsFirst(args);
      var tail := Items(args[1..]) + rest;
      assert Items(args) + rest == Bulk(args[0]) + tail;
      DecodeBulkOf(args[0], tail);
      ReadItemsPanic(args[1..], n, rest);
      assert |args[1..]| + n == |args| + n - 1;
    }
  }

  lemma DecodeBulkOf(s: string, rest: string)
    requires |s| + 2 <= INT64_MAX
    ensures Decode(Bulk(s) + rest) == Ok(Str(s), rest)
  {
    hide Decode, Encode;
    RoundTrip(BulkString(s), rest);
  }

  lemma NegativeCount(rest: string)
    ensures Decode("*-1" + CRLF + rest) == Panic
  {
    hide ReadCount, ReadItems, Format;
    assert Format(-1) == "-1" by { FormatMinusOne(); }
    assert ("*-1" + CRLF + rest)[1..] == Format(-1) + CRLF + rest;
    ReadCountOf(-1, rest);
  }

  /**
   A tear inside an argument that is not the last, followed by a SET of the text *-1: recovery ends in a
   run-time error, so no server ever starts from this file.
   */
  lemma NeverStarts(before: Args, a: string, key: string, more: nat)
    requires var x := Swallowed(key, "*-1"); Storable(before + [a + x]) && more > 0 && |before| + 1 + more <= INT64_MAX
    ensures var x := Swallowed(key, "*-1");
            RecoverSpec(TornBody(before, a, |a + x|, more) + CommandBytes(["SET", key, "*-1"])) == Recovery([], false)
  {
    hide Items, CommandBytes, ReadItems, Format, Swallowed, Storable;
    var x := Swallowed(key, "*-1");
    var made, rest := before + [a + x], "*-1" + CRLF;
    SetSplits(key, "*-1");
    ItemsConcat(before, [a + x]);
    ItemsOne(a + x);
    var file := TornBody(before, a, |a + x|, more) + CommandBytes(["SET", key, "*-1"]);
    assert file == "*" + Format(|made| + more) + CRLF + (Items(made) + rest);
    NegativeCount("");
    assert rest + "" == rest;
    ReadItemsPanic(made, more, rest);
    ArrayPanics(|made| + more, Items(made) + rest);
  }

  lemma ArrayPanics(n: nat, rest: string)
    requires n <= INT64_MAX && ReadItems(rest, n) == Panic
    ensures Decode("*" + Format(n) + CRLF + rest) == Panic
  {
    hide ReadCount, ReadItems, Format;
    assert ("*" + Format(n) + CRLF + rest)[1..] == Format(n) + CRLF + rest;
    ReadCountOf(n, rest);
  }
}
