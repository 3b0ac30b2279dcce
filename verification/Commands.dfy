/**
 Commands, the registered names, and which arguments of a command are keys.
 */
module Commands {
  import opened Numeral

  /** One parsed request; the name is upper case. */
  datatype Command = Command(name: string, args: seq<string>)

  /** Positions index the full argument vector with the name at 0; a negative last counts from the end. */
  datatype KeySpec = KeySpec(first: int, last: int, step: int)

  const ONE_KEY := KeySpec(1, 1, 1)
  const ALL_KEYS := KeySpec(1, -1, 1)
  const SECOND_ARG := KeySpec(2, 2, 1)
  const NO_KEYS := KeySpec(0, 0, 0)

  predicate OneKey(name: string) {
    || name == "GET" || name == "SET" || name == "EXPIRE" || name == "TTL" || name == "INCR"
    || name == "APPEND" || name == "PFADD"
  }

  predicate AllKeys(name: string) {
    name == "PFCOUNT" || name == "PFMERGE" || name == "DEL"
  }

  predicate Keyless(name: string) {
    name == "PING" || name == "INFO" || name == "DEBUG" || name == "CLUSTER" || name == "_EXPIRY"
  }

  /** The table of key positions; it has an entry for exactly the registered commands. */
  function SpecOf(name: string): Option<KeySpec> {
    if OneKey(name) then Some(ONE_KEY)
    else if AllKeys(name) then Some(ALL_KEYS)
    else if name == "OBJECT" then Some(SECOND_ARG)
    else if Keyless(name) then Some(NO_KEYS)
    else None
  }

  predicate IsKnown(name: string) {
    SpecOf(name).Some?
  }

  predicate IsWrite(name: string) {
    || name == "SET" || name == "EXPIRE" || name == "INCR" || name == "APPEND"
    || name == "PFADD" || name == "PFMERGE" || name == "DEL"
  }

  /** Commands that can grow memory. */
  predicate DeniedOnOom(name: string) {
    name == "SET" || name == "INCR" || name == "APPEND" || name == "PFADD" || name == "PFMERGE"
  }

  /** The keys of a command, read off the kind of its name. */
  function Keys(cmd: Command): seq<string> {
    if OneKey(cmd.name) then (if cmd.args == [] then [] else cmd.args[..1])
    else if AllKeys(cmd.name) then cmd.args
    else if cmd.name == "OBJECT" then (if |cmd.args| < 2 then [] else cmd.args[1..2])
    else []
  }

  /** The walk over key positions finds exactly the keys; too few arguments give fewer keys. */
  method KeysOf(cmd: Command) returns (keys: seq<string>, ok: bool)
    ensures ok == IsKnown(cmd.name)
    ensures keys == Keys(cmd)
  {
    hide OneKey, AllKeys, Keyless;
    var spec := SpecOf(cmd.name);
    if spec.None? {
      Unknown(cmd);
      return [], false;
    }
    if spec.value.first == 0 {
      Unkeyed(cmd);
      return [], true;
    }
    Keyed(cmd);
    var argc := |cmd.args| + 1;
    var last := if spec.value.last < 0 then argc + spec.value.last else spec.value.last;
    var pos := spec.value.first;
    keys := [];
    while pos <= last && pos < argc
      invariant spec.value.first <= pos && (pos == spec.value.first || (pos - 1 <= last && pos <= argc))
      invariant keys == if pos == spec.value.first then [] else cmd.args[spec.value.first - 1..pos - 1]
    {
      keys := keys + [cmd.args[pos - 1]];
      pos := pos + spec.value.step;
    }
    return keys, true;
  }

  lemma Unknown(cmd: Command)
    requires SpecOf(cmd.name).None?
    ensures Keys(cmd) == []
  {}

  lemma Unkeyed(cmd: Command)
    requires SpecOf(cmd.name).Some? && SpecOf(cmd.name).value.first == 0
    ensures Keys(cmd) == []
  {}

  lemma Keyed(cmd: Command)
    requires SpecOf(cmd.name).Some? && SpecOf(cmd.name).value.first != 0
    ensures var s := SpecOf(cmd.name).value;
            && s.step == 1 && (s.last == s.first || (s.first == 1 && s.last == -1))
            && var n := if s.last < 0 then |cmd.args| else s.last;
               Keys(cmd) == if |cmd.args| < s.first then [] else cmd.args[s.first - 1..if n <= |cmd.args| then n else |cmd.args|]
  {}

  function UpperChar(c: char): char {
    if 'a' <= c <= 'z' then (c as int - 32) as char else c
  }

  function ToUpper(s: string): (r: string)
    ensures |r| == |s|
  {
    seq(|s|, i requires 0 <= i < |s| => UpperChar(s[i]))
  }

  /** Names of write commands are their own upper case, so they survive the file. */
  lemma WriteNamesUpper(name: string)
    requires IsWrite(name)
    ensures ToUpper(name) == name && IsKnown(name)
  {
    assert forall i :: 0 <= i < |name| ==> !('a' <= name[i] <= 'z');
  }
}
