/**
 The growable string behind a stored value: a buffer, the first `len` characters of which are the
 text. Its capacity, not its length, is what the store counts.

 How far the language's own append grows a buffer is left open: any sufficient capacity will do.
 */
module Sds {

  const MAX_PREALLOC: nat := 1024 * 1024

  function Min(a: nat, b: nat): nat {
    if a < b then a else b
  }

  /** Copies `v` into the buffer from position `at` on; what is before it stays. */
  method Write(b: array<char>, at: nat, v: string)
    requires at + |v| <= b.Length
    modifies b
    ensures b[..at + |v|] == old(b[..at]) + v
  {
    for i := 0 to |v|
      invariant b[..at + i] == old(b[..at]) + v[..i]
    {
      b[at + i] := v[i];
      assert v[..i + 1] == v[..i] + [v[i]];
    }
    assert v[..|v|] == v;
  }

  class SDS {
    var mem: array<char>
    var len: nat

    ghost predicate Valid()
      reads this
    {
      len <= mem.Length
    }

    function Text(): (t: string)
      requires Valid()
      reads this, mem
      ensures |t| == len
    {
      mem[..len]
    }

    function Cap(): nat
      reads this
    {
      mem.Length
    }

    /** The objects the string owns. */
    ghost function Foot(): set<object>
      reads this
    {
      {this, mem}
    }

    constructor (s: string)
      ensures Valid() && Text() == s && Cap() == |s| && fresh(mem)
    {
      var b := new char[|s|](i requires 0 <= i < |s| => s[i]);
      mem, len := b, |s|;
      new;
      assert mem[..len] == s;
    }

    /** Moves the text to a new buffer of the given size. */
    method Move(size: nat)
      requires Valid() && len <= size
      modifies this`mem
      ensures Valid() && Text() == old(Text()) && Cap() == size && fresh(mem)
    {
      var b := new char[size];
      Write(b, 0, mem[..len]);
      assert b[..len] == mem[..len];
      mem := b;
    }

    /** Makes room for `needed` characters and as much again, at most a megabyte; the text stays. */
    method GrowTo(needed: nat)
      requires Valid() && len <= needed
      modifies this`mem
      ensures Valid() && Text() == old(Text()) && fresh(mem)
      ensures Cap() - needed == Min(needed, MAX_PREALLOC)
    {
      Move(if needed < MAX_PREALLOC then needed * 2 else needed + MAX_PREALLOC);
    }

    /** Appends in place if there is room; past one megabyte the capacity is exactly one megabyte ahead. */
    method AppendString(v: string)
      requires Valid()
      modifies this, mem
      ensures Valid() && Text() == old(Text()) + v && (mem == old(mem) || fresh(mem))
      ensures len > MAX_PREALLOC ==> Cap() == len + MAX_PREALLOC
      ensures len <= MAX_PREALLOC && len <= old(Cap()) ==> mem == old(mem)
    {
      ghost var text := Text();
      var needed := len + |v|;
      if needed > MAX_PREALLOC {
        GrowTo(needed);
      }
      if needed > mem.Length {
        var larger: nat :| larger >= needed;
        Move(larger);
      }
      Write(mem, len, v);
      len := needed;
    }
  }
}
