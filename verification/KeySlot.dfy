/**
 The slot of a key: the checksum of its hash tag, if it has a non-empty one, or of the whole key.
 */
module KeySlot {
  import opened Slot

  /** Bytes of a string; each character stands for one byte. */
  function Bytes(s: string): (b: seq<bv8>)
    ensures |b| == |s|
  {
    seq(|s|, i requires 0 <= i < |s| => (s[i] as int % 256) as bv8)
  }

  /** The first position of `c` at or after `from`, or -1. */
  function IndexFrom(s: string, c: char, from: nat): (r: int)
    ensures r == -1 || from <= r < |s|
    ensures r == -1 ==> forall i :: from <= i < |s| ==> s[i] != c
    ensures r >= 0 ==> s[r] == c && forall i :: from <= i < r ==> s[i] != c
    decreases |s| - from
  {
    if from >= |s| then -1 else if s[from] == c then from else IndexFrom(s, c, from + 1)
  }

  method IndexByte(s: string, c: char, from: nat) returns (r: int)
    ensures r == IndexFrom(s, c, from)
  {
    var i := from;
    while i < |s|
      invariant from <= i && IndexFrom(s, c, from) == IndexFrom(s, c, i)
    {
      if s[i] == c {
        return i;
      }
      i := i + 1;
    }
    return -1;
  }

  /** The part of a key that is hashed. */
  function HashedPart(key: string): string {
    var open := IndexFrom(key, '{', 0);
    if open < 0 then key
    else
      var close := IndexFrom(key, '}', open + 1);
      if close > open + 1 then key[open + 1..close] else key
  }

  /** The low fourteen bits of a checksum. */
  function LowBits(crc: bv16): (s: nat)
    ensures s < NUM_SLOTS
  {
    (crc & 0x3FFF) as int
  }

  function SlotOf(key: string): (s: nat)
    ensures s < NUM_SLOTS
  {
    LowBits(Checksum(Bytes(HashedPart(key))))
  }

  method KeyHashSlot(key: string, table: array<bv16>) returns (s: nat)
    requires table.Length == 256 && IsTable(table[..])
    ensures s == SlotOf(key)
  {
    hide Checksum, IsTable, LowBits, Bytes;
    var part := key;
    var open := IndexByte(key, '{', 0);
    if open >= 0 {
      var close := IndexByte(key, '}', open + 1);
      if close > open + 1 {
        part := key[open + 1..close];
      }
    }
    var crc := CRC16(Bytes(part), table);
    s := LowBits(crc);
  }

  /** `t` is the hash tag of `key`: the text between its first brace and the next closing brace. */
  ghost predicate Tagged(key: string, pre: string, t: string, post: string) {
    key == pre + "{" + t + "}" + post && '{' !in pre && '}' !in t
  }

  /** A key with a non-empty tag hashes by its tag alone. */
  lemma TaggedPart(key: string, pre: string, t: string, post: string)
    requires Tagged(key, pre, t, post) && t != ""
    ensures HashedPart(key) == t
  {
    var open, close := |pre|, |pre| + 1 + |t|;
    assert key[open] == '{' && key[close] == '}';
    assert forall i :: 0 <= i < open ==> key[i] == pre[i];
    assert forall i :: open < i < close ==> key[i] == t[i - open - 1];
    assert IndexFrom(key, '{', 0) == open;
    assert IndexFrom(key, '}', open + 1) == close;
    assert key[open + 1..close] == t;
  }

  /** A key hashes as a whole exactly when it has no non-empty tag. */
  lemma UntaggedPart(key: string)
    requires forall pre, t, post :: Tagged(key, pre, t, post) ==> t == ""
    ensures HashedPart(key) == key
  {
    var open := IndexFrom(key, '{', 0);
    if open >= 0 {
      var close := IndexFrom(key, '}', open + 1);
      if close > open + 1 {
        var pre, t, post := key[..open], key[open + 1..close], key[close + 1..];
        assert key == pre + "{" + t + "}" + post;
        assert Tagged(key, pre, t, post);
      }
    }
  }

  /** Keys sharing a non-empty tag share a slot, whatever surrounds the tag. */
  lemma SameTagSameSlot(a: string, b: string, t: string, pa: string, qa: string, pb: string, qb: string)
    requires t != "" && Tagged(a, pa, t, qa) && Tagged(b, pb, t, qb)
    ensures SlotOf(a) == SlotOf(b)
  {
    hide HashedPart, Tagged;
    TaggedPart(a, pa, t, qa);
    TaggedPart(b, pb, t, qb);
  }

  lemma WrapsTo(v: int, low: int, q: int)
    requires v == low + q * NUM_SLOTS && 0 <= low < NUM_SLOTS
    ensures v % NUM_SLOTS == low
  {}

  lemma Quarter0(crc: bv16)
    requires crc >> 14 == 0
    ensures crc as int % NUM_SLOTS == LowBits(crc)
  {
    assert crc == crc & 0x3FFF;
    WrapsTo(crc as int, LowBits(crc), 0);
  }

  lemma Quarter1(crc: bv16)
    requires crc >> 14 == 1
    ensures crc as int % NUM_SLOTS == LowBits(crc)
  {
    assert crc == (crc & 0x3FFF) | 0x4000;
    WrapsTo(crc as int, LowBits(crc), 1);
  }

  lemma Quarter2(crc: bv16)
    requires crc >> 14 == 2
    ensures crc as int % NUM_SLOTS == LowBits(crc)
  {
    assert crc == (crc & 0x3FFF) | 0x8000;
    WrapsTo(crc as int, LowBits(crc), 2);
  }

  lemma Quarter3(crc: bv16)
    requires crc >> 14 == 3
    ensures crc as int % NUM_SLOTS == LowBits(crc)
  {
    assert crc == (crc & 0x3FFF) | 0xC000;
    WrapsTo(crc as int, LowBits(crc), 3);
  }

  /** The low fourteen bits are the checksum modulo the number of slots. */
  lemma LowBitsModulo(crc: bv16)
    ensures LowBits(crc) == crc as int % NUM_SLOTS
  {
    hide LowBits;
    var hi := crc >> 14;
    assert hi <= 3;
    if hi == 0 {
      Quarter0(crc);
    } else if hi == 1 {
      Quarter1(crc);
    } else if hi == 2 {
      Quarter2(crc);
    } else {
      Quarter3(crc);
    }
  }
}
