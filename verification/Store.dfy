/**
 The store as it runs: a map of records whose strings and sketches are heap objects changed in
 place, a running byte counter and a key counter.

 `Valid` says that no object is reachable from two keys, that the byte counter is the sum of the
 entry sizes and that the key counter is the number of keys. Every method keeps it and is proved
 against the value model.
 */
module Store {
  import opened Numeral
  import opened Clock
  import opened MapSum
  import opened EvictionPool
  import opened Sds
  import opened Hll
  import opened HllSparse
  import opened HllDense
  import opened HllLattice
  import opened HllEstimate
  import M = StoreModel
  import opened StoreModel

  const ENTRY_OVERHEAD: nat := 64

  datatype Cell = IntCell(n: int) | StrCell(s: SDS, raw: bool) | HllCell(h: HLL)

  datatype Record = Record(cell: Cell, exp: Option<int>, lru: nat)

  /** The object a record refers to. */
  ghost function Head(r: Record): set<object> {
    match r.cell
    case IntCell(_) => {}
    case StrCell(s, _) => {s}
    case HllCell(h) => {h}
  }

  /** The heap objects a record owns. */
  ghost function Foot(r: Record): set<object>
    reads Head(r)
  {
    match r.cell
    case IntCell(_) => {}
    case StrCell(s, _) => s.Foot()
    case HllCell(h) => h.Foot()
  }

  ghost predicate ValidRecord(r: Record, o: Oracle)
    reads Head(r), Foot(r)
  {
    match r.cell
    case IntCell(n) => InInt64(n)
    case StrCell(s, _) => s.Valid()
    case HllCell(h) => h.Valid() && h.o == o
  }

  /** A record as a value. */
  ghost function View(r: Record, o: Oracle): Entry
    requires ValidRecord(r, o)
    reads Head(r), Foot(r)
  {
    var v := match r.cell
      case IntCell(n) => IntV(n)
      case StrCell(s, raw) => StrV(s.Text(), raw)
      case HllCell(h) => HllV(h.Regs());
    Entry(v, r.exp, r.lru)
  }

  function EntrySize(key: string, r: Record, ghost o: Oracle): int
    requires ValidRecord(r, o)
    reads Head(r), Foot(r)
  {
    var valueSize := match r.cell
      case IntCell(_) => 8
      case StrCell(s, _) => s.Cap()
      case HllCell(h) => h.Size();
    |key| + valueSize + ENTRY_OVERHEAD
  }

  predicate Expired(r: Record, now: nat) {
    r.exp.Some? && now >= r.exp.value
  }

  // Maps of records

  /** Records that own disjoint parts of `repr`. */
  ghost predicate Good(m: map<string, Record>, o: Oracle, repr: set<object>)
    reads repr
  {
    && IsLn(o.ln)
    && (forall k :: k in m ==> Head(m[k]) <= repr)
    && (forall k :: k in m ==> Foot(m[k]) <= repr)
    && (forall k :: k in m ==> ValidRecord(m[k], o))
    && (forall j, k :: j in m && k in m && j != k ==> Foot(m[j]) !! Foot(m[k]))
  }

  /** The map as a value. */
  ghost function Abs(m: map<string, Record>, o: Oracle, repr: set<object>): (d: Data)
    requires Good(m, o, repr)
    reads repr
    ensures d.Keys == m.Keys
    ensures forall k :: k in m ==> d[k] == View(m[k], o)
  {
    map k | k in m :: View(m[k], o)
  }

  ghost function Sizes(m: map<string, Record>, o: Oracle, repr: set<object>): (d: map<string, int>)
    requires Good(m, o, repr)
    reads repr
    ensures d.Keys == m.Keys
    ensures forall k :: k in m ==> d[k] == EntrySize(k, m[k], o)
  {
    map k | k in m :: EntrySize(k, m[k], o)
  }

  /** Owned records with their byte and key counters. */
  ghost predicate Balanced(m: map<string, Record>, o: Oracle, repr: set<object>, used: int, keys: int)
    reads repr
    ensures Balanced(m, o, repr, used, keys) ==> Good(m, o, repr) && IsLn(o.ln)
  {
    Good(m, o, repr) && used == Sum(Sizes(m, o, repr)) && keys == |m|
  }

  /** Taking a record out also takes its objects out of the owned set. */
  lemma GoodWithout(m: map<string, Record>, o: Oracle, repr: set<object>, key: string)
    requires Good(m, o, repr)
    ensures var rest := if key in m then repr - Foot(m[key]) else repr;
            && Good(m - {key}, o, rest)
            && Abs(m - {key}, o, rest) == Abs(m, o, repr) - {key}
            && Sizes(m - {key}, o, rest) == Sizes(m, o, repr) - {key}
  {
    FootHasHead(m);
    hide Head, Foot, ValidRecord, View, EntrySize;
  }

  lemma FootHasHead(m: map<string, Record>)
    ensures forall k :: k in m ==> Head(m[k]) <= Foot(m[k])
  {}

  lemma GoodMore(m: map<string, Record>, o: Oracle, repr: set<object>, key: string, r: Record)
    requires Good(m - {key}, o, repr) && ValidRecord(r, o) && Foot(r) !! repr
    requires Head(r) <= Foot(r)
    ensures Good(m[key := r], o, repr + Foot(r))
  {
    hide Head, Foot, ValidRecord;
    var rest := m - {key};
    assert forall k :: k in m && k != key ==> k in rest && rest[k] == m[k];
  }

  lemma AbsWith(m: map<string, Record>, o: Oracle, repr: set<object>, key: string, r: Record, more: set<object>)
    requires Good(m - {key}, o, repr) && ValidRecord(r, o) && Good(m[key := r], o, more)
    ensures Abs(m[key := r], o, more) == Abs(m - {key}, o, repr)[key := View(r, o)]
  {
    hide Good, Head, Foot, ValidRecord, View, EntrySize, Abs, Sizes;
    var rest := m - {key};
    assert forall k :: k in m && k != key ==> k in rest && rest[k] == m[k];
  }

  lemma SizesAfter(m: map<string, Record>, o: Oracle, repr: set<object>, key: string, r: Record, more: set<object>)
    requires Good(m - {key}, o, repr) && ValidRecord(r, o) && Good(m[key := r], o, more)
    ensures Sizes(m[key := r], o, more) == Sizes(m - {key}, o, repr)[key := EntrySize(key, r, o)]
  {
    hide Good, Head, Foot, ValidRecord, View, EntrySize, Abs, Sizes;
    var rest := m - {key};
    assert forall k :: k in m && k != key ==> k in rest && rest[k] == m[k];
  }

  lemma HeadInFoot(r: Record)
    ensures Head(r) <= Foot(r)
  {}

  /** Storing a record that shares nothing with the others. */
  lemma GoodWith(m: map<string, Record>, o: Oracle, repr: set<object>, key: string, r: Record)
    requires Good(m - {key}, o, repr) && ValidRecord(r, o) && Foot(r) !! repr
    ensures var more := repr + Foot(r);
            && Good(m[key := r], o, more)
            && Abs(m[key := r], o, more) == Abs(m - {key}, o, repr)[key := View(r, o)]
            && Sizes(m[key := r], o, more) == Sizes(m - {key}, o, repr)[key := EntrySize(key, r, o)]
  {
    hide Good, Head, Foot, ValidRecord, View, EntrySize, Abs, Sizes;
    HeadInFoot(r);
    GoodMore(m, o, repr, key, r);
    AbsWith(m, o, repr, key, r, repr + Foot(r));
    SizesAfter(m, o, repr, key, r, repr + Foot(r));
  }

  lemma GoodStamped(m: map<string, Record>, o: Oracle, repr: set<object>, key: string, lru: nat)
    requires Good(m, o, repr) && key in m
    ensures var m' := m[key := m[key].(lru := lru)];
            && Good(m', o, repr)
            && Abs(m', o, repr) == Abs(m, o, repr)[key := Abs(m, o, repr)[key].(lru := lru)]
            && Sizes(m', o, repr) == Sizes(m, o, repr)
  {
    var r, r' := m[key], m[key].(lru := lru);
    assert Foot(r') == Foot(r) && ValidRecord(r', o) && View(r', o) == View(r, o).(lru := lru);
    assert EntrySize(key, r', o) == EntrySize(key, r, o);
    hide Foot, ValidRecord, View, EntrySize;
  }

  lemma CardWithout(m: map<string, Record>, key: string)
    requires key in m
    ensures |m - {key}| == |m| - 1
  {
    assert m.Keys == (m - {key}).Keys + {key};
  }

  // Adding to a sketch

  lemma RaiseGrows(base: seq<nat>, regs: seq<nat>, index: nat, val: nat)
    requires AtLeast(regs, base)
    ensures AtLeast(Raise(regs, index, val), base)
    ensures Raise(regs, index, val) != base <==> regs != base || Raise(regs, index, val) != regs
  {
    var r := Raise(regs, index, val);
    if r != regs {
      assert r[index] > base[index];
    }
  }

  /** Adds values one by one; registers only grow, so any change shows at the end. */
  method AddValues(h: HLL, values: seq<string>) returns (changed: bool)
    requires h.Valid()
    modifies h, h.dense
    ensures h.Valid() && fresh(h.Foot() - old(h.Foot()))
    ensures h.Regs() == AddAll(old(h.Regs()), values, h.o.hash)
    ensures changed <==> h.Regs() != old(h.Regs())
  {
    hide HLL.Valid, HLL.Regs, PatLen, Raise, AtLeast;
    ghost var base := h.Regs();
    changed := false;
    AtLeastSelf(base);
    for i := 0 to |values|
      invariant h.Valid() && fresh(h.Foot() - old(h.Foot()))
      invariant h.Regs() == AddAll(base, values[..i], h.o.hash)
      invariant AtLeast(h.Regs(), base)
      invariant changed <==> h.Regs() != base
    {
      var p := PatLen(h.o.hash(values[i]));
      RaiseGrows(base, h.Regs(), p.index, p.rank);
      assert values[..i + 1][..i] == values[..i];
      var ch := h.Add(values[i]);
      changed := changed || ch;
    }
    assert values[..|values|] == values;
  }

  lemma AtLeastSelf(base: seq<nat>)
    ensures AtLeast(base, base)
  {}

  class Store {
    var data: map<string, Record>
    var usedMemory: int
    var keysStat: int
    const o: Oracle
    var evPool: Pool
    ghost var Repr: set<object>

    ghost predicate Valid()
      reads this`data, this`usedMemory, this`keysStat, this`Repr, Repr
      ensures Valid() ==> this !in Repr && Good(data, o, Repr) && IsLn(o.ln)
    {
      this !in Repr && Balanced(data, o, Repr, usedMemory, keysStat)
    }

    /** The abstract value of the store. */
    ghost function Value(): (d: Data)
      requires Valid()
      reads this`data, this`usedMemory, this`keysStat, this`Repr, Repr
      ensures d.Keys == data.Keys
    {
      Abs(data, o, Repr)
    }

    lemma ValueAt(key: string)
      requires Valid() && key in data
      ensures Value()[key].exp == data[key].exp && Value()[key].lru == data[key].lru
      ensures match data[key].cell
              case IntCell(n) => Value()[key].val == IntV(n)
              case StrCell(s, raw) => s.Valid() && Value()[key].val == StrV(s.Text(), raw)
              case HllCell(h) => h.Valid() && h.o == o && Value()[key].val == HllV(h.Regs())
    {
      GoodAt(data, o, Repr, key);
    }

    constructor (o: Oracle)
      requires IsLn(o.ln)
      ensures Valid() && fresh(Repr) && Value() == map[] && this.o == o && evPool == []
    {
      this.o, evPool := o, [];
      data, usedMemory, keysStat, Repr := map[], 0, 0, {};
      new;
      assert Sizes(data, o, Repr) == map[];
    }

    // The two halves of every write

    /** The accounting leaves out `key`, whose objects the store no longer owns. */
    ghost predicate Detached(key: string)
      reads this`data, this`usedMemory, this`keysStat, this`Repr, Repr
      ensures Detached(key) ==> this !in Repr && Good(data - {key}, o, Repr)
    {
      this !in Repr && Balanced(data - {key}, o, Repr, usedMemory, keysStat - 1)
    }

    ghost function Rest(key: string): (d: Data)
      requires Detached(key)
      reads this`data, this`usedMemory, this`keysStat, this`Repr, Repr
    {
      Abs(data - {key}, o, Repr)
    }

    /** First half for a new key: it is counted. */
    method CountKey(key: string)
      requires Valid() && key !in data
      modifies this`keysStat
      ensures Detached(key) && Rest(key) == old(Value()) == old(Value()) - {key}
    {
      hide Good, Balanced, Abs, IsLn;
      assert data - {key} == data;
      MissingKey(Value(), key);
      keysStat := keysStat + 1;
    }

    /** First half for an old key: its size is given back. */
    method Detach(key: string)
      requires Valid() && key in data
      modifies this`usedMemory, this`Repr
      ensures Detached(key) && Rest(key) == old(Value()) - {key}
      ensures Repr == old(Repr - Foot(data[key]))
    {
      hide Good, Foot, ValidRecord, View, EntrySize, Balanced, Abs, Sizes, IsLn;
      GoodAt(data, o, Repr, key);
      BalancedWithout(data, o, Repr, key, usedMemory, keysStat);
      ghost var rest := Repr - Foot(data[key]);
      usedMemory, Repr := usedMemory - EntrySize(key, data[key], o), rest;
    }

    /** Second half: the record is stored and its size counted. */
    method Put(key: string, r: Record)
      requires Detached(key) && ValidRecord(r, o) && Foot(r) !! Repr && this !in Foot(r)
      modifies this`data, this`usedMemory, this`keysStat, this`Repr
      ensures Valid() && Repr == old(Repr + Foot(r))
      ensures data == old(data)[key := r]
      ensures Value() == old(Rest(key)[key := View(r, o)])
    {
      hide Good, Foot, ValidRecord, View, EntrySize, Balanced, Abs, Sizes, IsLn;
      BalancedWith(data, o, Repr, key, r, usedMemory, keysStat - 1);
      ghost var repr := Repr + Foot(r);
      usedMemory, data, Repr := usedMemory + EntrySize(key, r, o), data[key := r], repr;
    }

    method RemovePresent(key: string)
      requires Valid() && key in data
      modifies this`data, this`usedMemory, this`keysStat, this`Repr
      ensures Valid() && Repr <= old(Repr)
      ensures Value() == old(Value()) - {key}
      ensures data == old(data) - {key}
    {
      hide Good, Foot, ValidRecord, View, EntrySize, Balanced, Abs, Sizes, IsLn;
      Detach(key);
      data, keysStat := data - {key}, keysStat - 1;
    }

    /** The single deletion path: both counters follow the map. */
    method RemoveKey(key: string)
      requires Valid()
      modifies this`data, this`usedMemory, this`keysStat, this`Repr
      ensures Valid() && Repr <= old(Repr)
      ensures Value() == old(Value()) - {key}
      ensures data == old(data) - {key}
    {
      hide Store.Valid, Good, Sum, Abs, Sizes, IsLn;
      if key !in data {
        assert data - {key} == data;
        MissingKey(Value(), key);
        return;
      }
      RemovePresent(key);
    }

    // Writes

    /** Replaces any old value and its expiry. */
    method Set(key: string, value: string, ttl: int, c: Moment)
      requires Valid()
      modifies this`data, this`usedMemory, this`keysStat, this`Repr
      ensures Valid() && fresh(Repr - old(Repr))
      ensures Value() == M.Set(old(Value()), key, value, ttl, c)
    {
      hide Store.Valid, Store.Detached, Store.Value, Store.Rest, Good, Sum, Abs, Sizes, Parse, StampNew, EntrySize;
      if key in data {
        Detach(key);
      } else {
        CountKey(key);
      }
      ghost var rest := Rest(key);
      var exp := if ttl > 0 then Some(c.now + ttl) else None;
      var n := Parse(value);
      var cell;
      if n.Some? {
        cell := IntCell(n.value);
      } else {
        var s := new SDS(value);
        cell := StrCell(s, |value| > EMBSTR_MAX);
      }
      assert Rest(key) == rest;
      Put(key, Record(cell, exp, StampNew(c)));
      Replaced(old(Value()), key, Value()[key]);
    }

    /** Appends in place; an integer becomes a string first. The expiry stays. */
    method Append(key: string, value: string, c: Moment) returns (length: int)
      requires Valid() && CanAppend(Value(), key) && ValidMoment(c)
      modifies this`data, this`usedMemory, this`keysStat, this`Repr, Repr
      ensures Valid() && fresh(Repr - old(Repr))
      ensures Value() == M.Append(old(Value()), key, value, c)
      ensures length == AppendLength(old(Value()), key, value)
    {
      hide Store.Valid, Store.Detached, Store.Rest, Good, Sum, Abs, Sizes, StampAccess, Format, EntrySize, HLL.Valid,
           HLL.Regs, SDS.Text;
      if key !in data {
        Set(key, value, 0, c);
        return |value|;
      }
      var r := data[key];
      GoodAt(data, o, Repr, key);
      Detach(key);
      ghost var rest := Rest(key);
      var buf;
      if r.cell.IntCell? {
        buf := new SDS(Format(r.cell.n));
      } else {
        buf := r.cell.s;
      }
      buf.AppendString(value);
      assert Rest(key) == rest;
      Put(key, Record(StrCell(buf, true), r.exp, StampAccess(c, r.lru)));
      Replaced(old(Value()), key, Value()[key]);
      return buf.len;
    }

    // Reads

    /** Moves the stamp of a live key; nothing else about it changes. */
    method Stamp(key: string, lru: nat)
      requires Valid() && key in data
      modifies this`data
      ensures Valid() && data == old(data)[key := old(data)[key].(lru := lru)]
      ensures Value() == old(Value())[key := old(Value())[key].(lru := lru)]
    {
      hide Good, Sum, Abs, Sizes, IsLn;
      GoodStamped(data, o, Repr, key, lru);
      assert data[key := data[key].(lru := lru)].Keys == data.Keys;
      data := data[key := data[key].(lru := lru)];
      assert Good(data, o, Repr);
    }

    /** The common part of reading: an expired key is dropped, a live one is stamped. */
    method Access(key: string, c: Moment) returns (found: bool)
      requires Valid() && ValidMoment(c)
      modifies this`data, this`usedMemory, this`keysStat, this`Repr
      ensures Valid() && Repr <= old(Repr)
      ensures found <==> Present(old(Value()), key, c.now)
      ensures Value() == Touch(old(Value()), key, c)
      ensures found ==> key in data && Value()[key].val == old(Value())[key].val
    {
      hide Store.Valid, Good, Sum, Abs, Sizes, StampAccess;
      if key !in data {
        return false;
      }
      GoodAt(data, o, Repr, key);
      if Expired(data[key], c.now) {
        RemoveKey(key);
        return false;
      }
      Stamp(key, StampAccess(c, data[key].lru));
      return true;
    }

    method Get(key: string, c: Moment) returns (r: Option<string>)
      requires Valid() && ValidMoment(c)
      modifies this`data, this`usedMemory, this`keysStat, this`Repr
      ensures Valid() && Repr <= old(Repr)
      ensures r == GetResult(old(Value()), key, c.now)
      ensures Value() == Touch(old(Value()), key, c)
    {
      hide Store.Valid, Good, Sum, Abs, Sizes, StampAccess, Touch, Format;
      var found := Access(key, c);
      if !found {
        return None;
      }
      GoodAt(data, o, Repr, key);
      match data[key].cell
      case IntCell(n) => return Some(Format(n));
      case StrCell(s, _) => return Some(s.Text());
      case HllCell(_) => return None;
    }

    method GetInt(key: string, c: Moment) returns (r: IntRead)
      requires Valid() && ValidMoment(c)
      modifies this`data, this`usedMemory, this`keysStat, this`Repr
      ensures Valid() && Repr <= old(Repr)
      ensures r == GetIntResult(old(Value()), key, c.now)
      ensures Value() == Touch(old(Value()), key, c)
    {
      hide Store.Valid, Good, Sum, Abs, Sizes, StampAccess;
      var found := Access(key, c);
      if !found {
        return Missing;
      }
      GoodAt(data, o, Repr, key);
      return if data[key].cell.IntCell? then Number(data[key].cell.n, data[key].exp) else NotInteger;
    }

    method TTL(key: string, now: nat) returns (seconds: int)
      requires Valid()
      modifies this`data, this`usedMemory, this`keysStat, this`Repr
      ensures Valid() && Repr <= old(Repr)
      ensures seconds == TTLResult(old(Value()), key, now)
      ensures Value() == Drop(old(Value()), key, now)
    {
      hide Store.Valid, Good, Sum, Abs, Sizes;
      if key !in data {
        return -2;
      }
      GoodAt(data, o, Repr, key);
      if data[key].exp.None? {
        return -1;
      }
      var remaining := data[key].exp.value - now;
      if remaining <= 0 {
        RemoveKey(key);
        return -2;
      }
      return (remaining / 1_000_000 + 500) / 1000;
    }

    method GetEncoding(key: string, now: nat) returns (r: Option<Encoding>)
      requires Valid()
      modifies this`data, this`usedMemory, this`keysStat, this`Repr
      ensures Valid() && Repr <= old(Repr)
      ensures r == EncodingResult(old(Value()), key, now)
      ensures Value() == Drop(old(Value()), key, now)
    {
      hide Store.Valid, Good, Sum, Abs, Sizes;
      if key !in data {
        return None;
      }
      GoodAt(data, o, Repr, key);
      if Expired(data[key], now) {
        RemoveKey(key);
        return None;
      }
      match data[key].cell
      case IntCell(_) => return Some(EncInt);
      case StrCell(_, raw) => return Some(if raw then EncRaw else EncEmbstr);
      case HllCell(_) => return Some(EncHll);
    }

    method GetFreq(key: string, c: Moment) returns (r: FreqRead)
      requires Valid()
      modifies this`data, this`usedMemory, this`keysStat, this`Repr
      ensures Valid() && Repr <= old(Repr)
      ensures r == FreqResult(old(Value()), key, c)
      ensures Value() == AfterFreq(old(Value()), key, c)
    {
      hide Store.Valid, Good, Sum, Abs, Sizes;
      if !IsLfu(c) {
        return NoLfu;
      }
      if key !in data {
        return NoKey;
      }
      GoodAt(data, o, Repr, key);
      if Expired(data[key], c.now) {
        RemoveKey(key);
        return NoKey;
      }
      return Freq(Counter(data[key].lru));
    }

    // Sketches

    /** Adds values to an existing sketch in place. */
    method GrowSketch(key: string, values: seq<string>, c: Moment) returns (changed: bool)
      requires Valid() && ValidMoment(c) && key in data && data[key].cell.HllCell?
      modifies this`data, this`usedMemory, this`keysStat, this`Repr, Repr
      ensures Valid() && fresh(Repr - old(Repr))
      ensures old(Value())[key].val.HllV?
      ensures var e, regs := old(Value())[key], AddAll(old(Value())[key].val.regs, values, o.hash);
              && Value() == old(Value())[key := Entry(HllV(regs), e.exp, StampAccess(c, e.lru))]
              && (changed <==> regs != e.val.regs)
    {
      hide Store.Valid, Store.Detached, Store.Rest, Good, Sum, Abs, Sizes, StampAccess, AddAll, EntrySize, HLL.Valid, HLL.Regs;
      GoodAt(data, o, Repr, key);
      var r := data[key];
      Detach(key);
      ghost var rest := Rest(key);
      changed := AddValues(r.cell.h, values);
      assert Rest(key) == rest;
      Put(key, Record(r.cell, r.exp, StampAccess(c, r.lru)));
      Replaced(old(Value()), key, Value()[key]);
    }

    /** Stores a fresh sketch of the given values. */
    method NewSketch(key: string, values: seq<string>, c: Moment)
      requires Valid() && key !in data
      modifies this`data, this`usedMemory, this`keysStat, this`Repr
      ensures Valid() && fresh(Repr - old(Repr))
      ensures Value() == old(Value())[key := Entry(HllV(AddAll(Repeat(0, REGISTERS), values, o.hash)), None, StampNew(c))]
    {
      hide Store.Valid, Store.Detached, Store.Rest, Good, Sum, Abs, Sizes, StampNew, AddAll, EntrySize, HLL.Valid, HLL.Regs;
      var h := new HLL(o);
      var _ := AddValues(h, values);
      CountKey(key);
      Put(key, Record(HllCell(h), None, StampNew(c)));
    }

    /** Adds values to a sketch, creating it if needed; nothing happens on other values. */
    method PFAdd(key: string, values: seq<string>, c: Moment) returns (changed: Option<bool>)
      requires Valid() && ValidMoment(c)
      modifies this`data, this`usedMemory, this`keysStat, this`Repr, Repr
      ensures Valid() && fresh(Repr - old(Repr))
      ensures Value() == M.PFAdd(old(Value()), key, values, c, o.hash)
      ensures changed.None? <==> WrongType(old(Value()), key, c.now)
      ensures changed.Some? ==> changed.value == PFAddChanged(old(Value()), key, values, c, o.hash)
    {
      hide Store.Valid, Good, Sum, Abs, Sizes, StampAccess, StampNew, AddAll, EntrySize;
      if key in data {
        GoodAt(data, o, Repr, key);
        if !Expired(data[key], c.now) {
          if !data[key].cell.HllCell? {
            return None;
          }
          var ch := GrowSketch(key, values, c);
          return Some(ch);
        }
        RemoveKey(key);
      }
      NewSketch(key, values, c);
      Replaced(old(Value()), key, Value()[key]);
      return Some(true);
    }

    /** The estimate of the sketch at a key, 0 for anything else; only the cache changes. */
    method PFCount(key: string) returns (n: int)
      requires Valid()
      modifies Repr
      ensures Valid() && Value() == old(Value())
      ensures key in Value() && Value()[key].val.HllV? ==>
                IsRegs(Value()[key].val.regs) && n == EstimateOf(Value()[key].val.regs, o.ln)
      ensures !(key in Value() && Value()[key].val.HllV?) ==> n == 0
    {
      hide Good, Sum, Abs, Sizes, HLL.Valid, HLL.Regs, EstimateOf, EntrySize;
      if key !in data {
        return 0;
      }
      GoodAt(data, o, Repr, key);
      if !data[key].cell.HllCell? {
        return 0;
      }
      n := CountSketch(key);
    }

    method CountSketch(key: string) returns (n: nat)
      requires Valid() && key in data && data[key].cell.HllCell?
      modifies Repr
      ensures Valid() && Value() == old(Value())
      ensures Value()[key].val.HllV? && IsRegs(Value()[key].val.regs)
      ensures n == EstimateOf(Value()[key].val.regs, o.ln)
    {
      hide Good, Sum, Abs, Sizes, HLL.Valid, HLL.Regs, EstimateOf, EntrySize, View, Foot, ValidRecord, IsRegs;
      n := RefreshCache(key);
    }

    /** Counting touches the sketch's cached count, which is no part of its value or its size. */
    method RefreshCache(key: string) returns (n: nat)
      requires this !in Repr && Good(data, o, Repr) && key in data && data[key].cell.HllCell?
      modifies Repr
      ensures Good(data, o, Repr) && Abs(data, o, Repr) == old(Abs(data, o, Repr))
      ensures Sizes(data, o, Repr) == old(Sizes(data, o, Repr))
      ensures var v := Abs(data, o, Repr)[key].val; v.HllV? && IsRegs(v.regs) && n == EstimateOf(v.regs, o.ln)
    {
      hide Good, Sum, Abs, Sizes, HLL.Valid, HLL.Regs, EstimateOf, EntrySize, View, Foot, ValidRecord, IsRegs;
      var h := data[key].cell.h;
      ghost var r := data[key];
      SketchAt(data, o, Repr, key);
      SketchRecord(r, o, key);
      GoodAt(data, o, Repr, key);
      ghost var foot, d, sizes := Foot(r), Abs(data, o, Repr), Sizes(data, o, Repr);
      GoodWithout(data, o, Repr, key);
      n := h.Count();
      assert Good(data - {key}, o, Repr - foot);
      assert Abs(data - {key}, o, Repr - foot) == d - {key};
      assert Sizes(data - {key}, o, Repr - foot) == sizes - {key};
      SketchRecord(r, o, key);
      GoodWith(data, o, Repr - foot, key, r);
      assert data[key := r] == data && Repr - foot + foot == Repr;
      Unchanged(d, Abs(data, o, Repr), key, sizes, Sizes(data, o, Repr));
    }

    lemma SketchesValid()
      requires Valid()
      ensures ValidData(Value())
    {
      AllSketchesValid(data, o, Repr);
    }

    /** Joins the sketches at the given keys into a fresh one. */
    method JoinSketches(keys: seq<string>) returns (acc: HLL)
      requires Valid()
      ensures ValidData(Value()) && fresh(acc.Foot()) && acc.Valid() && acc.o == o
      ensures acc.Regs() == JoinAll(Value(), keys)
    {
      hide Store.Valid, Store.Value, Good, Sum, Abs, Sizes, HLL.Valid, HLL.Regs, IsLn, Join, ValidData;
      SketchesValid();
      acc := new HLL(o);
      for i := 0 to |keys|
        invariant fresh(acc.Foot()) && acc.Valid() && acc.o == o
        invariant acc.Regs() == JoinAll(Value(), keys[..i])
      {
        assert keys[..i + 1][..i] == keys[..i];
        if keys[i] in data {
          ValueAt(keys[i]);
          if data[keys[i]].cell.HllCell? {
            var _ := acc.Merge(data[keys[i]].cell.h);
          }
        }
      }
      assert keys[..|keys|] == keys;
    }

    /** Stores the union of the sketches at dest and the sources under dest, without its expiry. */
    method PFMerge(dest: string, sources: seq<string>, c: Moment)
      requires Valid()
      modifies this`data, this`usedMemory, this`keysStat, this`Repr
      ensures Valid() && fresh(Repr - old(Repr))
      ensures ValidData(old(Value())) && Value() == M.PFMerge(old(Value()), dest, sources, c)
    {
      hide Store.Valid, Store.Detached, Store.Rest, Good, Sum, Abs, Sizes, StampNew, EntrySize, HLL.Valid, HLL.Regs, JoinAll, ValidData;
      var acc := JoinSketches([dest] + sources);
      if dest in data {
        Detach(dest);
      } else {
        CountKey(dest);
      }
      Put(dest, Record(HllCell(acc), None, StampNew(c)));
      Replaced(old(Value()), dest, Value()[dest]);
    }

    /** Removes keys; those that had already expired are removed but not counted. */
    method Delete(keys: seq<string>, now: nat) returns (removed: nat)
      requires Valid()
      modifies this`data, this`usedMemory, this`keysStat, this`Repr
      ensures Valid() && Repr <= old(Repr)
      ensures Value() == M.Delete(old(Value()), keys)
      ensures removed == DeleteCount(old(Value()), keys, now)
    {
      hide Store.Valid, Good, Sum, Abs, Sizes;
      ghost var d := Value();
      removed := 0;
      assert M.Delete(d, keys[..0]) == d;
      for i := 0 to |keys|
        invariant Valid() && Repr <= old(Repr)
        invariant Value() == M.Delete(d, keys[..i])
        invariant removed == DeleteCount(d, keys[..i], now)
      {
        DeleteNext(d, keys, i, now);
        if keys[i] in data {
          GoodAt(data, o, Repr, keys[i]);
          if !Expired(data[keys[i]], now) {
            removed := removed + 1;
          }
        }
        RemoveKey(keys[i]);
      }
      assert keys[..|keys|] == keys;
    }

    /**
     One round of active expiry over the keys in any order: at most twenty keys with an expiry are
     looked at, only expired ones go, and none stays if no more than twenty have an expiry.
     */
    method DeleteExpired(now: nat) returns (deleted: nat)
      requires Valid()
      modifies this`data, this`usedMemory, this`keysStat, this`Repr
      ensures Valid() && Repr <= old(Repr)
      ensures Swept(old(Value()), Value(), now)
      ensures deleted == |old(Value())| - |Value()| && deleted <= SWEEP_MAX
      ensures |WithExpiry(old(Value()))| <= SWEEP_MAX ==> forall k :: k in Value() ==> !IsExpired(Value()[k], now)
    {
      hide Store.Valid, Store.Value, Good, Sum, Abs, Sizes, Sweeping, Swept, WithExpiry, IsLn;
      ghost var d := Value();
      ghost var seen: set<string> := {};
      deleted := 0;
      var checked := 0;
      var rest := data.Keys;
      SweepStart(d, now);
      while rest != {} && checked < SWEEP_MAX
        invariant Valid() && Repr <= old(Repr) && rest <= data.Keys
        invariant Sweeping(d, Value(), now, rest, seen, deleted)
        invariant deleted <= checked == |seen| <= SWEEP_MAX
        decreases |rest|
      {
        var key :| key in rest;
        ValueAt(key);
        SweepNext(d, Value(), now, rest, seen, deleted, key);
        rest := rest - {key};
        if data[key].exp.Some? {
          checked, seen := checked + 1, seen + {key};
          if Expired(data[key], now) {
            RemoveKey(key);
            deleted := deleted + 1;
          }
        }
      }
      SweepEnd(d, Value(), now, rest, seen, deleted);
    }

    // Eviction

    /** Up to `n` stored keys, picked in any order. */
    method SampleKeys(n: nat) returns (keys: seq<string>)
      requires n > 0
      ensures |keys| <= n && (data != map[] ==> keys != [])
      ensures forall i :: 0 <= i < |keys| ==> keys[i] in data
    {
      keys := [];
      var rest := data.Keys;
      while rest != {} && |keys| < n
        invariant rest <= data.Keys && |keys| <= n && (keys == [] ==> rest == data.Keys)
        invariant forall i :: 0 <= i < |keys| ==> keys[i] in data
        decreases |rest|
      {
        var k :| k in rest;
        keys, rest := keys + [k], rest - {k};
      }
    }

    /** Higher is more evictable: idle time, or how cold the access counter is. */
    function EvictionScore(r: Record, c: Moment): int {
      if IsLfu(c) then 255 - Counter(r.lru) else LruIdle(LruClock(c.now), r.lru)
    }

    /** Offers sampled keys to the pool. Either one is in it afterwards, or it was full and stays as it was. */
    method OfferSamples(keys: seq<string>, c: Moment)
      requires PoolOk(evPool) && keys != [] && forall i :: 0 <= i < |keys| ==> keys[i] in data
      modifies this`evPool
      ensures PoolOk(evPool)
      ensures (exists j :: 0 <= j < |evPool| && evPool[j].key in data)
              || (evPool == old(evPool) && |evPool| == POOL_SIZE)
    {
      hide PoolOk, LetIn;
      PoolBound(evPool);
      for i := 0 to |keys|
        invariant PoolOk(evPool)
        invariant (exists j :: 0 <= j < |evPool| && evPool[j].key in data)
                  || (evPool == old(evPool) && (i > 0 ==> |evPool| >= POOL_SIZE))
      {
        var score := EvictionScore(data[keys[i]], c);
        var q := PoolInsert(evPool, keys[i], score);
        if Candidate(keys[i], score) in q {
          ghost var j :| 0 <= j < |q| && q[j] == Candidate(keys[i], score);
          assert q[j].key in data;
        }
        evPool := q;
      }
      PoolBound(evPool);
    }

    /**
     Takes candidates off the evictable end until one is still stored, and evicts that one: the
     live candidate with the highest recorded score. Returns its position, or -1 if none was live.
     */
    method EvictFromPool() returns (j: int)
      requires Valid() && PoolOk(evPool)
      modifies this`data, this`usedMemory, this`keysStat, this`Repr, this`evPool
      ensures Valid() && Repr <= old(Repr) && PoolOk(evPool)
      ensures j == -1 ==> Value() == old(Value()) && data == old(data) && evPool == []
                          && forall i :: 0 <= i < |old(evPool)| ==> old(evPool)[i].key !in old(data)
      ensures j != -1 ==> LastLive(old(evPool), old(data).Keys, j) && evPool == old(evPool)[..j]
                          && data == old(data) - {old(evPool)[j].key}
                          && Value() == old(Value()) - {old(evPool)[j].key}
                          && forall i :: 0 <= i < |old(evPool)| && old(evPool)[i].key in old(data) ==>
                               old(evPool)[i].score <= old(evPool)[j].score
    {
      hide Store.Valid, Store.Value, Good, Sum, Abs, Sizes, IsLn;
      ghost var pool := evPool;
      j := |evPool| - 1;
      while j >= 0
        invariant -1 <= j < |pool| && evPool == pool[..j + 1]
        invariant Valid() && Repr == old(Repr) && Value() == old(Value()) && data == old(data)
        invariant forall i :: j < i < |pool| ==> pool[i].key !in data
      {
        var cand := evPool[j];
        evPool := evPool[..j] + evPool[j + 1..];
        assert evPool == pool[..j];
        if cand.key in data {
          LastLiveIsHighest(pool, data.Keys, j);
          RemoveKey(cand.key);
          return;
        }
        j := j - 1;
      }
    }

    /**
     One round: sample, pool, evict. A round that evicts nothing started with a full pool of keys
     that are gone, and empties it.
     */
    method EvictionRound(samples: nat, c: Moment)
      requires Valid() && PoolOk(evPool) && data != map[] && samples > 0
      modifies this`data, this`usedMemory, this`keysStat, this`Repr, this`evPool
      ensures Valid() && Repr <= old(Repr) && PoolOk(evPool)
      ensures (exists k :: k in old(data) && data == old(data) - {k} && Value() == old(Value()) - {k})
              || (data == old(data) && Value() == old(Value()) && evPool == []
                  && |old(evPool)| == POOL_SIZE && forall i :: 0 <= i < POOL_SIZE ==> old(evPool)[i].key !in data)
    {
      hide Store.Valid, Store.Value, Good, Sum, Abs, Sizes, IsLn, PoolOk;
      var keys := SampleKeys(samples);
      OfferSamples(keys, c);
      ghost var pool := evPool;
      var j := EvictFromPool();
      if j != -1 {
        assert pool[j].key in old(data);
      }
    }

    /**
     Frees keys until the counter is at or below the limit. It terminates from every state, ends
     at or below the limit, and does nothing but remove keys.
     */
    method PerformEvictions(samples: int, maxBytes: int, c: Moment)
      requires Valid() && PoolOk(evPool)
      modifies this`data, this`usedMemory, this`keysStat, this`Repr, this`evPool
      ensures Valid() && Repr <= old(Repr) && PoolOk(evPool)
      ensures maxBytes > 0 ==> usedMemory <= maxBytes
      ensures Restriction(Value(), old(Value()))
      ensures forall k :: k in data ==> k in old(data) && data[k] == old(data)[k]
      ensures maxBytes <= 0 || old(usedMemory) <= maxBytes ==> Value() == old(Value())
    {
      hide Store.Valid, Store.Value, Good, Sum, Abs, Sizes, IsLn, PoolOk;
      if maxBytes <= 0 {
        return;
      }
      var n := if samples <= 0 then 5 else samples;
      while usedMemory > maxBytes
        invariant Valid() && Repr <= old(Repr) && PoolOk(evPool)
        invariant Restriction(Value(), old(Value()))
        invariant forall k :: k in data ==> k in old(data) && data[k] == old(data)[k]
        invariant old(usedMemory) <= maxBytes ==> Value() == old(Value()) && usedMemory == old(usedMemory)
        decreases |data|, |evPool|
      {
        if |data| == 0 {
          break;
        }
        ghost var before, keys := Value(), data;
        EvictionRound(n, c);
        Fewer(keys, data);
      }
      EmptyIsFree();
    }

    lemma LoneSize(key: string)
      requires Valid() && data.Keys == {key}
      ensures ValidRecord(data[key], o) && usedMemory == EntrySize(key, data[key], o)
      ensures this !in Head(data[key]) && this !in Foot(data[key])
    {
      hide Good, Abs, EntrySize, ValidRecord, Foot, Head;
      GoodAt(data, o, Repr, key);
      HeadAt(data, o, Repr, key);
      var sizes := Sizes(data, o, Repr);
      SumAt(sizes, key);
      assert sizes - {key} == map[];
    }

    lemma EmptyIsFree()
      requires Valid()
      ensures data == map[] ==> usedMemory == 0
    {
      if data == map[] {
        assert Sizes(data, o, Repr) == map[];
      }
    }
  }

  /**
   A lone key is evicted exactly if its entry alone is over the limit, whether or not it has an expiry and
   whatever the policy: volatile-lfu, too, evicts keys without one.
   */
  method EvictLoneKey(s: Store, key: string, samples: int, maxBytes: int, c: Moment)
    requires s.Valid() && PoolOk(s.evPool) && s.data.Keys == {key} && maxBytes > 0 && ValidRecord(s.data[key], s.o)
    modifies s`data, s`usedMemory, s`keysStat, s`Repr, s`evPool
    ensures s.Valid()
    ensures key in s.data <==> old(EntrySize(key, s.data[key], s.o)) <= maxBytes
  {
    hide Store.Valid, Good, Sum, Abs, Sizes, IsLn, PoolOk, Restriction, HLL.Valid;
    s.LoneSize(key);
    ghost var keys, r := s.Value().Keys, s.data[key];
    s.PerformEvictions(samples, maxBytes, c);
    if key in s.data {
      assert s.data.Keys == {key} && s.data[key] == r;
      assert EntrySize(key, r, s.o) == old(EntrySize(key, s.data[key], s.o));
      s.LoneSize(key);
    } else {
      assert s.Value().Keys != keys;
    }
  }

  lemma PoolBound(p: Pool)
    requires PoolOk(p)
    ensures |p| <= POOL_SIZE
  {}

  lemma Fewer(a: map<string, Record>, b: map<string, Record>)
    ensures forall k :: k in a && b == a - {k} ==> |b| < |a|
  {
    forall k | k in a && b == a - {k}
      ensures |b| < |a|
    {
      CardWithout(a, k);
    }
  }

  const SWEEP_MAX: nat := 20

  /** A sweep under way: `rest` are the keys not yet visited, `seen` those visited that can expire. */
  ghost predicate Sweeping(d: Data, d': Data, now: nat, rest: set<string>, seen: set<string>, deleted: nat) {
    && Swept(d, d', now) && rest <= d'.Keys
    && deleted == |d| - |d'|
    && seen <= WithExpiry(d) && seen !! rest
    && forall k :: k in d' && k !in rest ==> !IsExpired(d'[k], now)
  }

  lemma SweepStart(d: Data, now: nat)
    ensures Sweeping(d, d, now, d.Keys, {}, 0)
  {}

  lemma SweepNext(d: Data, d': Data, now: nat, rest: set<string>, seen: set<string>, deleted: nat, key: string)
    requires Sweeping(d, d', now, rest, seen, deleted) && key in rest
    ensures key in d' && key !in seen
    ensures d'[key].exp.None? ==> Sweeping(d, d', now, rest - {key}, seen, deleted)
    ensures d'[key].exp.Some? && !IsExpired(d'[key], now) ==> Sweeping(d, d', now, rest - {key}, seen + {key}, deleted)
    ensures IsExpired(d'[key], now) ==> Sweeping(d, d' - {key}, now, rest - {key}, seen + {key}, deleted + 1)
  {
    assert d'.Keys == (d' - {key}).Keys + {key};
    assert d'[key].exp.Some? ==> key in WithExpiry(d);
  }

  lemma SweepEnd(d: Data, d': Data, now: nat, rest: set<string>, seen: set<string>, deleted: nat)
    requires Sweeping(d, d', now, rest, seen, deleted)
    requires rest == {} || |seen| >= SWEEP_MAX
    ensures Swept(d, d', now) && deleted == |d| - |d'|
    ensures |WithExpiry(d)| <= SWEEP_MAX ==> forall k :: k in d' ==> !IsExpired(d'[k], now)
  {
    if |WithExpiry(d)| <= SWEEP_MAX && rest != {} {
      SubsetFull(seen, WithExpiry(d));
      forall k | k in d'
        ensures !IsExpired(d'[k], now)
      {
        if k in rest {
          assert k !in WithExpiry(d);
        }
      }
    }
  }

  lemma AllSketchesValid(m: map<string, Record>, o: Oracle, repr: set<object>)
    requires Good(m, o, repr)
    ensures ValidData(Abs(m, o, repr))
  {}

  lemma DeleteNext(d: Data, keys: seq<string>, i: nat, now: nat)
    requires i < |keys|
    ensures M.Delete(d, keys[..i + 1]) == M.Delete(d, keys[..i]) - {keys[i]}
    ensures keys[i] in M.Delete(d, keys[..i]) <==> keys[i] in d && keys[i] !in keys[..i]
    ensures DeleteCount(d, keys[..i + 1], now)
         == DeleteCount(d, keys[..i], now) + (if keys[i] !in keys[..i] && Present(d, keys[i], now) then 1 else 0)
  {
    assert keys[..i + 1][..i] == keys[..i];
    assert keys[..i + 1] == keys[..i] + [keys[i]];
  }

  lemma SubsetFull(a: set<string>, b: set<string>)
    requires a <= b && |b| <= |a|
    ensures a == b
  {
    assert b == a + (b - a);
  }

  lemma SketchRecord(r: Record, o: Oracle, key: string)
    requires r.cell.HllCell? && r.cell.h.Valid() && r.cell.h.o == o
    ensures ValidRecord(r, o) && Foot(r) == r.cell.h.Foot()
    ensures View(r, o) == Entry(HllV(r.cell.h.Regs()), r.exp, r.lru)
    ensures EntrySize(key, r, o) == |key| + r.cell.h.Size() + ENTRY_OVERHEAD
  {}

  lemma Unchanged(d: Data, d': Data, key: string, sizes: map<string, int>, sizes': map<string, int>)
    requires key in d && d' == (d - {key})[key := d[key]]
    requires key in sizes && sizes' == (sizes - {key})[key := sizes[key]]
    ensures d' == d && sizes' == sizes
  {}

  lemma MissingKey(d: Data, key: string)
    requires key !in d
    ensures d - {key} == d
  {}

  lemma Replaced(d: Data, key: string, e: Entry)
    ensures (d - {key})[key := e] == d[key := e]
  {}

  lemma SizesWith(m: map<string, Record>, o: Oracle, repr: set<object>, key: string, size: int)
    requires Good(m - {key}, o, repr)
    ensures Sum(Sizes(m - {key}, o, repr)[key := size]) == Sum(Sizes(m - {key}, o, repr)) + size
  {
    hide Good, Sum;
    var sizes := Sizes(m - {key}, o, repr);
    SumStore(sizes, key, size);
    assert sizes - {key} == sizes;
  }

  lemma BalancedWithout(m: map<string, Record>, o: Oracle, repr: set<object>, key: string, used: int, keys: int)
    requires Balanced(m, o, repr, used, keys) && key in m
    requires ValidRecord(m[key], o)
    ensures var rest := repr - Foot(m[key]);
            && Balanced(m - {key}, o, rest, used - EntrySize(key, m[key], o), keys - 1)
            && Abs(m - {key}, o, rest) == Abs(m, o, repr) - {key}
  {
    hide Good, Foot, ValidRecord, View, EntrySize, Sum, Abs, Sizes, IsLn;
    GoodWithout(m, o, repr, key);
    GoodAt(m, o, repr, key);
    SumAt(Sizes(m, o, repr), key);
    CardWithout(m, key);
  }

  lemma BalancedWith(m: map<string, Record>, o: Oracle, repr: set<object>, key: string, r: Record, used: int, keys: int)
    requires Balanced(m - {key}, o, repr, used, keys) && ValidRecord(r, o) && Foot(r) !! repr
    ensures var more := repr + Foot(r);
            && Balanced(m[key := r], o, more, used + EntrySize(key, r, o), keys + 1)
            && Abs(m[key := r], o, more) == Abs(m - {key}, o, repr)[key := View(r, o)]
  {
    hide Good, Foot, ValidRecord, View, EntrySize, Sum, Abs, Sizes, IsLn;
    GoodWith(m, o, repr, key, r);
    SizesWith(m, o, repr, key, EntrySize(key, r, o));
    CardWithout(m[key := r], key);
    assert m[key := r] - {key} == m - {key};
  }

  lemma SketchAt(m: map<string, Record>, o: Oracle, repr: set<object>, key: string)
    requires Good(m, o, repr) && key in m && m[key].cell.HllCell?
    ensures m[key].cell.h.Valid() && m[key].cell.h.o == o
  {}

  lemma HeadAt(m: map<string, Record>, o: Oracle, repr: set<object>, key: string)
    requires Good(m, o, repr) && key in m
    ensures Head(m[key]) <= repr
  {}

  lemma GoodAt(m: map<string, Record>, o: Oracle, repr: set<object>, key: string)
    requires Good(m, o, repr) && key in m
    ensures ValidRecord(m[key], o) && Foot(m[key]) <= repr
    ensures Sizes(m, o, repr)[key] == EntrySize(key, m[key], o)
    ensures Abs(m, o, repr)[key] == View(m[key], o)
  {}
}
