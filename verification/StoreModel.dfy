/**
 The store as a value: keys mapped to entries, and each operation as a function on that map. Sketch
 values appear through their registers only. The object-based store is proved against these
 functions, and whole-run properties are proved about them.
 */
module StoreModel {
  import opened Numeral
  import opened Clock
  import opened HllSparse
  import opened HllDense
  import opened HllLattice

  datatype Val =
    | IntV(n: int)
    | StrV(s: string, raw: bool)
    | HllV(regs: seq<nat>)

  /** A stored entry; `exp` is the moment it expires, if any. */
  datatype Entry = Entry(val: Val, exp: Option<int>, lru: nat)

  type Data = map<string, Entry>

  const EMBSTR_MAX: nat := 44

  predicate IsExpired(e: Entry, now: nat) {
    e.exp.Some? && now >= e.exp.value
  }

  /** How a string is stored: as an integer if it parses as one. */
  function Detect(value: string): Val {
    match Parse(value)
    case Some(n) => IntV(n)
    case None => StrV(value, |value| > EMBSTR_MAX)
  }

  /** What Get prints for a value; sketches read as missing. */
  function Text(v: Val): Option<string> {
    match v
    case IntV(n) => Some(Format(n))
    case StrV(s, _) => Some(s)
    case HllV(_) => None
  }

  // Operations

  function Set(d: Data, key: string, value: string, ttl: int, c: Moment): Data {
    d[key := Entry(Detect(value), if ttl > 0 then Some(c.now + ttl) else None, StampNew(c))]
  }

  /** Append does not look at expiry; on a sketch the source would fail at run time. */
  predicate CanAppend(d: Data, key: string) {
    key in d ==> !d[key].val.HllV?
  }

  function Append(d: Data, key: string, value: string, c: Moment): Data
    requires CanAppend(d, key) && c.roll >= 0.0 && c.decayTime >= 1
  {
    if key !in d then Set(d, key, value, 0, c)
    else d[key := Entry(StrV(Text(d[key].val).value + value, true), d[key].exp, StampAccess(c, d[key].lru))]
  }

  function AppendLength(d: Data, key: string, value: string): int
    requires CanAppend(d, key)
  {
    if key !in d then |value| else |Text(d[key].val).value| + |value|
  }

  /** A key as a reader finds it: missing if absent or expired. */
  predicate Present(d: Data, key: string, now: nat) {
    key in d && !IsExpired(d[key], now)
  }

  /** Reading a key drops it if it has expired. */
  function Drop(d: Data, key: string, now: nat): Data {
    if key in d && IsExpired(d[key], now) then d - {key} else d
  }

  function Touch(d: Data, key: string, c: Moment): Data
    requires c.roll >= 0.0 && c.decayTime >= 1
  {
    if Present(d, key, c.now) then d[key := d[key].(lru := StampAccess(c, d[key].lru))]
    else Drop(d, key, c.now)
  }

  function GetResult(d: Data, key: string, now: nat): Option<string> {
    if Present(d, key, now) then Text(d[key].val) else None
  }

  datatype IntRead = Missing | NotInteger | Number(n: int, exp: Option<int>)

  function GetIntResult(d: Data, key: string, now: nat): IntRead {
    if !Present(d, key, now) then Missing
    else if d[key].val.IntV? then Number(d[key].val.n, d[key].exp)
    else NotInteger
  }

  function TTLResult(d: Data, key: string, now: nat): int {
    if key !in d then -2
    else if d[key].exp.None? then -1
    else if d[key].exp.value <= now then -2
    else ((d[key].exp.value - now) / 1_000_000 + 500) / 1000
  }

  datatype Encoding = EncInt | EncEmbstr | EncRaw | EncHll

  function EncodingOf(v: Val): Encoding {
    match v
    case IntV(_) => EncInt
    case StrV(_, raw) => if raw then EncRaw else EncEmbstr
    case HllV(_) => EncHll
  }

  function EncodingResult(d: Data, key: string, now: nat): Option<Encoding> {
    if Present(d, key, now) then Some(EncodingOf(d[key].val)) else None
  }

  datatype FreqRead = NoLfu | NoKey | Freq(n: nat)

  function FreqResult(d: Data, key: string, c: Moment): FreqRead {
    if !IsLfu(c) then NoLfu
    else if Present(d, key, c.now) then Freq(Counter(d[key].lru))
    else NoKey
  }

  function AfterFreq(d: Data, key: string, c: Moment): Data {
    if IsLfu(c) then Drop(d, key, c.now) else d
  }

  predicate WrongType(d: Data, key: string, now: nat) {
    Present(d, key, now) && !d[key].val.HllV?
  }

  function PFAdd(d: Data, key: string, values: seq<string>, c: Moment, hash: Hash): Data
    requires c.roll >= 0.0 && c.decayTime >= 1
  {
    if WrongType(d, key, c.now) then d
    else if Present(d, key, c.now) then
      d[key := Entry(HllV(AddAll(d[key].val.regs, values, hash)), d[key].exp, StampAccess(c, d[key].lru))]
    else
      d[key := Entry(HllV(AddAll(Repeat(0, REGISTERS), values, hash)), None, StampNew(c))]
  }

  /** Whether PFADD reports a change: creating the key counts as one. */
  function PFAddChanged(d: Data, key: string, values: seq<string>, c: Moment, hash: Hash): bool
    requires !WrongType(d, key, c.now)
  {
    !Present(d, key, c.now) || AddAll(d[key].val.regs, values, hash) != d[key].val.regs
  }

  /** Sketches all have the full number of registers. */
  ghost predicate ValidData(d: Data) {
    forall k :: k in d && d[k].val.HllV? ==> |d[k].val.regs| == REGISTERS
  }

  /** The join of the sketches at the given keys; missing keys and other values are skipped. */
  function JoinAll(d: Data, keys: seq<string>): (r: seq<nat>)
    requires ValidData(d)
    ensures |r| == REGISTERS
  {
    if keys == [] then Repeat(0, REGISTERS)
    else
      var k := keys[|keys| - 1];
      var init := JoinAll(d, keys[..|keys| - 1]);
      if k in d && d[k].val.HllV? then Join(init, d[k].val.regs) else init
  }

  function PFMerge(d: Data, dest: string, sources: seq<string>, c: Moment): Data
    requires ValidData(d)
  {
    d[dest := Entry(HllV(JoinAll(d, [dest] + sources)), None, StampNew(c))]
  }

  function Delete(d: Data, keys: seq<string>): Data {
    d - (set k | k in keys)
  }

  /** Deleted keys that had not expired, counted as the loop meets them. */
  function DeleteCount(d: Data, keys: seq<string>, now: nat): nat {
    if keys == [] then 0
    else DeleteCount(d, keys[..|keys| - 1], now)
         + (if keys[|keys| - 1] !in keys[..|keys| - 1] && Present(d, keys[|keys| - 1], now) then 1 else 0)
  }

  // Expiry

  ghost function WithExpiry(d: Data): set<string> {
    set k | k in d && d[k].exp.Some?
  }

  /** `d'` is part of `d`. */
  ghost predicate Restriction(d': Data, d: Data) {
    forall k :: k in d' ==> k in d && d'[k] == d[k]
  }

  /** `d'` is `d` after some keys that have expired by `now` were removed. */
  ghost predicate Swept(d: Data, d': Data, now: nat) {
    Restriction(d', d) && forall k :: k in d && k !in d' ==> IsExpired(d[k], now)
  }
}
