/**
 Active expiry cannot be observed: removing keys that have expired by `now`, before an operation at
 `now`, changes neither what the operation answers nor the live data it leaves.

 `Swept(d, d', now)` relates a store to the same store with some expired keys gone. Each lemma says
 that an operation gives equal answers on both and again leaves such a pair.
 */
module Sweep {
  import opened Numeral
  import opened Clock
  import opened HllDense
  import opened HllLattice
  import opened HllEstimate
  import opened Hll
  import W = Handlers
  import M = StoreModel
  import opened StoreModel

  /** What readers at `now` can see. */
  ghost function Live(d: Data, now: nat): Data {
    map k | k in d && !IsExpired(d[k], now) :: d[k]
  }

  /** Sweeping keeps exactly the live data. */
  lemma SweptLive(d: Data, d': Data, now: nat)
    ensures Swept(d, d', now) ==> Live(d, now) == Live(d', now)
    ensures Restriction(d', d) && Live(d, now) == Live(d', now) ==> Swept(d, d', now)
  {
    if Restriction(d', d) && Live(d, now) == Live(d', now) {
      forall k | k in d && k !in d'
        ensures IsExpired(d[k], now)
      {
        assert k !in Live(d', now);
      }
    }
  }

  lemma SamePresence(d: Data, d': Data, now: nat, key: string)
    requires Swept(d, d', now)
    ensures Present(d, key, now) == Present(d', key, now)
    ensures Present(d, key, now) ==> d[key] == d'[key]
  {}

  /** The answers of the reading operations are the same before and after a sweep. */
  lemma SweepAnswers(d: Data, d': Data, c: Moment, key: string)
    requires Swept(d, d', c.now)
    ensures GetResult(d, key, c.now) == GetResult(d', key, c.now)
    ensures GetIntResult(d, key, c.now) == GetIntResult(d', key, c.now)
    ensures TTLResult(d, key, c.now) == TTLResult(d', key, c.now)
    ensures EncodingResult(d, key, c.now) == EncodingResult(d', key, c.now)
    ensures FreqResult(d, key, c) == FreqResult(d', key, c)
  {
    SamePresence(d, d', c.now, key);
  }

  /** The reading operations leave swept pairs: stamped or dropped alike. */
  lemma SweepReads(d: Data, d': Data, c: Moment, key: string)
    requires Swept(d, d', c.now) && ValidMoment(c)
    ensures Swept(Touch(d, key, c), Touch(d', key, c), c.now)
    ensures Swept(Drop(d, key, c.now), Drop(d', key, c.now), c.now)
    ensures Swept(AfterFreq(d, key, c), AfterFreq(d', key, c), c.now)
  {
    hide StampAccess;
    SamePresence(d, d', c.now, key);
  }

  lemma {:induction false} SweepDeleteCount(d: Data, d': Data, now: nat, keys: seq<string>)
    requires Swept(d, d', now)
    ensures DeleteCount(d, keys, now) == DeleteCount(d', keys, now)
  {
    if keys != [] {
      SweepDeleteCount(d, d', now, keys[..|keys| - 1]);
      SamePresence(d, d', now, keys[|keys| - 1]);
    }
  }

  lemma SweepDelete(d: Data, d': Data, now: nat, keys: seq<string>)
    requires Swept(d, d', now)
    ensures DeleteCount(d, keys, now) == DeleteCount(d', keys, now)
    ensures Swept(M.Delete(d, keys), M.Delete(d', keys), now)
  {
    SweepDeleteCount(d, d', now, keys);
  }

  lemma SweepPFAdd(d: Data, d': Data, c: Moment, key: string, values: seq<string>, hash: Hash)
    requires Swept(d, d', c.now) && ValidMoment(c)
    ensures WrongType(d, key, c.now) == WrongType(d', key, c.now)
    ensures !WrongType(d, key, c.now) ==>
              PFAddChanged(d, key, values, c, hash) == PFAddChanged(d', key, values, c, hash)
    ensures Swept(M.PFAdd(d, key, values, c, hash), M.PFAdd(d', key, values, c, hash), c.now)
  {
    hide StampAccess, StampNew, AddAll;
    SamePresence(d, d', c.now, key);
  }

  lemma SweepSet(d: Data, d': Data, c: Moment, key: string, value: string, ttl: int)
    requires Swept(d, d', c.now)
    ensures Swept(M.Set(d, key, value, ttl, c), M.Set(d', key, value, ttl, c), c.now)
  {
    hide StampNew, Parse;
  }

  // Operations that do not look at expiry can tell a swept store from an unswept one

  /**
   APPEND answers the same exactly if its key was not swept away or held the empty string, and leaves
   the same live data exactly if its key was not swept away: it writes to an expired key that is still
   there, where it would create one that is not.
   */
  lemma SweepAppend(d: Data, d': Data, c: Moment, key: string, value: string)
    requires Swept(d, d', c.now) && CanAppend(d, key) && ValidMoment(c)
    ensures AppendLength(d, key, value) == AppendLength(d', key, value)
       <==> !(key in d && key !in d') || Text(d[key].val).value == ""
    ensures Swept(M.Append(d, key, value, c), M.Append(d', key, value, c), c.now) <==> !(key in d && key !in d')
  {
    hide StampAccess, StampNew, Detect, Text;
    var a, b := M.Append(d, key, value, c), M.Append(d', key, value, c);
    if key in d && key !in d' {
      assert key in b && a[key] != b[key];
    }
  }

  /** PFCOUNT answers the same exactly if its key was not swept away with a sketch that counts something. */
  lemma SweepPFCount(d: Data, d': Data, now: nat, key: string, ln: Ln)
    requires Swept(d, d', now) && W.Sketchy(d)
    ensures W.Sketchy(d')
    ensures W.HandlePFCount([key], d, ln).reply == W.HandlePFCount([key], d', ln).reply
       <==> !(key in d && key !in d' && d[key].val.HllV? && EstimateOf(d[key].val.regs, ln) != 0)
  {
    hide EstimateOf, IsRegs;
  }

  /** A bound on every sketch among the keys bounds their join, and the join is one. */
  lemma {:induction false} JoinAllLeast(d: Data, keys: seq<string>, bound: seq<nat>)
    requires ValidData(d) && |bound| == REGISTERS
    ensures forall k :: k in keys && k in d && d[k].val.HllV? ==> AtLeast(JoinAll(d, keys), d[k].val.regs)
    ensures (forall k :: k in keys && k in d && d[k].val.HllV? ==> AtLeast(bound, d[k].val.regs)) ==>
              AtLeast(bound, JoinAll(d, keys))
  {
    hide Join, ValidData;
    if keys != [] {
      var init, k := keys[..|keys| - 1], keys[|keys| - 1];
      JoinAllLeast(d, init, bound);
      assert forall j :: j in keys <==> j in init || j == k;
      if k in d && d[k].val.HllV? {
        RegsLength(d, k);
        JoinLeast(JoinAll(d, init), d[k].val.regs, bound);
        AtLeastThrough(d, init, JoinAll(d, init), JoinAll(d, keys));
      }
    }
  }

  lemma RegsLength(d: Data, k: string)
    requires ValidData(d) && k in d && d[k].val.HllV?
    ensures |d[k].val.regs| == REGISTERS
  {}

  lemma AtLeastThrough(d: Data, keys: seq<string>, mid: seq<nat>, top: seq<nat>)
    requires AtLeast(top, mid) && forall k :: k in keys && k in d && d[k].val.HllV? ==> AtLeast(mid, d[k].val.regs)
    ensures forall k :: k in keys && k in d && d[k].val.HllV? ==> AtLeast(top, d[k].val.regs)
  {}

  /** Every sketch among the keys that was swept away adds nothing to the join of those that stayed. */
  ghost predicate AddsNothing(d: Data, d': Data, keys: seq<string>)
    requires ValidData(d')
  {
    forall k :: k in keys && k in d && k !in d' && d[k].val.HllV? ==> AtLeast(JoinAll(d', keys), d[k].val.regs)
  }

  lemma SweptValid(d: Data, d': Data, now: nat)
    requires Swept(d, d', now) && ValidData(d)
    ensures ValidData(d')
  {}

  lemma JoinAllSwept(d: Data, d': Data, now: nat, keys: seq<string>)
    requires Swept(d, d', now) && ValidData(d) && ValidData(d')
    ensures JoinAll(d, keys) == JoinAll(d', keys) <==> AddsNothing(d, d', keys)
  {
    hide JoinAll, AtLeast, ValidData, IsExpired;
    var a, b := JoinAll(d, keys), JoinAll(d', keys);
    JoinAllLeast(d, keys, b);
    JoinAllLeast(d', keys, a);
    if AddsNothing(d, d', keys) {
      AtLeastBoth(a, b);
    }
  }

  /** PFMERGE leaves the same live data exactly if what was swept away adds nothing to the union. */
  lemma SweepPFMerge(d: Data, d': Data, c: Moment, dest: string, sources: seq<string>)
    requires Swept(d, d', c.now) && ValidData(d)
    ensures ValidData(d')
    ensures Swept(M.PFMerge(d, dest, sources, c), M.PFMerge(d', dest, sources, c), c.now)
       <==> AddsNothing(d, d', [dest] + sources)
  {
    hide JoinAll, ValidData, StampNew, AddsNothing;
    SweptValid(d, d', c.now);
    JoinAllSwept(d, d', c.now, [dest] + sources);
    var a, b := M.PFMerge(d, dest, sources, c), M.PFMerge(d', dest, sources, c);
    if JoinAll(d, [dest] + sources) != JoinAll(d', [dest] + sources) {
      assert dest in b && a[dest] != b[dest];
    }
  }

  // Whole runs

  /** The operations that test expiry, and Set. */
  datatype Op =
    | OpGet(key: string)
    | OpGetInt(key: string)
    | OpTTL(key: string)
    | OpEncoding(key: string)
    | OpFreq(key: string)
    | OpDelete(keys: seq<string>)
    | OpPFAdd(key: string, values: seq<string>)
    | OpSet(key: string, value: string, ttl: int)

  datatype Answer =
    | Bulk(s: Option<string>)
    | Int(r: IntRead)
    | Seconds(n: int)
    | Enc(e: Option<Encoding>)
    | Frequency(f: FreqRead)
    | Removed(count: nat)
    | Changed(b: Option<bool>)
    | Stored

  function AnswerTo(op: Op, d: Data, c: Moment, hash: Hash): Answer {
    match op
    case OpGet(key) => Bulk(GetResult(d, key, c.now))
    case OpGetInt(key) => Int(GetIntResult(d, key, c.now))
    case OpTTL(key) => Seconds(TTLResult(d, key, c.now))
    case OpEncoding(key) => Enc(EncodingResult(d, key, c.now))
    case OpFreq(key) => Frequency(FreqResult(d, key, c))
    case OpDelete(keys) => Removed(DeleteCount(d, keys, c.now))
    case OpPFAdd(key, values) =>
      Changed(if WrongType(d, key, c.now) then None else Some(PFAddChanged(d, key, values, c, hash)))
    case OpSet(_, _, _) => Stored
  }

  function After(op: Op, d: Data, c: Moment, hash: Hash): Data
    requires c.roll >= 0.0 && c.decayTime >= 1
  {
    match op
    case OpGet(key) => Touch(d, key, c)
    case OpGetInt(key) => Touch(d, key, c)
    case OpTTL(key) => Drop(d, key, c.now)
    case OpEncoding(key) => Drop(d, key, c.now)
    case OpFreq(key) => AfterFreq(d, key, c)
    case OpDelete(keys) => M.Delete(d, keys)
    case OpPFAdd(key, values) => M.PFAdd(d, key, values, c, hash)
    case OpSet(key, value, ttl) => M.Set(d, key, value, ttl, c)
  }

  /** One operation on a swept pair: equal answers, and a swept pair again. */
  lemma SweepStep(op: Op, d: Data, d': Data, c: Moment, hash: Hash)
    requires Swept(d, d', c.now) && ValidMoment(c)
    ensures AnswerTo(op, d, c, hash) == AnswerTo(op, d', c, hash)
    ensures Swept(After(op, d, c, hash), After(op, d', c, hash), c.now)
  {
    hide Swept, GetResult, GetIntResult, TTLResult, EncodingResult, FreqResult, Touch, Drop, AfterFreq, WrongType,
         DeleteCount, PFAddChanged, M.PFAdd, M.Set, M.Delete;
    match op
    case OpGet(key) => SweepAnswers(d, d', c, key); SweepReads(d, d', c, key);
    case OpGetInt(key) => SweepAnswers(d, d', c, key); SweepReads(d, d', c, key);
    case OpTTL(key) => SweepAnswers(d, d', c, key); SweepReads(d, d', c, key);
    case OpEncoding(key) => SweepAnswers(d, d', c, key); SweepReads(d, d', c, key);
    case OpFreq(key) => SweepAnswers(d, d', c, key); SweepReads(d, d', c, key);
    case OpDelete(keys) => SweepDelete(d, d', c.now, keys);
    case OpPFAdd(key, values) => SweepPFAdd(d, d', c, key, values, hash);
    case OpSet(key, value, ttl) => SweepSet(d, d', c, key, value, ttl);
  }

  lemma SweptLater(d: Data, d': Data, now: nat, later: nat)
    requires Swept(d, d', now) && now <= later
    ensures Swept(d, d', later)
  {}

  lemma SweptTwice(a: Data, b: Data, c: Data, now: nat)
    requires Swept(a, b, now) && Swept(b, c, now)
    ensures Swept(a, c, now)
  {}

  /** One command of a run: when it ran, what it was and the store it found after any sweeps. */
  datatype Event = Event(at: Moment, op: Op, found: Data)

  /** The store before event `i` of a run that starts from `d` and never sweeps. */
  function Unswept(d: Data, run: seq<Event>, i: nat, hash: Hash): Data
    requires i <= |run| && forall j :: 0 <= j < |run| ==> run[j].at.roll >= 0.0 && run[j].at.decayTime >= 1
  {
    if i == 0 then d else After(run[i - 1].op, Unswept(d, run, i - 1, hash), run[i - 1].at, hash)
  }

  /** The store event `i` of a run starts from: what the event before it left. */
  function LeftBefore(d: Data, run: seq<Event>, i: nat, hash: Hash): Data
    requires i < |run| && forall j :: 0 <= j < |run| ==> run[j].at.roll >= 0.0 && run[j].at.decayTime >= 1
  {
    if i == 0 then d else After(run[i - 1].op, run[i - 1].found, run[i - 1].at, hash)
  }

  /** A run in which any sweeps may happen before each command; the clock never goes back. */
  ghost predicate IsRun(d: Data, run: seq<Event>, hash: Hash) {
    && (forall i :: 0 <= i < |run| ==> ValidMoment(run[i].at))
    && (forall i, j :: 0 <= i < j < |run| ==> run[i].at.now <= run[j].at.now)
    && (forall i :: 0 <= i < |run| ==> Swept(LeftBefore(d, run, i, hash), run[i].found, run[i].at.now))
  }

  /**
   Sweeps are invisible over whole runs: every command answers as it would in the run that never
   sweeps, and what it finds differs only by keys that have expired.
   */
  lemma {:induction false} SweepsInvisible(d: Data, run: seq<Event>, i: nat, hash: Hash)
    requires IsRun(d, run, hash) && i < |run|
    ensures Swept(Unswept(d, run, i, hash), run[i].found, run[i].at.now)
    ensures AnswerTo(run[i].op, run[i].found, run[i].at, hash)
         == AnswerTo(run[i].op, Unswept(d, run, i, hash), run[i].at, hash)
    decreases i
  {
    hide Swept, After, AnswerTo;
    if i > 0 {
      SweepsInvisible(d, run, i - 1, hash);
      var e := run[i - 1];
      SweepStep(e.op, Unswept(d, run, i - 1, hash), e.found, e.at, hash);
      var a, b := Unswept(d, run, i, hash), LeftBefore(d, run, i, hash);
      SweptLater(a, b, e.at.now, run[i].at.now);
      SweptTwice(a, b, run[i].found, run[i].at.now);
    }
    SweepStep(run[i].op, Unswept(d, run, i, hash), run[i].found, run[i].at, hash);
  }
}
