/**
 What clients can rely on across several commands: what they read back after writing, how long it
 lives, and what merged sketches count.
 */
module StoreLaws {
  import opened Numeral
  import opened Clock
  import opened Resp
  import opened HllSparse
  import opened HllDense
  import opened HllLattice
  import M = StoreModel
  import opened StoreModel
  import opened Handlers

  // Reading back

  /** GET returns the very text that was SET exactly if that is no integer, or a canonical one. */
  lemma SetThenGet(d: Data, key: string, value: string, ttl: int, c: Moment, now: nat)
    requires ttl <= 0 || now < c.now + ttl
    ensures GetResult(M.Set(d, key, value, ttl, c), key, now) == Some(value)
       <==> Parse(value).None? || IsCanonical(value)
  {
    hide Parse, Format, IsCanonical;
    if Parse(value).Some? {
      CanonicalText(value);
    }
  }

  /** A text with leading zeros is not read back. */
  lemma LeadingZerosLost(c: Moment, now: nat)
    ensures GetResult(M.Set(map[], "k", "007", 0, c), "k", now) != Some("007")
  {
    var s := "007";
    assert AllDigits(s) && s[..2] == "00" && "00"[..1] == "0" && "0"[..0] == "";
    assert DigitsValue("0") == 0 && DigitsValue("00") == 0 && DigitsValue(s) == 7;
    SetThenGet(map[], "k", s, 0, c, now);
  }

  /** What APPEND leaves is read back whole exactly if the key had not expired; APPEND does not look. */
  lemma AppendThenGet(d: Data, key: string, value: string, c: Moment)
    requires CanAppend(d, key) && ValidMoment(c) && key in d
    ensures GetResult(M.Append(d, key, value, c), key, c.now) == Some(Text(d[key].val).value + value)
       <==> Present(d, key, c.now)
  {
  }

  // Time to live

  /**
   TTL answers the number EXPIRE was given exactly if it is positive and fits in 64-bit nanoseconds, or
   is -1. The expiry is removed exactly if the nanoseconds wrap to nothing or less.
   */
  lemma ExpireThenTtl(d: Data, key: string, seconds: string, c: Moment)
    requires ValidMoment(c) && GetResult(d, key, c.now).Some? && Parse(seconds).Some?
    ensures var n, after := Parse(seconds).value, HandleExpire([key, seconds], d, c).data;
            && (TTLResult(after, key, c.now) == n <==> 1 <= n <= INT64_MAX / SECOND || n == -1)
            && key in after && (after[key].exp.None? <==> Wrap64(n * SECOND) <= 0)
  {
    hide Parse, Touch, GetResult, Detect, StampNew, Wrap64;
    var n := Parse(seconds).value;
    if n >= 0 {
      SecondsWrap(n);
      SecondsRound(n);
    } else {
      MinusOneWraps();
    }
  }

  lemma MinusOneWraps()
    ensures Wrap64(-1 * SECOND) == -SECOND
  {
  }

  lemma SecondsWrap(n: nat)
    ensures n <= INT64_MAX / SECOND ==> Wrap64(n * SECOND) == n * SECOND
    ensures n > INT64_MAX / SECOND ==> (Wrap64(n * SECOND) / 1_000_000 + 500) / 1000 < n
  {
  }

  lemma SecondsRound(n: nat)
    ensures (n * SECOND / 1_000_000 + 500) / 1000 == n
  {
  }

  // Counting

  /** The data after INCRs of one key at the given moments. */
  function IncrAll(d: Data, key: string, cs: seq<Moment>): Data
    requires forall i :: 0 <= i < |cs| ==> ValidMoment(cs[i])
  {
    if cs == [] then d
    else
      assert ValidMoment(cs[|cs| - 1]);
      HandleIncr([key], IncrAll(d, key, cs[..|cs| - 1]), cs[|cs| - 1]).data
  }

  /** The number a key without an expiry holds; a missing key counts from zero. */
  predicate Holds(d: Data, key: string, n: int) {
    if key in d then d[key].exp.None? && d[key].val == IntV(n) else n == 0
  }

  lemma IncrOne(d: Data, key: string, n: int, c: Moment)
    requires ValidMoment(c) && Holds(d, key, n) && InInt64(n)
    ensures HandleIncr([key], d, c).reply == Integer(Wrap64(n + 1))
    ensures Holds(HandleIncr([key], d, c).data, key, Wrap64(n + 1)) && key in HandleIncr([key], d, c).data
  {
    hide Parse, Format, StampAccess, StampNew, Wrap64;
    SmallWrap(n);
    ParseFormat(Wrap64(n + 1));
  }

  lemma SmallWrap(n: int)
    ensures Wrap64(1) == 1 && InInt64(Wrap64(n + 1))
  {
  }

  /** Any number of INCRs adds that number, modulo two to the 64. */
  lemma {:induction false} IncrsAdd(d: Data, key: string, n: int, cs: seq<Moment>)
    requires forall i :: 0 <= i < |cs| ==> ValidMoment(cs[i])
    requires Holds(d, key, n) && InInt64(n)
    ensures Holds(IncrAll(d, key, cs), key, Wrap64(n + |cs|))
  {
    hide HandleIncr, Wrap64, Holds;
    WrapSteps(n, |cs|);
    if cs != [] {
      var init := cs[..|cs| - 1];
      IncrsAdd(d, key, n, init);
      IncrOne(IncrAll(d, key, init), key, Wrap64(n + |init|), cs[|cs| - 1]);
    }
  }

  lemma WrapSteps(n: int, k: nat)
    requires InInt64(n)
    ensures Wrap64(n) == n && InInt64(Wrap64(n + k))
    ensures k > 0 ==> InInt64(Wrap64(n + k - 1)) && Wrap64(Wrap64(n + k - 1) + 1) == Wrap64(n + k)
  {
  }

  /**
   INCR reads the clock three times: to find the key, to compute the time left, and to store the number.
   The expiry moves by the time between the last two, and is lost exactly if it has passed by the second.
   */
  lemma IncrExpiry(d: Data, key: string, read: Moment, until: nat, store: Moment)
    requires ValidMoment(read) && Present(d, key, read.now) && d[key].val.IntV?
    ensures var was, now := d[key].exp, HandleIncrAt([key], d, read, until, store).data[key].exp;
            && (was.None? ==> now.None?)
            && (was.Some? ==> (now.None? <==> until >= was.value))
            && (was.Some? && until < was.value ==> now == Some(was.value + (store.now - until)))
            && (now == was <==> was.None? || (until < was.value && until == store.now))
  {
    hide Parse, Format, StampAccess, StampNew, Wrap64;
  }

  /** A key that expires between finding it and computing the time left becomes permanent. */
  lemma IncrMakesPermanent(read: Moment, until: nat, store: Moment, n: int, lru: nat)
    requires ValidMoment(read) && read.now < until
    ensures var d: Data := map["k" := Entry(IntV(n), Some(until), lru)];
            HandleIncrAt(["k"], d, read, until, store).data["k"].exp.None?
  {
    hide Parse, Format, StampAccess, StampNew, Wrap64;
  }

  // Sketches

  /** The sketch at each of the keys, where there is one, sketches the set `of` names. */
  ghost predicate SketchSets(d: Data, keys: seq<string>, of: string -> set<string>, hash: Hash) {
    forall i :: 0 <= i < |keys| && keys[i] in d && d[keys[i]].val.HllV? ==> Sketches(d[keys[i]].val.regs, of(keys[i]), hash)
  }

  function UnionOf(d: Data, keys: seq<string>, of: string -> set<string>): set<string> {
    if keys == [] then {}
    else
      var k := keys[|keys| - 1];
      UnionOf(d, keys[..|keys| - 1], of) + if k in d && d[k].val.HllV? then of(k) else {}
  }

  lemma {:induction false} JoinAllSketches(d: Data, keys: seq<string>, of: string -> set<string>, hash: Hash)
    requires ValidData(d) && SketchSets(d, keys, of, hash)
    ensures Sketches(JoinAll(d, keys), UnionOf(d, keys, of), hash)
  {
    hide Sketches, Join;
    if keys == [] {
      SketchEmpty(hash);
    } else {
      var init, k := keys[..|keys| - 1], keys[|keys| - 1];
      JoinAllSketches(d, init, of, hash);
      if k in d && d[k].val.HllV? {
        SketchJoin(JoinAll(d, init), UnionOf(d, init, of), d[k].val.regs, of(k), hash);
      } else {
        assert UnionOf(d, keys, of) == UnionOf(d, init, of);
      }
    }
  }

  /** After PFMERGE the destination holds what PFADD of all the elements into an empty key would hold. */
  lemma MergeIsUnion(d: Data, dest: string, sources: seq<string>, c: Moment, of: string -> set<string>, xs: seq<string>, hash: Hash)
    requires ValidData(d) && SketchSets(d, [dest] + sources, of, hash)
    requires Elems(xs) == UnionOf(d, [dest] + sources, of)
    requires ValidMoment(c)
    ensures M.PFMerge(d, dest, sources, c)[dest] == M.PFAdd(map[], dest, xs, c, hash)[dest]
  {
    hide Sketches, JoinAll, UnionOf, SketchSets, AddAll, StampNew, Elems;
    JoinAllSketches(d, [dest] + sources, of, hash);
    SketchEmpty(hash);
    AddAllSketches(Repeat(0, REGISTERS), {}, xs, hash);
    assert {} + Elems(xs) == Elems(xs);
    SketchUnique(JoinAll(d, [dest] + sources), AddAll(Repeat(0, REGISTERS), xs, hash), Elems(xs), hash);
  }

  /** PFADD adds the values to the set a key sketches, and reports no change only if the sketch keeps its value. */
  lemma AddExtendsSketch(d: Data, key: string, values: seq<string>, c: Moment, s: set<string>, hash: Hash)
    requires ValidMoment(c) && !WrongType(d, key, c.now)
    requires if Present(d, key, c.now) then Sketches(d[key].val.regs, s, hash) else s == {}
    ensures M.PFAdd(d, key, values, c, hash)[key].val.HllV?
    ensures Sketches(M.PFAdd(d, key, values, c, hash)[key].val.regs, s + Elems(values), hash)
    ensures Present(d, key, c.now) && Elems(values) <= s ==> !PFAddChanged(d, key, values, c, hash)
  {
    hide Sketches, AddAll, StampNew, StampAccess, Elems;
    SketchEmpty(hash);
    var regs := if Present(d, key, c.now) then d[key].val.regs else Repeat(0, REGISTERS);
    AddAllSketches(regs, s, values, hash);
    if Elems(values) <= s {
      assert s + Elems(values) == s;
      SketchUnique(AddAll(regs, values, hash), regs, s, hash);
    }
  }
}
