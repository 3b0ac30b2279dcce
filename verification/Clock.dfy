/**
 Recency and frequency stamps. Every entry carries one 24-bit stamp: the clock in seconds under the
 least-recently-used policies, or a 16-bit minute clock packed above an 8-bit logarithmic access
 counter under the least-frequently-used ones. The random roll of the counter is a parameter.
 */
module Clock {

  const LRU_CLOCK_MAX: nat := 0xFF_FFFF
  const LDT_MASK: nat := 0xFFFF
  const LFU_INIT: nat := 5
  const SECOND: int := 1_000_000_000

  /** The server's settings and the moment of one operation: time in nanoseconds, one random roll. */
  datatype Moment = Moment(now: nat, roll: real, policy: string, logFactor: nat, decayTime: nat)

  ghost predicate ValidMoment(c: Moment) {
    0.0 <= c.roll < 1.0 && c.decayTime >= 1
  }

  predicate IsLfu(c: Moment) {
    c.policy == "allkeys-lfu" || c.policy == "volatile-lfu"
  }

  function LruClock(now: nat): nat {
    now / SECOND % (LRU_CLOCK_MAX + 1)
  }

  function LfuClock(now: nat): nat {
    now / SECOND / 60 % (LDT_MASK + 1)
  }

  function LruIdle(clock: nat, access: nat): int {
    if clock >= access then clock - access else clock + (LRU_CLOCK_MAX - access)
  }

  function LdtIdle(now: nat, stored: nat): int {
    if now >= stored then now - stored else now + (LDT_MASK - stored)
  }

  /**
   The idle time is the distance travelled round the clock face exactly when the clock has not
   wrapped since the stamp; after a wrap it is one tick short.
   */
  lemma IdleIsModularDistance(clock: nat, access: nat)
    requires clock <= LRU_CLOCK_MAX && access <= LRU_CLOCK_MAX
    ensures 0 <= LruIdle(clock, access) <= LRU_CLOCK_MAX
    ensures LruIdle(clock, access) == (clock - access) % (LRU_CLOCK_MAX + 1) <==> clock >= access
    ensures clock < access ==> LruIdle(clock, access) == (clock - access) % (LRU_CLOCK_MAX + 1) - 1
  {
    if clock < access {
      assert (clock - access) % (LRU_CLOCK_MAX + 1) == clock - access + (LRU_CLOCK_MAX + 1);
    }
  }

  // The packed field

  function Pack(ldt: nat, counter: nat): nat {
    ldt * 256 + counter
  }

  function Counter(packed: nat): (n: nat)
    ensures n <= 255
  {
    packed % 256
  }

  function Ldt(packed: nat): (n: nat)
    ensures n <= LDT_MASK
  {
    packed / 256 % (LDT_MASK + 1)
  }

  lemma PackRoundTrip(ldt: nat, counter: nat)
    requires ldt <= LDT_MASK && counter <= 255
    ensures Counter(Pack(ldt, counter)) == counter && Ldt(Pack(ldt, counter)) == ldt
    ensures Pack(ldt, counter) <= LRU_CLOCK_MAX
  {}

  function Decay(counter: nat, idle: int, decayTime: nat): (n: nat)
    requires idle >= 0 && decayTime >= 1
    ensures n <= counter
  {
    var steps := idle / decayTime;
    if steps == 0 then counter else if counter <= steps then 0 else counter - steps
  }

  /** One probabilistic increment; the higher the counter, the smaller the chance. */
  function LogIncr(counter: nat, roll: real, logFactor: nat): (n: nat)
    requires counter <= 255 && roll >= 0.0
    ensures counter <= n <= counter + 1 && n <= 255
  {
    if counter == 255 then counter
    else
      var base := if counter < LFU_INIT then 0 else counter - LFU_INIT;
      var p := 1.0 / (base as real * logFactor as real + 1.0);
      if roll < p then counter + 1 else counter
  }

  function LfuTouch(packed: nat, now: nat, c: Moment): nat
    requires c.roll >= 0.0 && c.decayTime >= 1 && now <= LDT_MASK
  {
    var counter := Decay(Counter(packed), LdtIdle(now, Ldt(packed)), c.decayTime);
    Pack(now, LogIncr(counter, c.roll, c.logFactor))
  }

  function StampNew(c: Moment): nat {
    if IsLfu(c) then Pack(LfuClock(c.now), LFU_INIT) else LruClock(c.now)
  }

  function StampAccess(c: Moment, stamp: nat): nat
    requires c.roll >= 0.0 && c.decayTime >= 1
  {
    if IsLfu(c) then LfuTouch(stamp, LfuClock(c.now), c) else LruClock(c.now)
  }

  /**
   Touching a key moves its minute clock to now and its counter by decay, then at most one up; the
   stamp stays within 24 bits.
   */
  lemma TouchEffect(c: Moment, stamp: nat)
    requires ValidMoment(c) && IsLfu(c)
    ensures var s := StampAccess(c, stamp);
            && s <= LRU_CLOCK_MAX && Ldt(s) == LfuClock(c.now)
            && var kept := Decay(Counter(stamp), LdtIdle(LfuClock(c.now), Ldt(stamp)), c.decayTime);
               kept <= Counter(s) <= kept + 1 && (c.logFactor == 0 && kept < 255 ==> Counter(s) == kept + 1)
  {
    var kept := Decay(Counter(stamp), LdtIdle(LfuClock(c.now), Ldt(stamp)), c.decayTime);
    PackRoundTrip(LfuClock(c.now), LogIncr(kept, c.roll, c.logFactor));
  }
}
