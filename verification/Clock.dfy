/** The clock segment files are named from: the real-time clock's reading when
    the writer was opened, advanced by the monotonic clock
    (tcslog/src/write.rs). */
module Clock {
  import opened Bytes

  datatype ClockError = ClockUnset | TimestampOverflow

  /** A count of nanoseconds since the epoch as a timestamp; all ones is kept
      back as the moment time runs out. */
  function Stamp(ns: nat): (r: Result<u64, ClockError>)
    ensures r.Ok? <==> ns < U64_LIMIT - 1
    ensures r.Ok? ==> r.value == ns
  {
    if ns < U64_LIMIT - 1 then Ok(ns) else Err(TimestampOverflow)
  }

  /** How far the monotonic clock is past an earlier reading. */
  function Since(mono: nat, time: nat): nat {
    if time < mono then 0 else time - mono
  }

  /** The monotonic clock, which may stand still between two readings but never
      goes back. */
  class Timer {
    var time: nat
    /** A wait this long always advances it. */
    const tick: u64

    constructor (tick: u64)
      ensures this.tick == tick
    {
      this.tick := tick;
      this.time := *;
    }

    method Read() returns (now: nat)
      modifies this
      ensures now == time >= old(time)
    {
      var step: int := *;
      if step > 0 {
        time := time + step;
      }
      now := time;
    }

    method Sleep(nap: nat)
      modifies this
      ensures time >= old(time)
      ensures nap >= tick ==> time > old(time)
    {
      var step: int := *;
      if nap >= tick && step <= 0 {
        step := 1;
      }
      if step > 0 {
        time := time + step;
      }
    }
  }

  class Clock {
    const timer: Timer
    /** Nanoseconds from the epoch to the moment the clocks were paired. */
    var delta: u64
    /** What the monotonic clock read at that moment. */
    const mono: nat

    ghost function Reading(): nat
      reads this, timer
    {
      delta + Since(mono, timer.time)
    }

    /** No timestamp is left. */
    ghost predicate TimeUp()
      reads this, timer
    {
      Reading() >= U64_LIMIT - 1
    }

    constructor (timer: Timer, delta: u64, mono: nat)
      ensures this.timer == timer && this.delta == delta && this.mono == mono
    {
      this.timer, this.delta, this.mono := timer, delta, mono;
    }

    /** Pairs a real-time reading with the monotonic clock. */
    static method Anchor(sinceEpoch: nat, timer: Timer) returns (r: Result<Clock, ClockError>)
      modifies timer
      ensures timer.time >= old(timer.time)
      ensures r.Err? <==> sinceEpoch == 0 || sinceEpoch >= U64_LIMIT - 1
      ensures r.Err? ==> r.error == if sinceEpoch == 0 then ClockUnset else TimestampOverflow
      ensures r.Ok? ==> fresh(r.value) && r.value.Reading() == sinceEpoch && r.value.timer == timer
      ensures r.Ok? ==> r.value.mono == timer.time
    {
      var mono := timer.Read();
      var delta := Stamp(sinceEpoch);
      if delta.Err? {
        return Err(delta.error);
      }
      if delta.value == 0 {
        return Err(ClockUnset);
      }
      var clock := new Clock(timer, delta.value, mono);
      return Ok(clock);
    }

    /** Never goes back, and no further than the monotonic clock does. */
    method Now() returns (r: Result<u64, ClockError>)
      modifies timer
      ensures timer.time >= old(timer.time) && r == Stamp(Reading())
    {
      var now := timer.Read();
      r := Stamp(delta + Since(mono, now));
    }

    /** Shifts the epoch forward, once and no further than it has to, so that
        the clock reads past `id`. */
    method AdvancePast(id: u64) returns (r: Result<(), ClockError>)
      modifies this, timer
      ensures timer.time >= old(timer.time)
      ensures r.Ok? ==>
        var reading := old(delta) + Since(mono, timer.time);
        Reading() == if reading > id then reading else id + 1
      ensures r.Err? <==> id >= U64_LIMIT - 2 || TimeUp()
      ensures r.Err? ==> r.error == TimestampOverflow && delta == old(delta)
    {
      var next := Stamp(id + 1);
      if next.Err? {
        return Err(next.error);
      }
      var now := Now();
      if now.Err? {
        return Err(now.error);
      }
      if id >= now.value {
        var shifted := Stamp(delta + (id - now.value) + 1);
        if shifted.Err? {
          return Err(shifted.error);
        }
        delta := shifted.value;
      }
      return Ok(());
    }
  }

  // ------------------------------------------------- naming a file uniquely

  function SaturatingDouble(n: u64): (m: u64)
    ensures m == if 2 * n < U64_LIMIT then 2 * n else U64_LIMIT - 1
  {
    if 2 * n < U64_LIMIT then 2 * n else U64_LIMIT - 1
  }

  /** The sleep after a collision: two ticks of the clock, so that the next
      reading lies past the tick collided in. */
  function NapFor(resolution: u64): u64 { SaturatingDouble(resolution) }

  /** A first collision leaves the resolution as it was; later ones double it. */
  function Widened(resolution: u64, collidedBefore: bool): u64 {
    if collidedBefore then SaturatingDouble(resolution) else resolution
  }

  /** The resolution in force after so many collisions over one name. */
  function ResolutionAfter(r: u64, collisions: nat): u64
    decreases collisions
  {
    if collisions == 0 then r else Widened(ResolutionAfter(r, collisions - 1), collisions > 1)
  }

  /** The changes of resolution those collisions report. */
  ghost function ResolutionChanges(r: u64, collisions: nat): seq<u64>
    decreases collisions
  {
    if collisions == 0 then []
    else
      var before, now := ResolutionAfter(r, collisions - 1), ResolutionAfter(r, collisions);
      ResolutionChanges(r, collisions - 1) + if now != before then [now] else []
  }

  ghost function Pow2(k: nat): nat { if k == 0 then 1 else 2 * Pow2(k - 1) }

  /** The least number of collisions, at least one, after which the naps have
      grown from r to T: max(1, ceil(log2(T / r))). */
  ghost function CollisionBound(r: nat, T: nat): (k: nat)
    requires r > 0
    ensures k >= 1
    decreases T - r
  {
    if 2 * r >= T then 1 else 1 + CollisionBound(2 * r, T)
  }

  lemma {:induction false} BoundIsLogarithm(r: nat, T: nat)
    requires r > 0
    ensures var k := CollisionBound(r, T);
            r * Pow2(k) >= T && (k > 1 ==> r * Pow2(k - 1) < T)
    decreases T - r
  {
    if 2 * r >= T {
      assert r * Pow2(1) == 2 * r;
    } else {
      BoundIsLogarithm(2 * r, T);
      var k := CollisionBound(2 * r, T);
      assert (2 * r) * Pow2(k) == r * Pow2(k + 1);
      if k > 1 { assert (2 * r) * Pow2(k - 1) == r * Pow2(k); } else { assert r * Pow2(1) == 2 * r; }
    }
  }

  /** After k collisions the resolution has doubled k - 1 times, saturating. */
  lemma {:induction false} ResolutionDoubles(r: u64, k: nat)
    requires r > 0
    ensures ResolutionAfter(r, 0) == r
    ensures var n := r * Pow2(k);
            ResolutionAfter(r, k + 1) == if n < U64_LIMIT then n else U64_LIMIT - 1
    decreases k
  {
    if k == 0 {
      assert ResolutionAfter(r, 1) == ResolutionAfter(r, 0);
    } else {
      ResolutionDoubles(r, k - 1);
      assert r * Pow2(k) == 2 * (r * Pow2(k - 1));
    }
  }

  /** While the naps taken are shorter than T, the bound is not reached, and
      the resolution stays below T. */
  lemma {:induction false} BoundNotReached(r: u64, k: nat, T: u64)
    requires r > 0 && (k > 0 ==> NapFor(ResolutionAfter(r, k)) < T)
    ensures k < CollisionBound(r, T)
    ensures ResolutionAfter(r, k + 1) == r * Pow2(k) < U64_LIMIT
    ensures k > 0 ==> r * Pow2(k) < T
    decreases k
  {
    ResolutionDoubles(r, k);
    if k > 0 {
      ResolutionDoubles(r, k - 1);
      assert r * Pow2(k) == 2 * (r * Pow2(k - 1));
      BoundIsLogarithm(r, T);
      PowersGrow(r, k, CollisionBound(r, T));
    }
  }

  lemma {:induction false} PowersGrow(r: nat, k: nat, m: nat)
    ensures m <= k ==> r * Pow2(m) <= r * Pow2(k)
    decreases k
  {
    if m < k {
      PowersGrow(r, k - 1, m);
      assert r * Pow2(k) == 2 * (r * Pow2(k - 1));
    }
  }
}
