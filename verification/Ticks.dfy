/** Tick arithmetic: a 32-bit millisecond counter read off an unbounded clock. */
module Ticks {
  const DWORD_MAX: nat := 0xFFFF_FFFF
  const TICK_RANGE: nat := 0x1_0000_0000

  /** What GetTickCount reads at instant t, in milliseconds. */
  function Tick(t: nat): (r: nat)
    ensures r <= DWORD_MAX
  {
    t % TICK_RANGE
  }

  /** utils_ticksdiff; a present of 0 means that the counter is read again. */
  function TicksDiff(present: nat, past: nat, clock: nat): nat
    requires present <= DWORD_MAX && past <= DWORD_MAX
  {
    var p := if present == 0 then Tick(clock) else present;
    if p >= past then p - past else (DWORD_MAX - past) + p
  }

  /** The elapsed time the code computes at instant now for a stamp taken at instant since. */
  function Elapsed(now: nat, since: nat): nat {
    TicksDiff(Tick(now), Tick(since), now)
  }

  /** Whole seconds of elapsed time, as the caches compare them with a ttl. */
  function Seconds(now: nat, since: nat): nat {
    Elapsed(now, since) / 1000
  }

  ghost predicate WithinRange(now: nat, since: nat) {
    since <= now < since + TICK_RANGE
  }

  /** Did the counter roll over between since and now? */
  predicate RolledOver(now: nat, since: nat) {
    Tick(now) < Tick(since)
  }

  /** The computed difference is exact, or one millisecond short after a rollover. */
  lemma ElapsedExact(now: nat, since: nat)
    requires WithinRange(now, since)
    ensures Elapsed(now, since) == if RolledOver(now, since) then now - since - 1 else now - since
    ensures RolledOver(now, since) <==> now / TICK_RANGE > since / TICK_RANGE
  {
    var a, b := now / TICK_RANGE, since / TICK_RANGE;
    assert now == a * TICK_RANGE + Tick(now) && since == b * TICK_RANGE + Tick(since);
  }

  /** For any two instants: the true difference modulo 2^32, less one millisecond when the counter
      reads lower than it did. */
  lemma ElapsedAlways(now: nat, since: nat)
    requires since <= now
    ensures Elapsed(now, since) == (now - since) % TICK_RANGE - (if RolledOver(now, since) then 1 else 0)
  {
    var a, b := now / TICK_RANGE, since / TICK_RANGE;
    assert now == a * TICK_RANGE + Tick(now) && since == b * TICK_RANGE + Tick(since);
    if RolledOver(now, since) {
      ModUnique(now - since, a - b - 1, TICK_RANGE + Tick(now) - Tick(since));
    } else {
      ModUnique(now - since, a - b, Tick(now) - Tick(since));
    }
  }

  lemma ModUnique(x: int, q: int, r: int)
    requires x == q * TICK_RANGE + r && 0 <= r < TICK_RANGE
    ensures x % TICK_RANGE == r
  {
  }

  /** Later readings never report less elapsed time. */
  lemma ElapsedGrows(since: nat, t1: nat, t2: nat)
    requires WithinRange(t1, since) && WithinRange(t2, since) && t1 <= t2
    ensures Elapsed(t1, since) <= Elapsed(t2, since) && Seconds(t1, since) <= Seconds(t2, since)
  {
    ElapsedExact(t1, since);
    ElapsedExact(t2, since);
    DivGrows(Elapsed(t1, since), Elapsed(t2, since));
  }

  /** Older stamps never report less elapsed time. */
  lemma ElapsedOlder(now: nat, older: nat, newer: nat)
    requires WithinRange(now, older) && older <= newer <= now
    ensures Elapsed(now, older) >= Elapsed(now, newer) && Seconds(now, older) >= Seconds(now, newer)
  {
    ElapsedExact(now, older);
    ElapsedExact(now, newer);
    DivGrows(Elapsed(now, newer), Elapsed(now, older));
  }

  lemma DivGrows(a: nat, b: nat)
    requires a <= b
    ensures a / 1000 <= b / 1000
  {
  }

  /** At the full range the computed difference starts again: the bound in WithinRange is exact. */
  lemma ElapsedRestarts(since: nat)
    ensures Elapsed(since + TICK_RANGE, since) == 0
  {
    assert Tick(since + TICK_RANGE) == Tick(since);
  }
}
