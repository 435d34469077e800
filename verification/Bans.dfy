// internal/guard/ban.go: escalating temporary bans per client key. Times are
// nanoseconds; each operation reads the clock once, and the clock does not run
// backwards.
module Bans {
  import opened Common

  const MINUTE := 60_000_000_000
  const STRIKE_WINDOW := 15 * MINUTE
  const STRIKE_THRESHOLD := 5
  const BAN_BASE := 15 * MINUTE
  const BAN_MAX := 24 * 60 * MINUTE

  datatype Table = Table(strikes: map<string, int>, lastSeen: map<string, int>, until: map<string, int>)

  function Pow2(n: nat): nat { if n == 0 then 1 else 2 * Pow2(n - 1) }

  /** Go's int64 left shift, which drops what does not fit. */
  function Shl64(x: int, n: nat): int {
    (x * Pow2(n) + 0x8000_0000_0000_0000) % 0x1_0000_0000_0000_0000 - 0x8000_0000_0000_0000
  }

  // ---------------------------------------------------------------------
  // What each operation does to the table
  // ---------------------------------------------------------------------

  predicate InForce(t: Table, key: string, now: int) { key in t.until && t.until[key] > now }

  /** A ban that was served is forgotten; its strikes stay. */
  function Looked(t: Table, key: string, now: int): Table {
    if InForce(t, key, now) then t else t.(until := t.until - {key})
  }

  /** The number of the strike that falls now. */
  function Count(t: Table, key: string, now: int): int {
    1 + if key in t.lastSeen && now - t.lastSeen[key] <= STRIKE_WINDOW && key in t.strikes then t.strikes[key] else 0
  }

  /** The fifth strike bans for 15 minutes, each further one for twice as long,
      up to 24 hours. */
  function BanLength(count: int): int
    requires count >= STRIKE_THRESHOLD
  {
    Min(BAN_BASE * Pow2(count - STRIKE_THRESHOLD), BAN_MAX)
  }

  function Struck(t: Table, key: string, now: int): Table {
    var count := Count(t, key, now);
    Table(t.strikes[key := count], t.lastSeen[key := now],
          if count >= STRIKE_THRESHOLD then t.until[key := now + BanLength(count)] else t.until)
  }

  function BannedFor(t: Table, key: string, dur: int, now: int): Table { t.(until := t.until[key := now + dur]) }

  function Swept(t: Table, now: int): Table {
    Table(map k | k in t.strikes && !(k in t.lastSeen && t.lastSeen[k] < now - STRIKE_WINDOW) :: t.strikes[k],
          map k | k in t.lastSeen && t.lastSeen[k] >= now - STRIKE_WINDOW :: t.lastSeen[k],
          map k | k in t.until && t.until[k] >= now :: t.until[k])
  }

  // ---------------------------------------------------------------------
  // The table
  // ---------------------------------------------------------------------

  class BanTable {
    var strikes: map<string, int>
    var lastSeen: map<string, int>
    var until: map<string, int>

    ghost function View(): Table
      reads this
    {
      Table(strikes, lastSeen, until)
    }

    constructor ()
      ensures View() == Table(map[], map[], map[])
    {
      strikes, lastSeen, until := map[], map[], map[];
    }

    method Banned(key: string, now: int) returns (banned: bool, remaining: int)
      modifies this
      ensures View() == Looked(old(View()), key, now)
      ensures banned == InForce(old(View()), key, now)
      ensures remaining == if banned then old(until[key]) - now else 0
      ensures (key in until <==> banned) && until - {key} == old(until) - {key} &&
              strikes == old(strikes) && lastSeen == old(lastSeen)
    {
      if key !in until {
        assert until - {key} == until;
        return false, 0;
      }
      remaining := until[key] - now;
      if remaining <= 0 {
        until := until - {key};
        return false, 0;
      }
      banned := true;
    }

    method Strike(key: string, now: int)
      modifies this
      ensures View() == Struck(old(View()), key, now)
    {
      if key !in lastSeen || now - lastSeen[key] > STRIKE_WINDOW {
        strikes := strikes[key := 0];
      }
      lastSeen := lastSeen[key := now];
      strikes := strikes[key := (if key in strikes then strikes[key] else 0) + 1];
      if strikes[key] >= STRIKE_THRESHOLD {
        var excess := strikes[key] - STRIKE_THRESHOLD;
        var dur := Shl64(BAN_BASE, Min(excess, 20));
        CappedShift(excess);
        until := until[key := now + Min(dur, BAN_MAX)];
      }
    }

    method Ban(key: string, dur: int, now: int)
      modifies this
      ensures View() == BannedFor(old(View()), key, dur, now)
    {
      until := until[key := now + dur];
    }

    /** One tick of the janitor. */
    method Sweep(now: int)
      modifies this
      ensures View() == Swept(old(View()), now)
    {
      SweepStrikes(now - STRIKE_WINDOW);
      SweepBans(now);
      assert strikes == Swept(old(View()), now).strikes;
      assert lastSeen == Swept(old(View()), now).lastSeen;
      assert until == Swept(old(View()), now).until;
    }

    method SweepStrikes(cutoff: int)
      modifies this`strikes, this`lastSeen
      ensures forall k :: k in lastSeen <==> k in old(lastSeen) && old(lastSeen[k]) >= cutoff
      ensures forall k :: k in lastSeen ==> lastSeen[k] == old(lastSeen[k])
      ensures forall k :: k in strikes <==> k in old(strikes) && !(k in old(lastSeen) && old(lastSeen[k]) < cutoff)
      ensures forall k :: k in strikes ==> strikes[k] == old(strikes[k])
    {
      ghost var seen, counts := lastSeen, strikes;
      var todo := lastSeen.Keys;
      while todo != {}
        invariant todo <= seen.Keys
        invariant forall k :: k in lastSeen <==> k in seen && (k in todo || seen[k] >= cutoff)
        invariant forall k :: k in lastSeen ==> lastSeen[k] == seen[k]
        invariant forall k :: k in strikes <==> k in counts && (k in todo || !(k in seen && seen[k] < cutoff))
        invariant forall k :: k in strikes ==> strikes[k] == counts[k]
        decreases |todo|
      {
        var k :| k in todo;
        todo := todo - {k};
        if lastSeen[k] < cutoff {
          lastSeen, strikes := lastSeen - {k}, strikes - {k};
        }
      }
    }

    method SweepBans(now: int)
      modifies this`until
      ensures forall k :: k in until <==> k in old(until) && old(until[k]) >= now
      ensures forall k :: k in until ==> until[k] == old(until[k])
    {
      ghost var before := until;
      var todo := until.Keys;
      while todo != {}
        invariant todo <= before.Keys
        invariant forall k :: k in until <==> k in before && (k in todo || before[k] >= now)
        invariant forall k :: k in until ==> until[k] == before[k]
        decreases |todo|
      {
        var k :| k in todo;
        todo := todo - {k};
        if until[k] < now { until := until - {k}; }
      }
    }
  }

  // ---------------------------------------------------------------------
  // How long a strike bans
  // ---------------------------------------------------------------------

  lemma {:induction false} Pow2Grows(m: nat, n: nat)
    requires m <= n
    ensures Pow2(m) <= Pow2(n)
    decreases n
  {
    if m < n { Pow2Grows(m, n - 1); }
  }

  lemma Pow2Values()
    ensures Pow2(7) == 128 && Pow2(20) == 1048576
  {
    assert Pow2(4) == 16;
    assert Pow2(8) == 256;
    assert Pow2(12) == 4096;
    assert Pow2(16) == 65536;
  }

  /** The shift stays inside 64 bits, and cutting its count at 20 changes
      nothing: 15 minutes doubled 7 times are past the 24 hours already. */
  lemma CappedShift(excess: nat)
    ensures Shl64(BAN_BASE, Min(excess, 20)) == BAN_BASE * Pow2(Min(excess, 20))
    ensures Min(Shl64(BAN_BASE, Min(excess, 20)), BAN_MAX) == BanLength(STRIKE_THRESHOLD + excess)
  {
    Pow2Values();
    Pow2Grows(Min(excess, 20), 20);
    assert BAN_BASE * Pow2(Min(excess, 20)) <= BAN_BASE * 1048576;
    if excess > 20 { Pow2Grows(20, excess); }
  }

  /** A later strike of the same row never bans for less. */
  lemma LongerBans(count: int)
    requires count >= STRIKE_THRESHOLD
    ensures 0 < BanLength(count) <= BanLength(count + 1) <= BAN_MAX
  {
    Pow2Grows(0, count - STRIKE_THRESHOLD);
    Pow2Grows(count - STRIKE_THRESHOLD, count + 1 - STRIKE_THRESHOLD);
  }

  function StrikeAll(t: Table, key: string, times: seq<int>): Table {
    if |times| == 0 then t else Struck(StrikeAll(t, key, times[..|times| - 1]), key, times[|times| - 1])
  }

  lemma StrikeSnoc(t: Table, key: string, times: seq<int>, now: int)
    ensures StrikeAll(t, key, times + [now]) == Struck(StrikeAll(t, key, times), key, now)
  {
    assert (times + [now])[..|times|] == times;
  }

  /** Each strike within 15 minutes of the one before. */
  predicate IsRow(times: seq<int>) {
    |times| <= 1 ||
    (var n := |times| - 1; 0 <= times[n] - times[n - 1] <= 900_000_000_000 && IsRow(times[..n]))
  }

  lemma NextStrike(t: Table, key: string, now: int)
    ensures var u, n := Struck(t, key, now), Count(t, key, now);
            key in u.strikes && u.strikes[key] == n && key in u.lastSeen && u.lastSeen[key] == now &&
            (n < 5 ==> u.until == t.until) &&
            (n >= 5 ==> key in u.until && u.until[key] == now + Min(BAN_BASE * Pow2(n - 5), BAN_MAX))
  {}

  /** The first four strikes of a row leave all bans alone; the n-th bans from its
      own time for 15 minutes doubled n - 5 times, at most 24 hours. Strikes that
      are older than the window do not count. */
  lemma {:induction false} RowBans(t: Table, key: string, times: seq<int>)
    requires |times| > 0 && IsRow(times)
    requires key in t.lastSeen ==> times[0] - t.lastSeen[key] > 900_000_000_000
    ensures var u, n := StrikeAll(t, key, times), |times|;
            key in u.strikes && u.strikes[key] == n && key in u.lastSeen && u.lastSeen[key] == times[n - 1] &&
            (n < 5 ==> u.until == t.until) &&
            (n >= 5 ==>
              key in u.until &&
              u.until[key] == times[n - 1] + Min(900_000_000_000 * Pow2(n - 5), 86_400_000_000_000))
  {
    var n := |times| - 1;
    if n == 0 {
      assert StrikeAll(t, key, times[..0]) == t;
    } else {
      RowBans(t, key, times[..n]);
      var u := StrikeAll(t, key, times[..n]);
      assert u.lastSeen[key] == times[n - 1] && Count(u, key, times[n]) == n + 1;
    }
    NextStrike(StrikeAll(t, key, times[..n]), key, times[n]);
  }

  // ---------------------------------------------------------------------
  // The janitor's evictions do not show
  // ---------------------------------------------------------------------

  /** t is full without bans that were served by now and strike rows that are
      older than the strike window. */
  ghost predicate Evicted(t: Table, full: Table, now: int) {
    (forall k :: k in t.until ==> k in full.until && t.until[k] == full.until[k]) &&
    (forall k :: k in full.until && k !in t.until ==> full.until[k] <= now) &&
    (forall k :: k in t.lastSeen ==>
       k in full.lastSeen && t.lastSeen[k] == full.lastSeen[k] &&
       (k in t.strikes <==> k in full.strikes) && (k in t.strikes ==> t.strikes[k] == full.strikes[k])) &&
    (forall k :: k in full.lastSeen && k !in t.lastSeen ==> full.lastSeen[k] < now - STRIKE_WINDOW)
  }

  lemma LaterEvicted(t: Table, full: Table, then_: int, now: int)
    requires Evicted(t, full, then_) && then_ <= now
    ensures Evicted(t, full, now)
  {}

  lemma SweptEvicted(t: Table, full: Table, now: int)
    requires Evicted(t, full, now)
    ensures Evicted(Swept(t, now), full, now)
  {}

  lemma LookedEvicted(t: Table, full: Table, key: string, now: int)
    requires Evicted(t, full, now)
    ensures InForce(t, key, now) == InForce(full, key, now)
    ensures InForce(t, key, now) ==> t.until[key] == full.until[key]
    ensures Evicted(Looked(t, key, now), Looked(full, key, now), now)
  {}

  lemma StruckEvicted(t: Table, full: Table, key: string, now: int)
    requires Evicted(t, full, now)
    ensures Count(t, key, now) == Count(full, key, now)
    ensures Evicted(Struck(t, key, now), Struck(full, key, now), now)
  {}

  lemma BannedEvicted(t: Table, full: Table, key: string, dur: int, now: int)
    requires Evicted(t, full, now)
    ensures Evicted(BannedFor(t, key, dur, now), BannedFor(full, key, dur, now), now)
  {}

  /** After a tick nothing is left that is of no more use, and nothing else is gone. */
  lemma SweptLeaves(t: Table, now: int, key: string)
    ensures var u := Swept(t, now);
            (key in u.until <==> key in t.until && t.until[key] >= now) &&
            (key in u.until ==> u.until[key] == t.until[key]) &&
            (key in u.lastSeen <==> key in t.lastSeen && t.lastSeen[key] >= now - 900_000_000_000) &&
            (key in u.lastSeen ==> u.lastSeen[key] == t.lastSeen[key]) &&
            (key in u.lastSeen ==> (key in u.strikes <==> key in t.strikes)) &&
            (key in t.lastSeen && key !in u.lastSeen ==> key !in u.strikes) &&
            (key in u.strikes ==> key in t.strikes && u.strikes[key] == t.strikes[key])
  {}

  // ---------------------------------------------------------------------
  // When a strike moves the end of a ban
  // ---------------------------------------------------------------------

  /** No ban ends later than a day from now. */
  ghost predicate Bounded(t: Table, now: int) { forall k :: k in t.until ==> t.until[k] <= now + BAN_MAX }

  lemma StruckBounded(t: Table, key: string, now: int)
    requires Bounded(t, now)
    ensures Bounded(Struck(t, key, now), now)
  {
    if Count(t, key, now) >= STRIKE_THRESHOLD { LongerBans(Count(t, key, now)); }
  }

  /** The strike right after the one that set a ban does not end it earlier. */
  lemma RowLengthens(t: Table, key: string, first: int, now: int)
    requires Count(t, key, first) >= STRIKE_THRESHOLD && first <= now <= first + STRIKE_WINDOW
    ensures var once := Struck(t, key, first); Struck(once, key, now).until[key] >= once.until[key]
  {
    LongerBans(Count(t, key, first));
  }
}
