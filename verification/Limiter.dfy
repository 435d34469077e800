// internal/guard/ratelimit.go: a token bucket per key. Tokens and seconds are
// reals; the clock does not run backwards. The lemmas are about any steady
// source of tokens (Steady); the limiter's own is AtRate(rate).
module Limiter {
  import opened Common

  /** What a source yields in a stretch of time. */
  type Source = real -> real

  function AtRate(rate: real): Source { (elapsed: real) => elapsed * rate }

  ghost predicate Splits(f: Source, a: real, b: real) { f(a) >= 0.0 && f(a + b) == f(a) + f(b) }

  ghost predicate Steady(f: Source) { forall a, b :: 0.0 <= a && 0.0 <= b ==> Splits(f, a, b) }

  datatype Bucket = Bucket(tokens: real, last: real)

  datatype Limiter = Limiter(buckets: map<string, Bucket>, source: Source, burst: real)

  /** The bucket of key, refilled up to now; a new one is full. */
  function Refilled(l: Limiter, key: string, now: real): real {
    if key in l.buckets then RealMin(l.burst, l.buckets[key].tokens + l.source(now - l.buckets[key].last))
    else l.burst
  }

  datatype Event =
    | Allow(key: string, cost: real, now: real)
    | AllowPartial(key: string, want: real, floor: real, now: real)
    | SetRate(source: Source, burst: real, now: real)
    | Cleanup(maxIdle: real, now: real)

  /** Whether a call is admitted, and what it takes from the bucket. */
  datatype Answer = Answer(ok: bool, charged: real)

  function AnswerOf(l: Limiter, e: Event): Answer {
    match e
    case Allow(key, cost, now) =>
      var tokens := Refilled(l, key, now);
      if tokens < cost then Answer(false, 0.0) else Answer(true, cost)
    case AllowPartial(key, want, floor, now) =>
      var tokens := Refilled(l, key, now);
      if tokens < floor then Answer(false, 0.0) else Answer(true, RealMin(want, tokens))
    case _ => Answer(true, 0.0)
  }

  function Next(l: Limiter, e: Event): Limiter {
    match e
    case Allow(key, _, now) =>
      l.(buckets := l.buckets[key := Bucket(Refilled(l, key, now) - AnswerOf(l, e).charged, now)])
    case AllowPartial(key, _, _, now) =>
      l.(buckets := l.buckets[key := Bucket(Refilled(l, key, now) - AnswerOf(l, e).charged, now)])
    case SetRate(source, burst, _) => l.(source := source, burst := burst)
    case Cleanup(maxIdle, now) =>
      l.(buckets := map k | k in l.buckets && l.buckets[k].last >= now - maxIdle :: l.buckets[k])
  }

  // ---------------------------------------------------------------------
  // The limiter
  // ---------------------------------------------------------------------

  class Buckets {
    var buckets: map<string, Bucket>
    var rate: real
    var burst: real

    ghost function View(): Limiter
      reads this
    {
      Limiter(buckets, AtRate(rate), burst)
    }

    constructor (rate: real, burst: real)
      ensures View() == Limiter(map[], AtRate(rate), burst)
    {
      buckets, this.rate, this.burst := map[], rate, burst;
    }

    method SetRate(rate: real, burst: real, now: real)
      modifies this
      ensures View() == Next(old(View()), Event.SetRate(AtRate(rate), burst, now))
    {
      this.rate := rate;
      this.burst := burst;
    }

    method Allow(key: string, cost: real, now: real) returns (ok: bool)
      modifies this
      ensures var e := Event.Allow(key, cost, now);
              View() == Next(old(View()), e) && ok == AnswerOf(old(View()), e).ok
    {
      if key !in buckets { buckets := buckets[key := Bucket(burst, now)]; }
      var elapsed := now - buckets[key].last;
      var gained := elapsed * rate;
      ghost var before := old(View());
      assert gained == before.source(elapsed) && (elapsed == 0.0 ==> gained == 0.0) by { AtRateIs(rate, elapsed); }
      var tokens := RealMin(burst, buckets[key].tokens + gained);
      assert tokens == Refilled(before, key, now);
      buckets := buckets[key := Bucket(tokens, now)];
      if tokens < cost { return false; }
      buckets := buckets[key := Bucket(tokens - cost, now)];
      ok := true;
    }

    method AllowPartial(key: string, want: real, floor: real, now: real) returns (ok: bool)
      modifies this
      ensures var e := Event.AllowPartial(key, want, floor, now);
              View() == Next(old(View()), e) && ok == AnswerOf(old(View()), e).ok
    {
      if key !in buckets { buckets := buckets[key := Bucket(burst, now)]; }
      var elapsed := now - buckets[key].last;
      var gained := elapsed * rate;
      ghost var before := old(View());
      assert gained == before.source(elapsed) && (elapsed == 0.0 ==> gained == 0.0) by { AtRateIs(rate, elapsed); }
      var tokens := RealMin(burst, buckets[key].tokens + gained);
      assert tokens == Refilled(before, key, now);
      buckets := buckets[key := Bucket(tokens, now)];
      if tokens < floor { return false; }
      buckets := buckets[key := Bucket(tokens - RealMin(want, tokens), now)];
      ok := true;
    }

    method Cleanup(maxIdle: real, now: real)
      modifies this
      ensures View() == Next(old(View()), Event.Cleanup(maxIdle, now))
    {
      var cutoff := now - maxIdle;
      var todo := buckets.Keys;
      ghost var all := buckets;
      while todo != {}
        invariant todo <= all.Keys
        invariant forall k :: k in buckets <==> k in all && (k in todo || all[k].last >= cutoff)
        invariant forall k :: k in buckets ==> buckets[k] == all[k]
        invariant rate == old(rate) && burst == old(burst)
        decreases |todo|
      {
        var k :| k in todo;
        todo := todo - {k};
        if buckets[k].last < cutoff { buckets := buckets - {k}; }
      }
      assert buckets == Next(old(View()), Event.Cleanup(maxIdle, now)).buckets;
    }
  }

  // ---------------------------------------------------------------------
  // The janitor is invisible
  // ---------------------------------------------------------------------

  predicate IsCleanup(e: Event) { e.Cleanup? }

  /** Sources are steady, bursts and costs not negative. */
  ghost predicate Sane(e: Event) {
    match e
    case Allow(_, cost, _) => cost >= 0.0
    case AllowPartial(_, want, floor, _) => want >= 0.0 && floor >= 0.0
    case SetRate(source, burst, _) => Steady(source) && burst >= 0.0
    case Cleanup(_, _) => true
  }

  /** What the guard passes in: also a burst that maxIdle seconds of refill can
      fill, and that maxIdle for the janitor. */
  ghost predicate Configured(e: Event, maxIdle: real) {
    Sane(e) &&
    (e.SetRate? ==> e.burst <= e.source(maxIdle)) &&
    (e.Cleanup? ==> e.maxIdle == maxIdle)
  }

  predicate Filled(l: Limiter, maxIdle: real) { maxIdle >= 0.0 && l.burst <= l.source(maxIdle) }

  ghost predicate Sound(l: Limiter, now: real) {
    Steady(l.source) && l.burst >= 0.0 &&
    forall k :: k in l.buckets ==> 0.0 <= l.buckets[k].tokens && l.buckets[k].last <= now
  }

  /** l is full without the buckets that have been idle for longer than maxIdle. */
  ghost predicate Evicted(l: Limiter, full: Limiter, maxIdle: real, now: real) {
    l.source == full.source && l.burst == full.burst &&
    (forall k :: k in l.buckets ==> k in full.buckets && l.buckets[k] == full.buckets[k]) &&
    (forall k :: k in full.buckets && k !in l.buckets ==> full.buckets[k].last < now - maxIdle)
  }

  lemma SourceMono(f: Source, a: real, b: real)
    requires Steady(f) && 0.0 <= a <= b
    ensures 0.0 == f(0.0) <= f(a) && f(b) == f(a) + f(b - a) && f(a) <= f(b)
  {
    assert Splits(f, 0.0, 0.0) && Splits(f, a, b - a) && Splits(f, b - a, a);
  }

  lemma AtRateIs(rate: real, t: real)
    ensures AtRate(rate)(t) == t * rate && (t == 0.0 ==> t * rate == 0.0)
  {}

  lemma TimesMono(a: real, b: real, rate: real)
    requires a <= b && rate >= 0.0
    ensures a * rate <= b * rate
  {}

  lemma AtRateSteady(rate: real)
    requires rate >= 0.0
    ensures Steady(AtRate(rate))
  {
    forall a: real, b: real | 0.0 <= a && 0.0 <= b
      ensures Splits(AtRate(rate), a, b)
    {
      assert a * rate >= 0.0 && (a + b) * rate == a * rate + b * rate;
    }
  }

  /** A bucket idle for longer than maxIdle is as good as a new one. */
  lemma IdleIsFull(l: Limiter, key: string, maxIdle: real, now: real)
    requires Filled(l, maxIdle) && Sound(l, now)
    requires key in l.buckets && l.buckets[key].last < now - maxIdle
    ensures Refilled(l, key, now) == l.burst
  {
    var b := l.buckets[key];
    SourceMono(l.source, maxIdle, now - b.last);
    assert b.tokens >= 0.0;
  }

  lemma SameTokens(l: Limiter, full: Limiter, key: string, maxIdle: real, then_: real, now: real)
    requires Filled(full, maxIdle) && Sound(full, then_) && Evicted(l, full, maxIdle, then_) && then_ <= now
    ensures Refilled(l, key, now) == Refilled(full, key, now)
  {
    if key in full.buckets && key !in l.buckets { IdleIsFull(full, key, maxIdle, now); }
  }

  lemma ElapsedNonNegative(l: Limiter, key: string, then_: real, now: real)
    requires Sound(l, then_) && then_ <= now
    ensures 0.0 <= Refilled(l, key, now) <= l.burst
  {
    if key in l.buckets {
      assert l.buckets[key].tokens >= 0.0 && l.buckets[key].last <= then_;
      SourceMono(l.source, 0.0, now - l.buckets[key].last);
    }
  }

  lemma StepSound(l: Limiter, e: Event, then_: real)
    requires Sound(l, then_) && then_ <= e.now && Sane(e)
    ensures Sound(Next(l, e), e.now)
  {
    if e.Allow? || e.AllowPartial? { ElapsedNonNegative(l, e.key, then_, e.now); }
  }

  /** A step of the limiter that evicts is matched by the one that never does,
      which skips the janitor's steps. */
  lemma StepEvicted(l: Limiter, full: Limiter, e: Event, maxIdle: real, then_: real)
    requires Filled(full, maxIdle) && Sound(full, then_) && Evicted(l, full, maxIdle, then_)
    requires then_ <= e.now && Configured(e, maxIdle)
    ensures var full' := if IsCleanup(e) then full else Next(full, e);
            AnswerOf(l, e) == AnswerOf(full, e) && Evicted(Next(l, e), full', maxIdle, e.now)
  {
    if e.Allow? || e.AllowPartial? { SameTokens(l, full, e.key, maxIdle, then_, e.now); }
  }

  function Answers(l: Limiter, es: seq<Event>): seq<Answer>
    decreases |es|
  {
    if |es| == 0 then []
    else (if IsCleanup(es[0]) then [] else [AnswerOf(l, es[0])]) + Answers(Next(l, es[0]), es[1..])
  }

  function WithoutJanitor(es: seq<Event>): seq<Event> {
    if |es| == 0 then [] else (if IsCleanup(es[0]) then [] else [es[0]]) + WithoutJanitor(es[1..])
  }

  /** The clock of a run does not run backwards. */
  predicate Timed(es: seq<Event>, start: real) {
    |es| == 0 || (start <= es[0].now && Timed(es[1..], es[0].now))
  }

  ghost predicate AllConfigured(es: seq<Event>, maxIdle: real) {
    forall i :: 0 <= i < |es| ==> Configured(es[i], maxIdle)
  }

  lemma {:induction false} JanitorInvisibleFrom(l: Limiter, full: Limiter, es: seq<Event>, maxIdle: real, start: real)
    requires Filled(full, maxIdle) && Sound(full, start) && Evicted(l, full, maxIdle, start)
    requires Timed(es, start) && AllConfigured(es, maxIdle)
    ensures Answers(l, es) == Answers(full, WithoutJanitor(es))
    decreases |es|
  {
    if |es| > 0 {
      var e := es[0];
      assert Configured(e, maxIdle);
      StepEvicted(l, full, e, maxIdle, start);
      StepSound(full, e, start);
      SkipOrMatch(full, es);
      if IsCleanup(e) {
        LaterSound(full, start, e.now);
        JanitorInvisibleFrom(Next(l, e), full, es[1..], maxIdle, e.now);
      } else {
        JanitorInvisibleFrom(Next(l, e), Next(full, e), es[1..], maxIdle, e.now);
      }
    }
  }

  lemma LaterSound(l: Limiter, then_: real, now: real)
    requires Sound(l, then_) && then_ <= now
    ensures Sound(l, now)
  {
    forall k | k in l.buckets
      ensures l.buckets[k].last <= now
    {}
  }

  lemma SkipOrMatch(l: Limiter, es: seq<Event>)
    requires |es| > 0
    ensures var rest := WithoutJanitor(es[1..]);
            Answers(l, WithoutJanitor(es)) ==
            if IsCleanup(es[0]) then Answers(l, rest) else [AnswerOf(l, es[0])] + Answers(Next(l, es[0]), rest)
  {
    var rest := WithoutJanitor(es[1..]);
    assert [] + rest == rest;
    if !IsCleanup(es[0]) {
      var all := [es[0]] + rest;
      assert all[0] == es[0] && all[1..] == rest && !IsCleanup(all[0]);
      assert WithoutJanitor(es) == all;
    } else {
      assert WithoutJanitor(es) == rest;
    }
  }

  /** Over every run of calls, rate changes and janitor ticks, a limiter gives
      exactly the answers and charges it would give without its janitor. */
  lemma JanitorInvisible(rate: real, burst: real, es: seq<Event>, maxIdle: real, start: real)
    requires rate >= 0.0 && maxIdle >= 0.0 && 0.0 <= burst <= maxIdle * rate
    requires Timed(es, start) && AllConfigured(es, maxIdle)
    ensures var l := Limiter(map[], AtRate(rate), burst); Answers(l, es) == Answers(l, WithoutJanitor(es))
  {
    AtRateSteady(rate);
    var l := Limiter(map[], AtRate(rate), burst);
    JanitorInvisibleFrom(l, l, es, maxIdle, start);
  }

  /** The condition is needed: with a larger burst there is a run of four steps
      in which the janitor changes an answer. */
  lemma JanitorVisible(rate: real, burst: real, maxIdle: real)
    requires rate >= 0.0 && maxIdle >= 0.0 && burst > maxIdle * rate
    ensures exists es :: Timed(es, 0.0) && AllConfigured(es, maxIdle) &&
              var l := Limiter(map[], AtRate(rate), burst); Answers(l, es) != Answers(l, WithoutJanitor(es))
  {
    var idle := HalfFull(rate, burst, maxIdle);
    DrainSweepAgain(AtRate(rate), burst, maxIdle, idle);
  }

  /** A time past maxIdle at which an empty bucket is not yet full. */
  lemma HalfFull(rate: real, burst: real, maxIdle: real) returns (idle: real)
    requires rate >= 0.0 && maxIdle >= 0.0 && burst > maxIdle * rate
    ensures burst > 0.0 && idle > maxIdle && idle * rate < burst
  {
    assert maxIdle * rate >= 0.0;
    if rate == 0.0 { return maxIdle + 1.0; }
    var full := burst / rate;
    assert full * rate == burst;
    if full <= maxIdle { TimesMono(full, maxIdle, rate); }
    idle := (full + maxIdle) / 2.0;
    assert idle * rate == (full * rate + maxIdle * rate) / 2.0;
  }

  lemma OneAnswer(l: Limiter, e: Event)
    requires !IsCleanup(e)
    ensures Answers(l, [e]) == [AnswerOf(l, e)]
  {
    assert [e][1..] == [];
  }

  /** A bucket is drained; the janitor evicts it, so that the next call finds a full
      one; without the janitor it finds what has come since. */
  lemma DrainSteps(source: Source, burst: real, maxIdle: real, idle: real)
    requires burst > 0.0 && idle > maxIdle >= 0.0 && source(idle) < burst
    ensures var l, again := Limiter(map[], source, burst), Allow("", burst, idle);
            var l1 := Next(l, Allow("", burst, 0.0));
            AnswerOf(l, Allow("", burst, 0.0)) == Answer(true, burst) &&
            AnswerOf(l1, again) == Answer(false, 0.0) &&
            AnswerOf(Next(l1, Cleanup(maxIdle, idle)), again) == Answer(true, burst)
  {
    var l1 := Next(Limiter(map[], source, burst), Allow("", burst, 0.0));
    assert l1.buckets[""] == Bucket(0.0, 0.0);
    assert Next(l1, Cleanup(maxIdle, idle)).buckets == map[];
    assert Refilled(l1, "", idle) == RealMin(burst, source(idle));
  }

  lemma DrainSweepAgain(source: Source, burst: real, maxIdle: real, idle: real)
    requires burst > 0.0 && idle > maxIdle >= 0.0 && source(idle) < burst
    ensures exists es :: Timed(es, 0.0) && AllConfigured(es, maxIdle) &&
              var l := Limiter(map[], source, burst); Answers(l, es) != Answers(l, WithoutJanitor(es))
  {
    var l := Limiter(map[], source, burst);
    var drain, sweep, again := Allow("", burst, 0.0), Cleanup(maxIdle, idle), Allow("", burst, idle);
    var es := [drain, sweep, again];
    DrainSteps(source, burst, maxIdle, idle);
    ThreeSteps(l, drain, sweep, again);
    assert es[1..] == [sweep, again] && es[1..][1..] == [again] && [again][1..] == [];
    assert Timed([again], idle) && Timed([sweep, again], 0.0);
    assert es[0].now == 0.0 && Timed(es[1..], es[0].now);
    assert Timed(es, 0.0);
    assert AllConfigured(es, maxIdle);
  }

  lemma ThreeSteps(l: Limiter, first: Event, sweep: Event, last: Event)
    requires !IsCleanup(first) && IsCleanup(sweep) && !IsCleanup(last)
    ensures Answers(l, [first, sweep, last]) == [AnswerOf(l, first), AnswerOf(Next(Next(l, first), sweep), last)]
    ensures Answers(l, WithoutJanitor([first, sweep, last])) == [AnswerOf(l, first), AnswerOf(Next(l, first), last)]
  {
    assert Answers(l, [first, sweep, last]) == [AnswerOf(l, first), AnswerOf(Next(Next(l, first), sweep), last)] by {
      OneAnswer(Next(Next(l, first), sweep), last);
      AnswersCons(Next(l, first), sweep, [last]);
      AnswersCons(l, first, [sweep, last]);
      assert [first] + [sweep, last] == [first, sweep, last] && [sweep] + [last] == [sweep, last];
    }
    assert WithoutJanitor([first, sweep, last]) == [first] + [last] by { SweepDropped(first, sweep, last); }
    OneAnswer(Next(l, first), last);
    AnswersCons(l, first, [last]);
  }

  lemma SweepDropped(first: Event, sweep: Event, last: Event)
    requires !IsCleanup(first) && IsCleanup(sweep) && !IsCleanup(last)
    ensures WithoutJanitor([first, sweep, last]) == [first] + [last]
  {
    assert [first, sweep, last][1..] == [sweep, last] && [sweep, last][1..] == [last] && [last][1..] == [];
    assert WithoutJanitor([last]) == [last];
  }

  lemma AnswersCons(l: Limiter, e: Event, rest: seq<Event>)
    ensures Answers(l, [e] + rest) ==
            (if IsCleanup(e) then [] else [AnswerOf(l, e)]) + Answers(Next(l, e), rest)
  {
    assert ([e] + rest)[1..] == rest;
  }

  /** New and UpdateConfig give the request limiter twice its rate and the
      download limiter its rate as burst; both janitors wait 15 minutes. */
  lemma GuardIsConfigured(requestRate: nat, downloadRate: nat, now: real)
    ensures Configured(SetRate(AtRate(requestRate as real), requestRate as real * 2.0, now), 900.0)
    ensures Configured(SetRate(AtRate(downloadRate as real), downloadRate as real, now), 900.0)
  {
    AtRateSteady(requestRate as real);
    AtRateSteady(downloadRate as real);
  }

  // ---------------------------------------------------------------------
  // How much one key can be charged
  // ---------------------------------------------------------------------

  /** What a step takes from the bucket of key. */
  function ChargedBy(l: Limiter, e: Event, key: string): real {
    if (e.Allow? || e.AllowPartial?) && e.key == key then AnswerOf(l, e).charged else 0.0
  }

  /** What the calls of a run take from the bucket of key. */
  function Charged(l: Limiter, es: seq<Event>, key: string): real
    decreases |es|
  {
    if |es| == 0 then 0.0 else ChargedBy(l, es[0], key) + Charged(Next(l, es[0]), es[1..], key)
  }

  function End(es: seq<Event>, start: real): real {
    if |es| == 0 then start else End(es[1..], es[0].now)
  }

  function Last(l: Limiter, es: seq<Event>): Limiter
    decreases |es|
  {
    if |es| == 0 then l else Last(Next(l, es[0]), es[1..])
  }

  ghost predicate AllSane(es: seq<Event>) { |es| == 0 || (Sane(es[0]) && AllSane(es[1..])) }

  /** Calls and janitor ticks; the rate and the burst stay as they are. */
  predicate FixedRate(es: seq<Event>) { |es| == 0 || (!es[0].SetRate? && FixedRate(es[1..])) }

  /** Refilling later gives no more than the source yields in the time between. */
  lemma RefillLater(l: Limiter, key: string, then_: real, now: real)
    requires Sound(l, then_) && then_ <= now
    ensures Refilled(l, key, now) <= Refilled(l, key, then_) + l.source(now - then_)
  {
    SourceMono(l.source, 0.0, now - then_);
    if key in l.buckets {
      assert l.buckets[key].last <= then_;
      SourceMono(l.source, then_ - l.buckets[key].last, now - l.buckets[key].last);
      assert now - l.buckets[key].last - (then_ - l.buckets[key].last) == now - then_;
    }
  }

  /** An eviction does not show: the bucket was full by then, and a new one is. */
  lemma SweepKeepsTokens(l: Limiter, maxIdle: real, now: real, key: string)
    requires Filled(l, maxIdle) && Sound(l, now)
    ensures Refilled(Next(l, Cleanup(maxIdle, now)), key, now) == Refilled(l, key, now)
  {
    if key in l.buckets && l.buckets[key].last < now - maxIdle { IdleIsFull(l, key, maxIdle, now); }
  }

  lemma StepCharge(l: Limiter, e: Event, key: string, maxIdle: real, then_: real)
    requires Filled(l, maxIdle) && Sound(l, then_) && then_ <= e.now && Configured(e, maxIdle) && !e.SetRate?
    ensures ChargedBy(l, e, key) >= 0.0
    ensures Refilled(Next(l, e), key, e.now) + ChargedBy(l, e, key) <= Refilled(l, key, e.now)
  {
    ElapsedNonNegative(l, key, then_, e.now);
    if e.Cleanup? {
      LaterSound(l, then_, e.now);
      SweepKeepsTokens(l, maxIdle, e.now, key);
    } else if e.key == key {
      SourceMono(l.source, 0.0, 0.0);
      assert Next(l, e).buckets[key] == Bucket(Refilled(l, key, e.now) - AnswerOf(l, e).charged, e.now);
    }
  }

  lemma {:induction false} ChargeBound(l: Limiter, es: seq<Event>, key: string, maxIdle: real, start: real)
    requires Filled(l, maxIdle) && Sound(l, start) && Timed(es, start) && AllConfigured(es, maxIdle) && FixedRate(es)
    ensures start <= End(es, start)
    ensures Charged(l, es, key) <= Refilled(l, key, start) + l.source(End(es, start) - start)
    decreases |es|
  {
    if |es| == 0 {
      ElapsedNonNegative(l, key, start, start);
      SourceMono(l.source, 0.0, 0.0);
    } else {
      var e := es[0];
      assert Configured(e, maxIdle);
      RefillLater(l, key, start, e.now);
      StepCharge(l, e, key, maxIdle, start);
      StepSound(l, e, start);
      ChargeBound(Next(l, e), es[1..], key, maxIdle, e.now);
      SourceMono(l.source, e.now - start, End(es, start) - start);
      assert End(es, start) - start - (e.now - start) == End(es, start) - e.now;
    }
  }

  lemma {:induction false} LastSound(l: Limiter, es: seq<Event>, start: real)
    requires Sound(l, start) && Timed(es, start) && AllSane(es)
    ensures Sound(Last(l, es), End(es, start))
    decreases |es|
  {
    if |es| > 0 {
      StepSound(l, es[0], start);
      LastSound(Next(l, es[0]), es[1..], es[0].now);
    }
  }

  /** After any run, tokens lie between 0 and burst, and in any window of further
      calls and janitor ticks at a fixed rate one key is charged at most burst plus
      what the window refills, allow and allowPartial taken together. */
  lemma WindowBound(l0: Limiter, before: seq<Event>, window: seq<Event>, key: string, maxIdle: real, start: real)
    requires Sound(l0, start) && Timed(before, start) && AllSane(before) && Filled(Last(l0, before), maxIdle)
    requires Timed(window, End(before, start)) && AllConfigured(window, maxIdle) && FixedRate(window)
    ensures var l, t := Last(l0, before), End(before, start);
            0.0 <= Refilled(l, key, t) <= l.burst &&
            Charged(l, window, key) <= l.burst + l.source(End(window, t) - t)
  {
    var l, t := Last(l0, before), End(before, start);
    LastSound(l0, before, start);
    ElapsedNonNegative(l, key, t, t);
    ChargeBound(l, window, key, maxIdle, t);
  }

  /** That is burst + rate times the length of the window. */
  lemma WindowAtRate(l0: Limiter, before: seq<Event>, l: Limiter, window: seq<Event>, key: string, maxIdle: real,
                     start: real, rate: real, span: real)
    requires Sound(l0, start) && Timed(before, start) && AllSane(before)
    requires l == Last(l0, before) && l.source == AtRate(rate) && Filled(l, maxIdle)
    requires Timed(window, End(before, start)) && AllConfigured(window, maxIdle) && FixedRate(window)
    requires End(window, End(before, start)) == End(before, start) + span
    ensures Charged(l, window, key) <= l.burst + span * rate
  {
    WindowBound(l0, before, window, key, maxIdle, start);
    AtRateIs(rate, span);
  }

  /** allowPartial never turns a payload away for its size: with a burst of at
      least floor, a key that was idle for floor/rate seconds is admitted; with a
      smaller burst no key is ever admitted. */
  lemma PartialAdmits(l: Limiter, key: string, want: real, floor: real, then_: real, now: real, rate: real)
    requires rate > 0.0 && l.source == AtRate(rate)
    requires floor >= 0.0 && Sound(l, then_) && then_ <= now
    ensures l.burst >= floor && (key in l.buckets ==> now - l.buckets[key].last >= floor / rate) ==>
              AnswerOf(l, AllowPartial(key, want, floor, now)).ok
    ensures l.burst < floor ==> !AnswerOf(l, AllowPartial(key, want, floor, now)).ok
  {
    ElapsedNonNegative(l, key, then_, now);
    if key in l.buckets && now - l.buckets[key].last >= floor / rate {
      assert l.buckets[key].tokens >= 0.0;
      assert floor / rate * rate == floor;
      assert floor / rate >= 0.0;
      SourceMono(l.source, floor / rate, now - l.buckets[key].last);
    }
  }

  /** A call takes what it charges from the bucket of its key, and no other bucket
      changes; allow charges its cost, allowPartial all that is wanted or all there
      is, and a refused call nothing. */
  lemma CallSpends(l: Limiter, e: Event, then_: real, other: string)
    requires Sound(l, then_) && then_ <= e.now && Sane(e) && (e.Allow? || e.AllowPartial?)
    ensures var a, had := AnswerOf(l, e), Refilled(l, e.key, e.now);
            Refilled(Next(l, e), e.key, e.now) == had - a.charged &&
            (a.ok <==> had >= if e.Allow? then e.cost else e.floor) &&
            a.charged ==
              if !a.ok then 0.0 else if e.Allow? then e.cost else if e.want < had then e.want else had
    ensures other != e.key ==>
              (other in Next(l, e).buckets <==> other in l.buckets) &&
              (other in l.buckets ==> Next(l, e).buckets[other] == l.buckets[other])
  {
    ElapsedNonNegative(l, e.key, then_, e.now);
    SourceMono(l.source, 0.0, 0.0);
    assert Next(l, e).buckets[e.key] == Bucket(Refilled(l, e.key, e.now) - AnswerOf(l, e).charged, e.now);
  }

  /** A payload that is larger than what is left drains the bucket: at the same time
      nothing more is admitted above any floor. */
  lemma LargePayloadDrains(l: Limiter, key: string, want: real, floor: real, next: real, nextFloor: real, then_: real,
                           now: real)
    requires Sound(l, then_) && then_ <= now && floor >= 0.0 && next >= 0.0 && nextFloor > 0.0
    requires want >= Refilled(l, key, now) >= floor
    ensures var l' := Next(l, AllowPartial(key, want, floor, now));
            !AnswerOf(l', AllowPartial(key, next, nextFloor, now)).ok
  {
    ElapsedNonNegative(l, key, then_, now);
    CallSpends(l, AllowPartial(key, want, floor, now), then_, key);
  }
}
