// internal/guard/guard.go: the order of ban, limit and strike. A request, a
// download charge, a configuration change and a janitor's tick are one step
// each and read the clock once, in nanoseconds.
module Guard {
  import L = Limiter
  import B = Bans

  datatype Chain = Chain(req: L.Limiter, dl: L.Limiter, bans: B.Table, disabled: bool)

  /** honeypot: the path is a decoy; scripted: the user agent is suspicious. */
  datatype Event =
    | Request(key: string, honeypot: bool, scripted: bool, now: int)
    | Download(key: string, n: int, now: int)
    | Configure(disabled: bool, requestRate: nat, downloadRate: nat, now: int)
    | SweepRequests(now: int)
    | SweepDownloads(now: int)
    | SweepBans(now: int)

  datatype Reply = NotFound | Banned(remaining: int) | Limited | Served | Refused | Done

  const MAX_IDLE := 900.0
  const FLOOR := 65536.0

  function Seconds(now: int): real { now as real / 1_000_000_000.0 }

  function Call(e: Event): L.Event
    requires e.Request? || e.Download?
  {
    if e.Request? then L.Allow(e.key, 1.0, Seconds(e.now))
    else L.AllowPartial(e.key, e.n as real, FLOOR, Seconds(e.now))
  }

  /** The bypass: nothing is charged, looked up or struck. */
  predicate Bypassed(c: Chain, e: Event) { e.Download? && (c.disabled || e.n <= 0) }

  function ReplyTo(c: Chain, e: Event): Reply {
    match e
    case Request(key, honeypot, scripted, now) =>
      if c.disabled then Served
      else if honeypot then NotFound
      else if B.InForce(c.bans, key, now) then Banned(c.bans.until[key] - now)
      else if L.AnswerOf(c.req, Call(e)).ok then Served else Limited
    case Download(key, n, now) =>
      if Bypassed(c, e) || L.AnswerOf(c.dl, Call(e)).ok then Served else Refused
    case _ => Done
  }

  function After(c: Chain, e: Event): Chain {
    match e
    case Request(key, honeypot, scripted, now) =>
      if c.disabled then c
      else if honeypot then c.(bans := B.BannedFor(c.bans, key, B.BAN_MAX, now))
      else
        var looked := B.Looked(c.bans, key, now);
        if B.InForce(c.bans, key, now) then c.(bans := looked)
        else
          c.(req := L.Next(c.req, Call(e)),
             bans := if L.AnswerOf(c.req, Call(e)).ok && scripted then B.Struck(looked, key, now) else looked)
    case Download(key, n, now) =>
      if Bypassed(c, e) then c
      else
        c.(dl := L.Next(c.dl, Call(e)),
           bans := if L.AnswerOf(c.dl, Call(e)).ok then c.bans else B.Struck(c.bans, key, now))
    case Configure(disabled, requestRate, downloadRate, now) =>
      c.(disabled := disabled,
         req := L.Next(c.req, L.SetRate(L.AtRate(requestRate as real), requestRate as real * 2.0, Seconds(now))),
         dl := L.Next(c.dl, L.SetRate(L.AtRate(downloadRate as real), downloadRate as real, Seconds(now))))
    case SweepRequests(now) => c.(req := L.Next(c.req, L.Cleanup(MAX_IDLE, Seconds(now))))
    case SweepDownloads(now) => c.(dl := L.Next(c.dl, L.Cleanup(MAX_IDLE, Seconds(now))))
    case SweepBans(now) => c.(bans := B.Swept(c.bans, now))
  }

  function Fresh(requestRate: nat, downloadRate: nat, disabled: bool): Chain {
    Chain(L.Limiter(map[], L.AtRate(requestRate as real), requestRate as real * 2.0),
          L.Limiter(map[], L.AtRate(downloadRate as real), downloadRate as real),
          B.Table(map[], map[], map[]), disabled)
  }

  // ---------------------------------------------------------------------
  // The guard
  // ---------------------------------------------------------------------

  class Guard {
    const req: L.Buckets
    const dl: L.Buckets
    const banned: B.BanTable
    var disabled: bool

    ghost predicate Valid() { req != dl }

    ghost function View(): Chain
      reads this, req, dl, banned
    {
      Chain(req.View(), dl.View(), banned.View(), disabled)
    }

    constructor (disabled: bool, requestRate: nat, downloadRate: nat)
      ensures Valid() && fresh(req) && fresh(dl) && fresh(banned)
      ensures View() == Fresh(requestRate, downloadRate, disabled)
    {
      req := new L.Buckets(requestRate as real, requestRate as real * 2.0);
      dl := new L.Buckets(downloadRate as real, downloadRate as real);
      banned := new B.BanTable();
      this.disabled := disabled;
    }

    method Middleware(key: string, honeypot: bool, scripted: bool, now: int) returns (reply: Reply)
      requires Valid()
      modifies req, banned
      ensures var e := Request(key, honeypot, scripted, now);
              View() == After(old(View()), e) && reply == ReplyTo(old(View()), e)
    {
      if disabled { return Served; }
      if honeypot {
        banned.Ban(key, 24 * 60 * B.MINUTE, now);
        return NotFound;
      }
      var isBanned, remaining := banned.Banned(key, now);
      if isBanned { return Reply.Banned(remaining); }
      var allowed := req.Allow(key, 1.0, Seconds(now));
      if !allowed { return Limited; }
      if scripted { banned.Strike(key, now); }
      reply := Served;
    }

    method AllowDownload(key: string, n: int, now: int) returns (reply: Reply)
      requires Valid()
      modifies dl, banned
      ensures var e := Download(key, n, now);
              View() == After(old(View()), e) && reply == ReplyTo(old(View()), e)
    {
      if disabled || n <= 0 { return Served; }
      var allowed := dl.AllowPartial(key, n as real, FLOOR, Seconds(now));
      if !allowed {
        banned.Strike(key, now);
        return Refused;
      }
      reply := Served;
    }

    method UpdateConfig(disabled: bool, requestRate: nat, downloadRate: nat, now: int)
      requires Valid()
      modifies this, req, dl
      ensures View() == After(old(View()), Configure(disabled, requestRate, downloadRate, now))
    {
      this.disabled := disabled;
      req.SetRate(requestRate as real, requestRate as real * 2.0, Seconds(now));
      dl.SetRate(downloadRate as real, downloadRate as real, Seconds(now));
    }
  }

  // ---------------------------------------------------------------------
  // No janitor shows
  // ---------------------------------------------------------------------

  predicate IsSweep(e: Event) { e.SweepRequests? || e.SweepDownloads? || e.SweepBans? }

  /** A limiter whose burst refills within the janitor's patience, and what its
      janitor has left of it. */
  ghost predicate Shadows(l: L.Limiter, full: L.Limiter, now: int) {
    L.Filled(full, MAX_IDLE) && L.Sound(full, Seconds(now)) && L.Evicted(l, full, MAX_IDLE, Seconds(now))
  }

  ghost predicate Alike(c: Chain, full: Chain, now: int) {
    c.disabled == full.disabled && Shadows(c.req, full.req, now) && Shadows(c.dl, full.dl, now) &&
    B.Evicted(c.bans, full.bans, now)
  }

  lemma ShadowStep(l: L.Limiter, full: L.Limiter, e: L.Event, then_: int, now: int)
    requires Shadows(l, full, then_) && then_ <= now && e.now == Seconds(now) && L.Configured(e, MAX_IDLE)
    ensures var full' := if L.IsCleanup(e) then full else L.Next(full, e);
            L.AnswerOf(l, e) == L.AnswerOf(full, e) && Shadows(L.Next(l, e), full', now)
  {
    L.StepEvicted(l, full, e, MAX_IDLE, Seconds(then_));
    L.StepSound(full, e, Seconds(then_));
    L.LaterSound(full, Seconds(then_), Seconds(now));
  }

  lemma ShadowLater(l: L.Limiter, full: L.Limiter, then_: int, now: int)
    requires Shadows(l, full, then_) && then_ <= now
    ensures Shadows(l, full, now)
  {
    L.LaterSound(full, Seconds(then_), Seconds(now));
  }

  lemma RequestAlike(c: Chain, full: Chain, e: Event, then_: int)
    requires e.Request? && Alike(c, full, then_) && Alike(c, full, e.now) && then_ <= e.now
    ensures ReplyTo(c, e) == ReplyTo(full, e) && Alike(After(c, e), After(full, e), e.now)
  {
    var key, now := e.key, e.now;
    B.BannedEvicted(c.bans, full.bans, key, B.BAN_MAX, now);
    B.LookedEvicted(c.bans, full.bans, key, now);
    B.StruckEvicted(B.Looked(c.bans, key, now), B.Looked(full.bans, key, now), key, now);
    ShadowStep(c.req, full.req, Call(e), then_, now);
  }

  lemma DownloadAlike(c: Chain, full: Chain, e: Event, then_: int)
    requires e.Download? && Alike(c, full, then_) && Alike(c, full, e.now) && then_ <= e.now
    ensures ReplyTo(c, e) == ReplyTo(full, e) && Alike(After(c, e), After(full, e), e.now)
  {
    B.StruckEvicted(c.bans, full.bans, e.key, e.now);
    if e.n > 0 { ShadowStep(c.dl, full.dl, Call(e), then_, e.now); }
  }

  lemma ConfigureAlike(c: Chain, full: Chain, e: Event, then_: int)
    requires e.Configure? && Alike(c, full, then_) && Alike(c, full, e.now) && then_ <= e.now
    ensures Alike(After(c, e), After(full, e), e.now)
  {
    var now, requestRate, downloadRate := Seconds(e.now), e.requestRate as real, e.downloadRate as real;
    L.GuardIsConfigured(e.requestRate, e.downloadRate, now);
    ShadowStep(c.req, full.req, L.SetRate(L.AtRate(requestRate), requestRate * 2.0, now), then_, e.now);
    ShadowStep(c.dl, full.dl, L.SetRate(L.AtRate(downloadRate), downloadRate, now), then_, e.now);
  }

  lemma AlikeStep(c: Chain, full: Chain, e: Event, then_: int)
    requires Alike(c, full, then_) && then_ <= e.now
    ensures ReplyTo(c, e) == ReplyTo(full, e)
    ensures Alike(After(c, e), if IsSweep(e) then full else After(full, e), e.now)
  {
    var now := e.now;
    ShadowLater(c.req, full.req, then_, now);
    ShadowLater(c.dl, full.dl, then_, now);
    B.LaterEvicted(c.bans, full.bans, then_, now);
    match e
    case Request(_, _, _, _) => RequestAlike(c, full, e, then_);
    case Download(_, _, _) => DownloadAlike(c, full, e, then_);
    case Configure(_, _, _, _) => ConfigureAlike(c, full, e, then_);
    case SweepRequests(_) => ShadowStep(c.req, full.req, L.Cleanup(MAX_IDLE, Seconds(now)), then_, now);
    case SweepDownloads(_) => ShadowStep(c.dl, full.dl, L.Cleanup(MAX_IDLE, Seconds(now)), then_, now);
    case SweepBans(_) => B.SweptEvicted(c.bans, full.bans, now);
  }

  function Replies(c: Chain, es: seq<Event>): seq<Reply>
    decreases |es|
  {
    if |es| == 0 then []
    else (if IsSweep(es[0]) then [] else [ReplyTo(c, es[0])]) + Replies(After(c, es[0]), es[1..])
  }

  function WithoutSweeps(es: seq<Event>): seq<Event> {
    if |es| == 0 then [] else (if IsSweep(es[0]) then [] else [es[0]]) + WithoutSweeps(es[1..])
  }

  predicate Timed(es: seq<Event>, start: int) { |es| == 0 || (start <= es[0].now && Timed(es[1..], es[0].now)) }

  lemma SkipOrMatch(c: Chain, es: seq<Event>)
    requires |es| > 0
    ensures var rest := WithoutSweeps(es[1..]);
            Replies(c, WithoutSweeps(es)) ==
            if IsSweep(es[0]) then Replies(c, rest) else [ReplyTo(c, es[0])] + Replies(After(c, es[0]), rest)
  {
    var rest := WithoutSweeps(es[1..]);
    if IsSweep(es[0]) {
      assert WithoutSweeps(es) == rest;
    } else {
      var all := [es[0]] + rest;
      assert all[0] == es[0] && all[1..] == rest;
      assert WithoutSweeps(es) == all;
    }
  }

  lemma {:induction false} SweepsInvisibleFrom(c: Chain, full: Chain, es: seq<Event>, start: int)
    requires Alike(c, full, start) && Timed(es, start)
    ensures Replies(c, es) == Replies(full, WithoutSweeps(es))
    decreases |es|
  {
    if |es| > 0 {
      var e := es[0];
      AlikeStep(c, full, e, start);
      SkipOrMatch(full, es);
      SweepsInvisibleFrom(After(c, e), if IsSweep(e) then full else After(full, e), es[1..], e.now);
    }
  }

  /** Over every run of requests, downloads, configuration changes and ticks of
      the three janitors, the guard gives the replies, and the remaining ban
      times, that it would give if no janitor ran. */
  lemma SweepsInvisible(requestRate: nat, downloadRate: nat, disabled: bool, es: seq<Event>, start: int)
    requires Timed(es, start)
    ensures var c := Fresh(requestRate, downloadRate, disabled); Replies(c, es) == Replies(c, WithoutSweeps(es))
  {
    var c := Fresh(requestRate, downloadRate, disabled);
    L.GuardIsConfigured(requestRate, downloadRate, Seconds(start));
    SweepsInvisibleFrom(c, c, es, start);
  }

  // ---------------------------------------------------------------------
  // A ban in force
  // ---------------------------------------------------------------------

  /** e leaves a running ban of key with an earlier end, or with none. */
  predicate MovesEarlier(c: Chain, e: Event, key: string) {
    B.InForce(c.bans, key, e.now) &&
    !(key in After(c, e).bans.until && After(c, e).bans.until[key] >= c.bans.until[key])
  }

  /** A refused download whose strike bans, for a shorter time than is left. */
  predicate Shortening(c: Chain, e: Event) {
    e.Download? && !Bypassed(c, e) && !L.AnswerOf(c.dl, Call(e)).ok && B.InForce(c.bans, e.key, e.now) &&
    var count := B.Count(c.bans, e.key, e.now);
    count >= B.STRIKE_THRESHOLD && e.now + B.BanLength(count) < c.bans.until[e.key]
  }

  lemma MovesEarlierExactly(c: Chain, e: Event, key: string)
    requires B.Bounded(c.bans, e.now)
    ensures MovesEarlier(c, e, key) <==> Shortening(c, e) && e.key == key
  {
    if e.Request? && B.InForce(c.bans, key, e.now) && key == e.key {
      assert After(c, e).bans.until[key] >= c.bans.until[key];
    }
  }

  lemma AfterBounded(c: Chain, e: Event, then_: int)
    requires B.Bounded(c.bans, then_) && then_ <= e.now
    ensures B.Bounded(After(c, e).bans, e.now)
  {
    if e.Request? { B.StruckBounded(B.Looked(c.bans, e.key, e.now), e.key, e.now); }
    if e.Download? { B.StruckBounded(c.bans, e.key, e.now); }
  }

  /** Nothing in the run shortens a ban as above. */
  predicate NothingShortens(c: Chain, es: seq<Event>)
    decreases |es|
  {
    |es| == 0 || (!Shortening(c, es[0]) && NothingShortens(After(c, es[0]), es[1..]))
  }

  function Last(c: Chain, es: seq<Event>): Chain
    decreases |es|
  {
    if |es| == 0 then c else Last(After(c, es[0]), es[1..])
  }

  function End(es: seq<Event>, start: int): int { if |es| == 0 then start else End(es[1..], es[0].now) }

  /** No request of key got past the ban while the guard was on. */
  predicate KeptOut(c: Chain, es: seq<Event>, key: string)
    decreases |es|
  {
    |es| == 0 ||
    ((es[0].Request? && es[0].key == key && !c.disabled ==> ReplyTo(c, es[0]).NotFound? || ReplyTo(c, es[0]).Banned?) &&
     KeptOut(After(c, es[0]), es[1..], key))
  }

  lemma {:induction false} EndLater(es: seq<Event>, start: int)
    requires Timed(es, start)
    ensures start <= End(es, start)
  {
    if |es| > 0 { EndLater(es[1..], es[0].now); }
  }

  /** Through any run that ends before the ban does and in which no refused
      download shortens it, the ban stays, never ends earlier, and keeps every
      request of its key out. */
  lemma {:induction false} BanHolds(c: Chain, es: seq<Event>, key: string, start: int)
    requires B.Bounded(c.bans, start) && Timed(es, start) && NothingShortens(c, es)
    requires key in c.bans.until && End(es, start) < c.bans.until[key]
    ensures key in Last(c, es).bans.until && c.bans.until[key] <= Last(c, es).bans.until[key]
    ensures KeptOut(c, es, key)
    decreases |es|
  {
    if |es| > 0 {
      var e := es[0];
      EndLater(es[1..], e.now);
      MovesEarlierExactly(c, e, key);
      AfterBounded(c, e, start);
      BanHolds(After(c, e), es[1..], key, e.now);
    }
  }

  /** Whole requests: a download is charged by the request that was just served to
      the same key, before another step. */
  predicate WholeRequests(c: Chain, es: seq<Event>)
    decreases |es|
  {
    |es| == 0 ||
    (!es[0].Download? &&
     if |es| > 1 && es[1].Download? then
       ServedTo(c, es[0], es[1]) && WholeRequests(After(After(c, es[0]), es[1]), es[2..])
     else WholeRequests(After(c, es[0]), es[1..]))
  }

  predicate ServedTo(c: Chain, request: Event, download: Event) {
    request.Request? && download.Download? && ReplyTo(c, request).Served? &&
    request.key == download.key && request.now <= download.now
  }

  /** A served key is not banned, unless by the strike of this very request, and
      then the next strike of the row bans for no shorter. */
  lemma ServedNotShortened(c: Chain, request: Event, download: Event)
    requires ServedTo(c, request, download)
    ensures !Shortening(After(c, request), download)
  {
    var bans, key := B.Looked(c.bans, request.key, request.now), request.key;
    if !c.disabled && request.scripted && B.Count(bans, key, request.now) >= B.STRIKE_THRESHOLD {
      var count := B.Count(bans, key, request.now);
      B.LongerBans(count);
      var again := B.Count(After(c, request).bans, key, download.now);
      assert again == count + 1 || again == 1;
    }
  }

  /** Whole requests never shorten a ban: one that is looked up as banned goes no
      further. */
  lemma {:induction false} WholeRequestsNeverShorten(c: Chain, es: seq<Event>)
    requires WholeRequests(c, es)
    ensures NothingShortens(c, es)
    decreases |es|
  {
    if |es| > 1 && es[1].Download? {
      ServedNotShortened(c, es[0], es[1]);
      WholeRequestsNeverShorten(After(After(c, es[0]), es[1]), es[2..]);
      assert es[1..][1..] == es[2..] && es[1..][0] == es[1];
      assert NothingShortens(After(c, es[0]), es[1..]);
    } else if |es| > 0 {
      WholeRequestsNeverShorten(After(c, es[0]), es[1..]);
    }
  }

  lemma {:induction false} LastBounded(c: Chain, es: seq<Event>, start: int)
    requires B.Bounded(c.bans, start) && Timed(es, start)
    ensures B.Bounded(Last(c, es).bans, End(es, start))
    decreases |es|
  {
    if |es| > 0 {
      AfterBounded(c, es[0], start);
      LastBounded(After(c, es[0]), es[1..], es[0].now);
    }
  }

  /** From a fresh guard: after any run, a ban in force is not ended earlier by
      whole requests, configuration changes and janitors, and keeps every request
      of its key out until it ends. */
  lemma BansAreServed(requestRate: nat, downloadRate: nat, disabled: bool, before: seq<Event>, es: seq<Event>,
                      key: string, start: int)
    requires Timed(before, start) && Timed(es, End(before, start))
    requires var c := Last(Fresh(requestRate, downloadRate, disabled), before);
             WholeRequests(c, es) && key in c.bans.until && End(es, End(before, start)) < c.bans.until[key]
    ensures var c := Last(Fresh(requestRate, downloadRate, disabled), before);
            key in Last(c, es).bans.until && c.bans.until[key] <= Last(c, es).bans.until[key] && KeptOut(c, es, key)
  {
    var c0 := Fresh(requestRate, downloadRate, disabled);
    LastBounded(c0, before, start);
    WholeRequestsNeverShorten(Last(c0, before), es);
    BanHolds(Last(c0, before), es, key, End(before, start));
  }

  /** A guard whose download rate is below the floor refuses every download. */
  lemma RefusedBelowFloor(c: Chain, key: string, n: int, now: int)
    requires c.dl.burst < FLOOR && !c.disabled && n > 0
    ensures var e := Download(key, n, now);
            ReplyTo(c, e) == Refused && After(c, e).bans == B.Struck(c.bans, key, now) &&
            After(c, e).dl.burst == c.dl.burst && !After(c, e).disabled
  {}

  lemma {:induction false} LastSnoc(c: Chain, es: seq<Event>, e: Event)
    ensures Last(c, es + [e]) == After(Last(c, es), e)
    decreases |es|
  {
    if |es| == 0 {
      assert es + [e] == [e] && [e][1..] == [];
    } else {
      assert (es + [e])[1..] == es[1..] + [e];
      LastSnoc(After(c, es[0]), es[1..], e);
    }
  }

  function Times(e: Event, n: nat): seq<Event> { if n == 0 then [] else Times(e, n - 1) + [e] }

  /** Each of n times e is let through. */
  predicate AllServed(c: Chain, e: Event, n: nat) {
    n == 0 || (AllServed(c, e, n - 1) && ReplyTo(Last(c, Times(e, n - 1)), e).Served?)
  }

  /** A guard of so many requests a second with this many tokens left for key. */
  ghost predicate HasTokens(c: Chain, key: string, rate: nat, tokens: int) {
    !c.disabled && c.req.source == L.AtRate(rate as real) && c.req.burst == rate as real * 2.0 &&
    L.Refilled(c.req, key, Seconds(0)) == tokens as real <= c.req.burst
  }

  /** A request within the budget is served and takes one token; a scripted one is
      struck as well, an unscripted one changes no ban. */
  lemma RequestServed(c: Chain, key: string, scripted: bool, rate: nat, tokens: int)
    requires HasTokens(c, key, rate, tokens) && tokens >= 1 && key !in c.bans.until
    ensures var e := Request(key, false, scripted, 0); var c' := After(c, e);
            ReplyTo(c, e).Served? && HasTokens(c', key, rate, tokens - 1) && c'.dl == c.dl &&
            c'.bans == if scripted then B.Struck(c.bans, key, 0) else c.bans
  {
    var c' := After(c, Request(key, false, scripted, 0));
    assert c.bans.until - {key} == c.bans.until;
    assert c'.req.buckets[key] == L.Bucket(tokens as real - 1.0, Seconds(0));
    L.AtRateIs(rate as real, Seconds(0) - Seconds(0));
  }

  /** A key that has not been seen may send twice the rate at once. */
  lemma {:induction false} RequestsServed(c: Chain, key: string, rate: nat, n: nat)
    requires HasTokens(c, key, rate, 2 * rate) && key !in c.bans.until && n <= 2 * rate
    ensures var e := Request(key, false, false, 0); var c' := Last(c, Times(e, n));
            AllServed(c, e, n) && c'.bans == c.bans && c'.dl == c.dl && HasTokens(c', key, rate, 2 * rate - n)
  {
    if n > 0 {
      var e := Request(key, false, false, 0);
      RequestsServed(c, key, rate, n - 1);
      LastSnoc(c, Times(e, n - 1), e);
      RequestServed(Last(c, Times(e, n - 1)), key, false, rate, 2 * rate - (n - 1));
    }
  }

  /** And no more: then requests are answered as limited, and nobody is struck. */
  lemma BudgetSpent(c: Chain, key: string, scripted: bool, rate: nat)
    requires HasTokens(c, key, rate, 0) && key !in c.bans.until
    ensures var e := Request(key, false, scripted, 0); ReplyTo(c, e).Limited? && After(c, e).bans == c.bans
  {
    assert c.bans.until - {key} == c.bans.until;
  }

  /** Five scripted requests are served, the fifth bans the key for 15 minutes, and
      the sixth is turned away. */
  lemma ScriptedRowBans(downloadRate: nat, key: string)
    ensures var c, e := Fresh(60, downloadRate, false), Request(key, false, true, 0);
            var c5 := Last(c, Times(e, 5));
            AllServed(c, e, 5) && key in c5.bans.until && c5.bans.until[key] == 900_000_000_000 &&
            ReplyTo(c5, e) == Banned(900_000_000_000)
  {
    var c := Fresh(60, downloadRate, false);
    ScriptedRow(c, key, 5);
    B.RowBans(c.bans, key, Zeros(5));
  }

  /** The guard after k scripted requests of key. */
  ghost predicate AfterScripted(bans: B.Table, key: string, c: Chain, k: nat) {
    HasTokens(c, key, 60, 120 - k) && c.bans == B.StrikeAll(bans, key, Zeros(k))
  }

  lemma ScriptedStep(bans: B.Table, key: string, c: Chain, k: nat)
    requires bans == B.Table(map[], map[], map[]) && AfterScripted(bans, key, c, k) && k < 5
    ensures var e := Request(key, false, true, 0);
            ReplyTo(c, e).Served? && AfterScripted(bans, key, After(c, e), k + 1)
  {
    if k > 0 { B.RowBans(bans, key, Zeros(k)); }
    assert key !in c.bans.until;
    RequestServed(c, key, true, 60, 120 - k);
    B.StrikeSnoc(bans, key, Zeros(k), 0);
    assert Zeros(k + 1) == Zeros(k) + [0];
  }

  lemma ScriptedRow(c: Chain, key: string, n: nat)
    requires c.bans == B.Table(map[], map[], map[]) && HasTokens(c, key, 60, 120) && n <= 5
    ensures var e := Request(key, false, true, 0);
            AllServed(c, e, n) && AfterScripted(c.bans, key, Last(c, Times(e, n)), n)
  {
    var e := Request(key, false, true, 0);
    var inv := (c': Chain, k: nat) => k > n || AfterScripted(c.bans, key, c', k);
    forall c', k: nat
      ensures Keeps(e, inv, c', k) && Serves(e, inv, n, c', k)
    {
      if k < n && inv(c', k) { ScriptedStep(c.bans, key, c', k); }
    }
    assert Zeros(0) == [];
    TimesKeeps(c, e, n, inv);
    TimesServed(c, e, n, n, inv);
  }

  /** A fresh guard admits a download at once exactly if its rate reaches 64 KiB a
      second. */
  lemma FirstDownload(requestRate: nat, downloadRate: nat, key: string, n: int, now: int)
    requires n > 0
    ensures var c := Fresh(requestRate, downloadRate, false);
            ReplyTo(c, Download(key, n, now)) == if downloadRate >= 65536 then Served else Refused
  {}

  /** Without the guard every request and download is served, and nothing is charged
      or banned. */
  lemma {:induction false} DisabledServes(c: Chain, es: seq<Event>)
    requires c.disabled && OnlyUsed(es)
    ensures Last(c, es) == c && AllPass(c, es)
    decreases |es|
  {
    if |es| > 0 {
      assert After(c, es[0]) == c;
      DisabledServes(c, es[1..]);
    }
  }

  predicate AllPass(c: Chain, es: seq<Event>)
    decreases |es|
  {
    |es| == 0 || (ReplyTo(c, es[0]).Served? && AllPass(After(c, es[0]), es[1..]))
  }

  predicate OnlyUsed(es: seq<Event>) { |es| == 0 || ((es[0].Request? || es[0].Download?) && OnlyUsed(es[1..])) }

  function Zeros(n: nat): (r: seq<int>)
    ensures |r| == n && forall i :: 0 <= i < n ==> r[i] == 0
    ensures B.IsRow(r)
  {
    if n == 0 then []
    else
      assert (Zeros(n - 1) + [0])[..n - 1] == Zeros(n - 1);
      Zeros(n - 1) + [0]
  }

  ghost predicate Keeps(e: Event, inv: (Chain, nat) -> bool, c: Chain, k: nat) {
    inv(c, k) ==> inv(After(c, e), k + 1)
  }

  ghost predicate Serves(e: Event, inv: (Chain, nat) -> bool, n: nat, c: Chain, k: nat) {
    k < n && inv(c, k) ==> ReplyTo(c, e).Served?
  }

  lemma {:induction false} TimesKeeps(c: Chain, e: Event, n: nat, inv: (Chain, nat) -> bool)
    requires inv(c, 0) && forall c', k: nat :: Keeps(e, inv, c', k)
    ensures inv(Last(c, Times(e, n)), n)
  {
    if n > 0 {
      TimesKeeps(c, e, n - 1, inv);
      LastSnoc(c, Times(e, n - 1), e);
      assert Keeps(e, inv, Last(c, Times(e, n - 1)), n - 1);
    }
  }

  lemma {:induction false} TimesServed(c: Chain, e: Event, k: nat, n: nat, inv: (Chain, nat) -> bool)
    requires inv(c, 0) && forall c', k: nat :: Keeps(e, inv, c', k) && Serves(e, inv, n, c', k)
    requires k <= n
    ensures AllServed(c, e, k)
  {
    if k > 0 {
      TimesServed(c, e, k - 1, n, inv);
      forall c', j: nat
        ensures Keeps(e, inv, c', j)
      {
        assert Keeps(e, inv, c', j) && Serves(e, inv, n, c', j);
      }
      TimesKeeps(c, e, k - 1, inv);
      assert Serves(e, inv, n, Last(c, Times(e, k - 1)), k - 1);
    }
  }

  /** The guard after k refused downloads of key. */
  ghost predicate AfterRefused(bans: B.Table, key: string, c: Chain, k: nat) {
    c.bans == B.StrikeAll(bans, key, Zeros(k)) && c.dl.burst < FLOOR && !c.disabled
  }

  lemma RefusedStep(bans: B.Table, key: string, c: Chain, k: nat)
    requires AfterRefused(bans, key, c, k)
    ensures AfterRefused(bans, key, After(c, Download(key, 1, 0)), k + 1)
  {
    RefusedBelowFloor(c, key, 1, 0);
    B.StrikeSnoc(bans, key, Zeros(k), 0);
    assert Zeros(k + 1) == Zeros(k) + [0];
  }

  lemma DownloadsRefused(c: Chain, key: string, n: nat)
    requires c.dl.burst < FLOOR && !c.disabled
    ensures AfterRefused(c.bans, key, Last(c, Times(Download(key, 1, 0), n)), n)
  {
    var e := Download(key, 1, 0);
    var inv := (c': Chain, k: nat) => AfterRefused(c.bans, key, c', k);
    forall c', k: nat
      ensures Keeps(e, inv, c', k)
    {
      if inv(c', k) { RefusedStep(c.bans, key, c', k); }
    }
    assert Zeros(0) == [];
    TimesKeeps(c, e, n, inv);
  }

  /** From a fresh guard: five requests of key are let through; before their
      downloads are charged, key asks for a decoy, which bans it for a day. Then the
      five charges are refused, and the last of their strikes brings the end of the
      ban forward to 15 minutes. */
  lemma DecoyBanShortened(downloadRate: nat, key: string)
    requires downloadRate < 65536
    ensures var request, decoy := Request(key, false, false, 0), Request(key, true, false, 0);
            var c0 := Fresh(60, downloadRate, false);
            var banned := After(Last(c0, Times(request, 5)), decoy);
            var late := Last(banned, Times(Download(key, 1, 0), 5));
            AllServed(c0, request, 5) &&
            key in banned.bans.until && banned.bans.until[key] == 86_400_000_000_000 &&
            key in late.bans.until && late.bans.until[key] == 900_000_000_000
  {
    var c0 := Fresh(60, downloadRate, false);
    RequestsServed(c0, key, 60, 5);
    var banned := After(Last(c0, Times(Request(key, false, false, 0), 5)), Request(key, true, false, 0));
    DownloadsRefused(banned, key, 5);
    B.RowBans(banned.bans, key, Zeros(5));
  }

  // ---------------------------------------------------------------------
  // The budgets
  // ---------------------------------------------------------------------

  datatype Budget = OfRequests | OfDownloads

  function Lim(c: Chain, b: Budget): L.Limiter { if b.OfRequests? then c.req else c.dl }

  predicate Reaches(c: Chain, e: Event, b: Budget) {
    if b.OfRequests? then e.Request? && !c.disabled && !e.honeypot && !B.InForce(c.bans, e.key, e.now)
    else e.Download? && !Bypassed(c, e)
  }

  /** What a step of the guard does to a limiter. */
  function Calls(c: Chain, e: Event, b: Budget): seq<L.Event> {
    if Reaches(c, e, b) then [Call(e)]
    else if e.Configure? then
      var rate := if b.OfRequests? then e.requestRate as real else e.downloadRate as real;
      [L.SetRate(L.AtRate(rate), if b.OfRequests? then rate * 2.0 else rate, Seconds(e.now))]
    else if (b.OfRequests? && e.SweepRequests?) || (b.OfDownloads? && e.SweepDownloads?) then
      [L.Cleanup(MAX_IDLE, Seconds(e.now))]
    else []
  }

  function ChargedIn(c: Chain, e: Event, key: string, b: Budget): real {
    if Reaches(c, e, b) then L.ChargedBy(Lim(c, b), Call(e), key) else 0.0
  }

  /** What a run charges to key: one for each request let through, and bytes. */
  function Charged(c: Chain, es: seq<Event>, key: string, b: Budget): real
    decreases |es|
  {
    if |es| == 0 then 0.0 else ChargedIn(c, es[0], key, b) + Charged(After(c, es[0]), es[1..], key, b)
  }

  predicate NoConfigure(es: seq<Event>) { |es| == 0 || (!es[0].Configure? && NoConfigure(es[1..])) }

  ghost predicate Budgeted(l: L.Limiter, now: int) { L.Filled(l, MAX_IDLE) && L.Sound(l, Seconds(now)) }

  lemma OneCall(c: Chain, e: Event, b: Budget)
    ensures var calls := Calls(c, e, b);
            Lim(After(c, e), b) == if calls == [] then Lim(c, b) else L.Next(Lim(c, b), calls[0])
    ensures forall call :: call in Calls(c, e, b) ==>
              L.Configured(call, MAX_IDLE) && call.now == Seconds(e.now) && (call.SetRate? ==> e.Configure?)
  {
    if e.Configure? { L.GuardIsConfigured(e.requestRate, e.downloadRate, Seconds(e.now)); }
  }

  lemma StaysBudgeted(c: Chain, e: Event, b: Budget, then_: int)
    requires Budgeted(Lim(c, b), then_) && then_ <= e.now
    ensures Budgeted(Lim(After(c, e), b), e.now)
  {
    OneCall(c, e, b);
    var calls := Calls(c, e, b);
    if calls == [] {
      L.LaterSound(Lim(c, b), Seconds(then_), Seconds(e.now));
    } else {
      assert calls[0] in calls;
      L.StepSound(Lim(c, b), calls[0], Seconds(then_));
    }
  }

  lemma {:induction false} RunStaysBudgeted(c: Chain, es: seq<Event>, b: Budget, start: int)
    requires Budgeted(Lim(c, b), start) && Timed(es, start)
    ensures Budgeted(Lim(Last(c, es), b), End(es, start))
    decreases |es|
  {
    if |es| > 0 {
      StaysBudgeted(c, es[0], b, start);
      RunStaysBudgeted(After(c, es[0]), es[1..], b, es[0].now);
    }
  }

  /** One step: what it charges and leaves is there before. */
  lemma StepSpends(c: Chain, e: Event, key: string, b: Budget, then_: int)
    requires Budgeted(Lim(c, b), then_) && then_ <= e.now && !e.Configure?
    ensures L.Refilled(Lim(After(c, e), b), key, Seconds(e.now)) + ChargedIn(c, e, key, b) <=
            L.Refilled(Lim(c, b), key, Seconds(e.now))
  {
    OneCall(c, e, b);
    var calls := Calls(c, e, b);
    if calls != [] {
      assert calls[0] in calls;
      L.StepCharge(Lim(c, b), calls[0], key, MAX_IDLE, Seconds(then_));
    }
  }

  lemma {:induction false} ChargesBound(c: Chain, es: seq<Event>, key: string, b: Budget, start: int)
    requires Budgeted(Lim(c, b), start) && Timed(es, start) && NoConfigure(es)
    ensures start <= End(es, start)
    ensures Charged(c, es, key, b) <=
            L.Refilled(Lim(c, b), key, Seconds(start)) + Lim(c, b).source(Seconds(End(es, start)) - Seconds(start))
    decreases |es|
  {
    if |es| == 0 {
      L.ElapsedNonNegative(Lim(c, b), key, Seconds(start), Seconds(start));
      L.SourceMono(Lim(c, b).source, 0.0, 0.0);
    } else {
      var e := es[0];
      L.RefillLater(Lim(c, b), key, Seconds(start), Seconds(e.now));
      StepSpends(c, e, key, b, start);
      StaysBudgeted(c, e, b, start);
      ChargesBound(After(c, e), es[1..], key, b, e.now);
      RatesKept(c, e, b);
      SpanSplits(Lim(c, b).source, start, e.now, End(es, start));
    }
  }

  lemma RatesKept(c: Chain, e: Event, b: Budget)
    requires !e.Configure?
    ensures Lim(After(c, e), b).source == Lim(c, b).source && Lim(After(c, e), b).burst == Lim(c, b).burst
  {}

  lemma SpanSplits(f: L.Source, t0: int, t1: int, t2: int)
    requires L.Steady(f) && t0 <= t1 <= t2
    ensures f(Seconds(t2) - Seconds(t0)) == f(Seconds(t1) - Seconds(t0)) + f(Seconds(t2) - Seconds(t1))
  {
    var first, all := Seconds(t1) - Seconds(t0), Seconds(t2) - Seconds(t0);
    L.SourceMono(f, first, all);
    assert all - first == Seconds(t2) - Seconds(t1);
  }

  lemma BudgetFrom(c: Chain, window: seq<Event>, key: string, b: Budget, start: int)
    requires Budgeted(Lim(c, b), start) && Timed(window, start) && NoConfigure(window)
    ensures Charged(c, window, key, b) <=
            Lim(c, b).burst + Lim(c, b).source(Seconds(End(window, start)) - Seconds(start))
  {
    ChargesBound(c, window, key, b, start);
    L.ElapsedNonNegative(Lim(c, b), key, Seconds(start), Seconds(start));
  }

  lemma FreshBudgeted(requestRate: nat, downloadRate: nat, disabled: bool, b: Budget, start: int)
    ensures Budgeted(Lim(Fresh(requestRate, downloadRate, disabled), b), start)
  {
    L.GuardIsConfigured(requestRate, downloadRate, Seconds(start));
  }

  /** From a fresh guard: after any run, in any window of requests, downloads and
      janitors one key is charged at most the burst and what the window's length
      refills. */
  lemma DownloadBudget(requestRate: nat, downloadRate: nat, disabled: bool, before: seq<Event>, window: seq<Event>,
                       key: string, start: int)
    requires Timed(before, start) && Timed(window, End(before, start)) && NoConfigure(window)
    ensures var c := Last(Fresh(requestRate, downloadRate, disabled), before);
            var t, end := Seconds(End(before, start)), Seconds(End(window, End(before, start)));
            Charged(c, window, key, OfDownloads) <= c.dl.burst + c.dl.source(end - t) &&
            Charged(c, window, key, OfRequests) <= c.req.burst + c.req.source(end - t)
  {
    var c0 := Fresh(requestRate, downloadRate, disabled);
    FreshBudgeted(requestRate, downloadRate, disabled, OfDownloads, start);
    FreshBudgeted(requestRate, downloadRate, disabled, OfRequests, start);
    RunStaysBudgeted(c0, before, OfDownloads, start);
    RunStaysBudgeted(c0, before, OfRequests, start);
    BudgetFrom(Last(c0, before), window, key, OfDownloads, End(before, start));
    BudgetFrom(Last(c0, before), window, key, OfRequests, End(before, start));
  }

  /** How many requests of key a run serves past the guard. */
  function ServedCount(c: Chain, es: seq<Event>, key: string): nat
    decreases |es|
  {
    if |es| == 0 then 0
    else
      (if es[0].Request? && es[0].key == key && !c.disabled && ReplyTo(c, es[0]).Served? then 1 else 0)
      + ServedCount(After(c, es[0]), es[1..], key)
  }

  lemma {:induction false} ServedAreCharged(c: Chain, es: seq<Event>, key: string)
    ensures ServedCount(c, es, key) as real == Charged(c, es, key, OfRequests)
    decreases |es|
  {
    if |es| > 0 { ServedAreCharged(After(c, es[0]), es[1..], key); }
  }

  /** The rates of a fresh guard, and of one just configured. */
  ghost predicate HasRates(c: Chain, requestRate: nat, downloadRate: nat) {
    c.req.source == L.AtRate(requestRate as real) && c.req.burst == 2.0 * requestRate as real &&
    c.dl.source == L.AtRate(downloadRate as real) && c.dl.burst == downloadRate as real
  }

  lemma RatesSet(c: Chain, disabled: bool, requestRate: nat, downloadRate: nat, now: int)
    ensures HasRates(Fresh(requestRate, downloadRate, disabled), requestRate, downloadRate)
    ensures var c' := After(c, Configure(disabled, requestRate, downloadRate, now));
            HasRates(c', requestRate, downloadRate) && c'.disabled == disabled && c'.bans == c.bans &&
            c'.req.buckets == c.req.buckets && c'.dl.buckets == c.dl.buckets
  {}

  /** A tick forgets what was last used more than 15 minutes ago, and ends no ban and
      no row of strikes that still counts. */
  lemma TicksForget(c: Chain, now: int, key: string)
    ensures key in After(c, SweepRequests(now)).req.buckets <==>
              key in c.req.buckets && c.req.buckets[key].last >= Seconds(now) - 900.0
    ensures key in After(c, SweepDownloads(now)).dl.buckets <==>
              key in c.dl.buckets && c.dl.buckets[key].last >= Seconds(now) - 900.0
    ensures key in After(c, SweepBans(now)).bans.until <==> key in c.bans.until && c.bans.until[key] >= now
    ensures key in After(c, SweepBans(now)).bans.lastSeen <==>
              key in c.bans.lastSeen && c.bans.lastSeen[key] >= now - 900_000_000_000
  {}

  /** At r requests a second at most 2r + r * seconds requests of one key are served
      in a window. */
  lemma ServedAtRate(c: Chain, requestRate: nat, downloadRate: nat, window: seq<Event>, key: string, start: int,
                     span: real)
    requires Budgeted(c.req, start) && HasRates(c, requestRate, downloadRate)
    requires Timed(window, start) && NoConfigure(window)
    requires (End(window, start) - start) as real / 1_000_000_000.0 == span
    ensures ServedCount(c, window, key) as real <= 2.0 * requestRate as real + span * requestRate as real
  {
    ServedAreCharged(c, window, key);
    ChargedAtRate(c, window, key, OfRequests, start, requestRate as real, 2.0 * requestRate as real, span);
  }

  /** At d bytes a second one key is charged at most d + d * seconds bytes in a window. */
  lemma DownloadedAtRate(c: Chain, requestRate: nat, downloadRate: nat, window: seq<Event>, key: string, start: int,
                         span: real)
    requires Budgeted(c.dl, start) && HasRates(c, requestRate, downloadRate)
    requires Timed(window, start) && NoConfigure(window)
    requires (End(window, start) - start) as real / 1_000_000_000.0 == span
    ensures Charged(c, window, key, OfDownloads) <= downloadRate as real + span * downloadRate as real
  {
    ChargedAtRate(c, window, key, OfDownloads, start, downloadRate as real, downloadRate as real, span);
  }

  lemma ChargedAtRate(c: Chain, window: seq<Event>, key: string, b: Budget, start: int, rate: real, burst: real,
                      span: real)
    requires Budgeted(Lim(c, b), start) && Lim(c, b).source == L.AtRate(rate) && Lim(c, b).burst == burst
    requires Timed(window, start) && NoConfigure(window) && Seconds(End(window, start)) - Seconds(start) == span
    ensures Charged(c, window, key, b) <= burst + span * rate
  {
    BudgetFrom(c, window, key, b, start);
    L.AtRateIs(rate, span);
  }
}
