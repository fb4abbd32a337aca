/**
 The per-IP rate limiter of the OAuth proxy: a pruned sliding window with temporary bans,
 bounded to a fixed number of IPs by dropping the least recently checked one.

 It is compared with an unbounded reference limiter that keeps every allowed request for
 ever.  Time is supplied to each call and never decreases.
 */
module RateLimiting {
  import opened Counting
  import opened OrderedDicts

  const MAX_RATE_LIMIT_IPS: nat := 10_000

  datatype Ip = Ip(address: string)

  datatype Config = Config(maxRequests: int, window: real, banDuration: real)

  datatype State = State(hits: OrderedDict<Ip, seq<real>>, bans: map<Ip, real>)

  const FRESH_STATE := State(Empty<Ip, seq<real>>(), map[])

  predicate Banned(bans: map<Ip, real>, ip: Ip, now: real) {
    ip in bans && now < bans[ip]
  }

  /** The timestamps after `cutoff`, in order. */
  function Prune(ts: seq<real>, cutoff: real): seq<real> {
    if ts == [] then []
    else if ts[0] > cutoff then [ts[0]] + Prune(ts[1..], cutoff)
    else Prune(ts[1..], cutoff)
  }

  /** The timestamps still inside the window of a check at `now`. */
  function Recent(c: Config, s: State, ip: Ip, now: real): seq<real> {
    Prune(s.hits.Get(ip, []), now - c.window)
  }

  predicate Allows(c: Config, s: State, ip: Ip, now: real) {
    !Banned(s.bans, ip, now) && |Recent(c, s, ip, now)| < c.maxRequests
  }

  /** What a check stores for its IP. */
  function Stored(c: Config, s: State, ip: Ip, now: real): seq<real> {
    Recent(c, s, ip, now) + if Allows(c, s, ip, now) then [now] else []
  }

  /** The state after a check. */
  function AfterCheck(c: Config, s: State, ip: Ip, now: real): State {
    if Banned(s.bans, ip, now) then s
    else
      var hits := s.hits.PutLast(ip, Stored(c, s, ip, now));
      State(if Allows(c, s, ip, now) && |hits.keys| > MAX_RATE_LIMIT_IPS then hits.PopFirst() else hits,
            s.bans - {ip})
  }

  function Ban(c: Config, s: State, ip: Ip, now: real): State {
    s.(bans := s.bans[ip := now + c.banDuration])
  }

  class RateLimiter {
    const config: Config
    var hits: OrderedDict<Ip, seq<real>>
    var bans: map<Ip, real>
    var rateLimitedCount: nat

    function Snapshot(): State
      reads this
    {
      State(hits, bans)
    }

    constructor (config: Config)
      ensures this.config == config && Snapshot() == FRESH_STATE && rateLimitedCount == 0
    {
      this.config := config;
      hits := Empty();
      bans := map[];
      rateLimitedCount := 0;
    }

    method CheckRequest(ip: Ip, now: real) returns (allowed: bool)
      modifies this
      ensures Snapshot() == AfterCheck(config, old(Snapshot()), ip, now)
      ensures allowed == Allows(config, old(Snapshot()), ip, now)
      ensures rateLimitedCount == old(rateLimitedCount) +
                if allowed || Banned(old(bans), ip, now) then 0 else 1
    {
      if ip in bans {
        if now < bans[ip] {
          return false;
        }
        bans := bans - {ip};
      }
      assert bans == old(bans) - {ip};
      var timestamps := Prune(hits.Get(ip, []), now - config.window);
      if |timestamps| >= config.maxRequests {
        assert timestamps + [] == timestamps;
        hits := hits.PutLast(ip, timestamps);
        rateLimitedCount := rateLimitedCount + 1;
        return false;
      }
      hits := hits.PutLast(ip, timestamps + [now]);
      if |hits.keys| > MAX_RATE_LIMIT_IPS {
        hits := hits.PopFirst();
      }
      return true;
    }

    method BanIp(ip: Ip, now: real)
      modifies this`bans
      ensures Snapshot() == Ban(config, old(Snapshot()), ip, now)
    {
      bans := bans[ip := now + config.banDuration];
    }
  }

  // ---------------------------------------------------------------- runs

  datatype Event =
    | CheckAt(ip: Ip, now: real)
    | BanAt(ip: Ip, now: real)

  function AfterEvent(c: Config, s: State, ev: Event): State {
    match ev
    case BanAt(ip, now) => Ban(c, s, ip, now)
    case CheckAt(ip, now) => AfterCheck(c, s, ip, now)
  }

  ghost predicate InOrder(evs: seq<Event>) {
    forall i, j :: 0 <= i < j < |evs| ==> evs[i].now <= evs[j].now
  }

  /** When an IP was last dropped for space, how many allowed requests it had had by then, and
      the times of all its drops. */
  datatype Drop = Drop(logged: nat, at: real, times: seq<real>)

  /** The limiter together with what an observer remembers: every allowed request, the index
      of each IP's last completed (non-banned) check, and the last time each IP was dropped. */
  datatype World = World(s: State, allowed: map<Ip, seq<real>>, lastCheck: map<Ip, nat>,
                         drops: map<Ip, Drop>)
  {
    function Log(ip: Ip): seq<real> {
      if ip in allowed then allowed[ip] else []
    }

    function DropTimes(ip: Ip): seq<real> {
      if ip in drops then drops[ip].times else []
    }

    /** The allowed requests since the IP was last dropped. */
    function Since(ip: Ip): seq<real> {
      if ip in drops && drops[ip].logged <= |Log(ip)| then Log(ip)[drops[ip].logged..] else Log(ip)
    }
  }

  ghost function Run(c: Config, evs: seq<Event>): World {
    if evs == [] then World(FRESH_STATE, map[], map[], map[])
    else Step(c, Run(c, evs[..|evs| - 1]), |evs| - 1, evs[|evs| - 1])
  }

  ghost function Step(c: Config, w: World, index: nat, ev: Event): World {
    match ev
    case BanAt(_, _) => w.(s := AfterEvent(c, w.s, ev))
    case CheckAt(ip, now) =>
      if Banned(w.s.bans, ip, now) then w
      else
        var s := AfterEvent(c, w.s, ev);
        var w' := w.(s := s,
                     allowed := if Allows(c, w.s, ip, now) then w.allowed[ip := w.Log(ip) + [now]] else w.allowed,
                     lastCheck := w.lastCheck[ip := index]);
        w'.(drops := w.drops + map x | x in w.s.hits.vals.Keys + {ip} - s.hits.vals.Keys ::
                       Drop(|w'.Log(x)|, now, w.DropTimes(x) + [now]))
  }

  // ---------------------------------------------------------------- the reference limiter

  /** The requests at times in the half-open interval (`lo`, `hi`]. */
  function CountIn(ts: seq<real>, lo: real, hi: real): nat {
    if ts == [] then 0
    else (if lo < ts[0] <= hi then 1 else 0) + CountIn(ts[1..], lo, hi)
  }

  datatype Reference = Reference(log: map<Ip, seq<real>>, bans: map<Ip, real>) {
    function Log(ip: Ip): seq<real> {
      if ip in log then log[ip] else []
    }
  }

  function RefAllows(c: Config, r: Reference, ip: Ip, now: real): bool {
    !(ip in r.bans && now < r.bans[ip]) && CountIn(r.Log(ip), now - c.window, now) < c.maxRequests
  }

  function RefStep(c: Config, r: Reference, ev: Event): Reference {
    match ev
    case BanAt(ip, now) => r.(bans := r.bans[ip := now + c.banDuration])
    case CheckAt(ip, now) =>
      Reference(if RefAllows(c, r, ip, now) then r.log[ip := r.Log(ip) + [now]] else r.log,
                if ip in r.bans && now < r.bans[ip] then r.bans else r.bans - {ip})
  }

  function RefRun(c: Config, evs: seq<Event>): Reference {
    if evs == [] then Reference(map[], map[])
    else RefStep(c, RefRun(c, evs[..|evs| - 1]), evs[|evs| - 1])
  }

  // ---------------------------------------------------------------- windows of sorted timestamps

  ghost predicate Sorted(ts: seq<real>) {
    forall i, j :: 0 <= i < j < |ts| ==> ts[i] <= ts[j]
  }

  ghost predicate AllAtMost(ts: seq<real>, t: real) {
    forall i :: 0 <= i < |ts| ==> ts[i] <= t
  }

  /** `kept` is `log` without some of its oldest entries. */
  ghost predicate IsSuffix(kept: seq<real>, log: seq<real>) {
    |kept| <= |log| && log[|log| - |kept|..] == kept
  }

  ghost function Dropped(kept: seq<real>, log: seq<real>): seq<real>
    requires IsSuffix(kept, log)
  {
    log[..|log| - |kept|]
  }

  lemma {:induction false} PruneConcat(x: seq<real>, y: seq<real>, cutoff: real)
    ensures Prune(x + y, cutoff) == Prune(x, cutoff) + Prune(y, cutoff)
  {
    if x == [] {
      assert x + y == y;
    } else {
      PruneConcat(x[1..], y, cutoff);
      assert (x + y)[0] == x[0] && (x + y)[1..] == x[1..] + y;
      var px, py := Prune(x[1..], cutoff), Prune(y, cutoff);
      assert [x[0]] + (px + py) == ([x[0]] + px) + py;
    }
  }

  lemma {:induction false} PruneNothingLeft(ts: seq<real>, cutoff: real)
    requires AllAtMost(ts, cutoff)
    ensures Prune(ts, cutoff) == []
  {
    if ts != [] {
      PruneNothingLeft(ts[1..], cutoff);
    }
  }

  /** Pruning a sorted list drops a front part that is old throughout. */
  lemma {:induction false} PruneSorted(ts: seq<real>, cutoff: real)
    requires Sorted(ts)
    ensures IsSuffix(Prune(ts, cutoff), ts)
    ensures AllAtMost(Dropped(Prune(ts, cutoff), ts), cutoff)
  {
    if ts != [] {
      if ts[0] > cutoff {
        PruneAllLater(ts, cutoff);
      } else {
        PruneSorted(ts[1..], cutoff);
        var p := Prune(ts[1..], cutoff);
        assert Dropped(p, ts) == [ts[0]] + Dropped(p, ts[1..]);
      }
    }
  }

  lemma {:induction false} PruneAllLater(ts: seq<real>, cutoff: real)
    requires forall i :: 0 <= i < |ts| ==> ts[i] > cutoff
    ensures Prune(ts, cutoff) == ts
  {
    if ts != [] {
      PruneAllLater(ts[1..], cutoff);
    }
  }

  lemma {:induction false} CountIsPrune(ts: seq<real>, lo: real, hi: real)
    requires AllAtMost(ts, hi)
    ensures CountIn(ts, lo, hi) == |Prune(ts, lo)|
  {
    if ts != [] {
      CountIsPrune(ts[1..], lo, hi);
    }
  }

  lemma {:induction false} CountAppend(ts: seq<real>, t: real, lo: real, hi: real)
    ensures CountIn(ts + [t], lo, hi) == CountIn(ts, lo, hi) + if lo < t <= hi then 1 else 0
  {
    if ts == [] {
      assert ts + [t] == [t];
    } else {
      CountAppend(ts[1..], t, lo, hi);
      assert (ts + [t])[1..] == ts[1..] + [t];
    }
  }

  lemma {:induction false} CountNarrower(ts: seq<real>, lo: real, hi: real, lo': real, hi': real)
    requires lo' <= lo
    requires hi <= hi' || AllAtMost(ts, hi')
    ensures CountIn(ts, lo, hi) <= CountIn(ts, lo', hi')
  {
    if ts != [] {
      CountNarrower(ts[1..], lo, hi, lo', hi');
    }
  }

  // ---------------------------------------------------------------- the invariant of every run

  ghost predicate Times(w: World, clock: real) {
    && (forall ip :: ip in w.allowed ==> Sorted(w.allowed[ip]) && AllAtMost(w.allowed[ip], clock))
    && (forall ip :: ip in w.drops ==> DropOk(w.drops[ip], w.Log(ip), clock))
  }

  ghost predicate DropOk(d: Drop, log: seq<real>, clock: real) {
    d.logged <= |log| && d.at <= clock && AllAtMost(log[..d.logged], d.at)
  }

  /** `kept` is a suffix of `log`, and nothing after `cutoff` is missing. */
  ghost predicate Keeps(kept: seq<real>, log: seq<real>, cutoff: real) {
    IsSuffix(kept, log) && AllAtMost(Dropped(kept, log), cutoff)
  }

  /** What the limiter holds for each IP is the end of its log since it was last dropped. */
  ghost predicate Windows(c: Config, w: World, clock: real) {
    forall ip :: Keeps(w.s.hits.Get(ip, []), w.Since(ip), clock - c.window)
  }

  ghost predicate Order(w: World, steps: nat) {
    && w.s.hits.Valid()
    && RankedBy(w.s.hits.keys, w.lastCheck)
    && forall ip :: ip in w.lastCheck ==> w.lastCheck[ip] < steps
  }

  /** Space: at most the cap many IPs, each with between one and `maxRequests` timestamps. */
  ghost predicate Bounded(c: Config, s: State) {
    && |s.hits.keys| <= MAX_RATE_LIMIT_IPS
    && forall ip :: ip in s.hits.vals ==> 1 <= |s.hits.vals[ip]| <= c.maxRequests
  }

  /** What a check at the end of `log` reads. */
  lemma CheckReads(kept: seq<real>, log: seq<real>, cutoff: real, now: real)
    requires AllAtMost(log, now) && Keeps(kept, log, cutoff)
    ensures |Prune(kept, cutoff)| == CountIn(log, cutoff, now)
  {
    var dropped := Dropped(kept, log);
    assert log == dropped + kept;
    CountIsPrune(log, cutoff, now);
    PruneConcat(dropped, kept, cutoff);
    PruneNothingLeft(dropped, cutoff);
  }

  lemma SortedSuffix(kept: seq<real>, log: seq<real>)
    requires Sorted(log) && IsSuffix(kept, log)
    ensures Sorted(kept)
  {
    var d := |log| - |kept|;
    assert forall i :: 0 <= i < |kept| ==> kept[i] == log[d + i];
  }

  /** A suffix of a suffix: what is dropped is dropped in two parts. */
  lemma SuffixOfSuffix(ts: seq<real>, kept: seq<real>, log: seq<real>)
    requires IsSuffix(ts, kept) && IsSuffix(kept, log)
    ensures IsSuffix(ts, log) && Dropped(ts, log) == Dropped(kept, log) + Dropped(ts, kept)
  {
    var d1, d2 := Dropped(kept, log), Dropped(ts, kept);
    assert kept == d2 + ts;
    assert log == d1 + kept;
    assert log == (d1 + d2) + ts;
  }

  /** Pruning what is kept keeps what can still matter. */
  lemma PruneKeeps(kept: seq<real>, log: seq<real>, cutoff: real)
    requires Sorted(log) && Keeps(kept, log, cutoff)
    ensures Keeps(Prune(kept, cutoff), log, cutoff)
  {
    SortedSuffix(kept, log);
    PruneSorted(kept, cutoff);
    SuffixOfSuffix(Prune(kept, cutoff), kept, log);
  }

  /** Logging one more request keeps the rest as it was. */
  lemma AppendKeeps(kept: seq<real>, log: seq<real>, cutoff: real, now: real)
    requires Keeps(kept, log, cutoff)
    ensures Keeps(kept + [now], log + [now], cutoff)
  {
    assert Dropped(kept + [now], log + [now]) == Dropped(kept, log);
  }

  lemma NothingKept(log: seq<real>, cutoff: real)
    requires log == []
    ensures Keeps([], log, cutoff)
  {
  }

  lemma SinceSorted(w: World, ip: Ip, clock: real)
    requires Times(w, clock)
    ensures Sorted(w.Since(ip)) && AllAtMost(w.Since(ip), clock)
  {
    if ip in w.drops {
      var d := w.drops[ip].logged;
      assert DropOk(w.drops[ip], w.Log(ip), clock);
      assert forall i :: 0 <= i < |w.Since(ip)| ==> w.Since(ip)[i] == w.Log(ip)[d + i];
    }
  }

  /** The requests up to the last drop. */
  function Front(w: World, ip: Ip): seq<real> {
    if ip in w.drops && w.drops[ip].logged <= |w.Log(ip)| then w.Log(ip)[..w.drops[ip].logged] else []
  }

  lemma FrontFacts(w: World, ip: Ip, clock: real)
    requires Times(w, clock)
    ensures w.Log(ip) == Front(w, ip) + w.Since(ip)
    ensures ip in w.drops ==> AllAtMost(Front(w, ip), w.drops[ip].at)
  {
    if ip in w.drops {
      assert DropOk(w.drops[ip], w.Log(ip), clock);
    }
  }

  /** A log grows only by allowed requests. */
  lemma LogGrows(c: Config, w: World, n: nat, ev: Event, ip: Ip)
    ensures Step(c, w, n, ev).Log(ip) ==
            w.Log(ip) + if ev.CheckAt? && ev.ip == ip && Allows(c, w.s, ip, ev.now) then [ev.now] else []
  {
  }

  /** A step drops an IP when it is no longer tracked afterwards; the IP starts afresh. */
  lemma DropsGrow(c: Config, w: World, n: nat, ev: Event, ip: Ip)
    ensures var w' := Step(c, w, n, ev);
            var dropped := (ip in w.s.hits.vals || (ev.CheckAt? && ev.ip == ip && !Banned(w.s.bans, ip, ev.now)))
                           && ip !in w'.s.hits.vals;
            if dropped then
              && ip in w'.drops && w'.drops[ip] == Drop(|w'.Log(ip)|, ev.now, w.DropTimes(ip) + [ev.now])
              && w'.Since(ip) == []
            else (ip in w'.drops <==> ip in w.drops) && (ip in w.drops ==> w'.drops[ip] == w.drops[ip])
  {
  }

  lemma StepKeepsLog(c: Config, w: World, n: nat, ev: Event, ip: Ip, clock: real)
    requires Times(w, clock) && clock <= ev.now
    ensures Sorted(Step(c, w, n, ev).Log(ip)) && AllAtMost(Step(c, w, n, ev).Log(ip), ev.now)
  {
    LogGrows(c, w, n, ev, ip);
  }

  lemma StepKeepsDrop(c: Config, w: World, n: nat, ev: Event, ip: Ip, clock: real)
    requires Times(w, clock) && clock <= ev.now && ip in Step(c, w, n, ev).drops
    ensures DropOk(Step(c, w, n, ev).drops[ip], Step(c, w, n, ev).Log(ip), ev.now)
  {
    var log := Step(c, w, n, ev).Log(ip);
    StepKeepsLog(c, w, n, ev, ip, clock);
    DropsGrow(c, w, n, ev, ip);
    assert log[..|log|] == log;
    if ip in w.drops {
      var d := w.drops[ip];
      assert DropOk(d, w.Log(ip), clock);
      LogGrows(c, w, n, ev, ip);
      assert log[..d.logged] == w.Log(ip)[..d.logged];
    }
  }

  lemma StepKeepsTimes(c: Config, w: World, n: nat, ev: Event, clock: real)
    requires Times(w, clock) && clock <= ev.now
    ensures Times(Step(c, w, n, ev), ev.now)
  {
    var w' := Step(c, w, n, ev);
    forall ip | ip in w'.allowed
      ensures Sorted(w'.allowed[ip]) && AllAtMost(w'.allowed[ip], ev.now)
    {
      StepKeepsLog(c, w, n, ev, ip, clock);
    }
    forall ip | ip in w'.drops
      ensures DropOk(w'.drops[ip], w'.Log(ip), ev.now)
    {
      StepKeepsDrop(c, w, n, ev, ip, clock);
    }
  }

  lemma StepKeepsOrder(c: Config, w: World, n: nat, ev: Event)
    requires Order(w, n)
    ensures Order(Step(c, w, n, ev), n + 1)
  {
    if ev.CheckAt? && !Banned(w.s.bans, ev.ip, ev.now) {
      var hits := w.s.hits.PutLast(ev.ip, Stored(c, w.s, ev.ip, ev.now));
      PutLastValid(w.s.hits, ev.ip, Stored(c, w.s, ev.ip, ev.now));
      PutLastRanked(w.s.hits.keys, ev.ip, w.lastCheck, n);
      PopFirstValid(hits);
      RankedTail(hits.keys, w.lastCheck[ev.ip := n]);
    }
  }

  /** A later clock only makes the missing part older. */
  lemma WindowsLater(c: Config, w: World, clock: real, now: real)
    requires Windows(c, w, clock) && clock <= now
    ensures Windows(c, w, now)
  {
    forall ip
      ensures Keeps(w.s.hits.Get(ip, []), w.Since(ip), now - c.window)
    {
      assert Keeps(w.s.hits.Get(ip, []), w.Since(ip), clock - c.window);
    }
  }

  /** A check sees exactly the requests allowed in the window since the IP was last dropped. */
  lemma CheckReadsWindow(c: Config, w: World, ip: Ip, now: real)
    requires Times(w, now) && Windows(c, w, now)
    ensures |Recent(c, w.s, ip, now)| == CountIn(w.Since(ip), now - c.window, now)
  {
    var kept, log, cutoff := w.s.hits.Get(ip, []), w.Since(ip), now - c.window;
    SinceSorted(w, ip, now);
    assert Keeps(kept, log, cutoff);
    CheckReads(kept, log, cutoff, now);
  }

  lemma RecentKeeps(c: Config, w: World, ip: Ip, now: real)
    requires Times(w, now) && Windows(c, w, now)
    ensures var ts := Recent(c, w.s, ip, now);
            && Keeps(ts, w.Since(ip), now - c.window)
            && Keeps(ts + [now], w.Since(ip) + [now], now - c.window)
  {
    SinceSorted(w, ip, now);
    assert Keeps(w.s.hits.Get(ip, []), w.Since(ip), now - c.window);
    PruneKeeps(w.s.hits.Get(ip, []), w.Since(ip), now - c.window);
    AppendKeeps(Recent(c, w.s, ip, now), w.Since(ip), now - c.window, now);
  }

  /** What is stored for an IP still tracked after the step. */
  lemma GetAfter(c: Config, w: World, ev: Event, n: nat, ip: Ip)
    requires ip in Step(c, w, n, ev).s.hits.vals
    ensures var s := Step(c, w, n, ev).s;
            if ev.CheckAt? && ev.ip == ip && !Banned(w.s.bans, ip, ev.now)
            then s.hits.Get(ip, []) == Stored(c, w.s, ip, ev.now)
            else s.hits.Get(ip, []) == w.s.hits.Get(ip, []) && ip in w.s.hits.vals
  {
  }

  /** The requests since the last drop grow like the log, unless the IP is dropped. */
  lemma SinceGrows(c: Config, w: World, n: nat, ev: Event, ip: Ip, clock: real)
    requires Times(w, clock)
    ensures var w' := Step(c, w, n, ev);
            || w'.Since(ip) == []
            || w'.Since(ip) == w.Since(ip) + if ev.CheckAt? && ev.ip == ip && Allows(c, w.s, ip, ev.now) then [ev.now]
                                             else []
    ensures ip in Step(c, w, n, ev).s.hits.vals || (ip !in w.s.hits.vals && ev.ip != ip) ==>
              Step(c, w, n, ev).Since(ip) ==
              w.Since(ip) + if ev.CheckAt? && ev.ip == ip && Allows(c, w.s, ip, ev.now) then [ev.now] else []
  {
    LogGrows(c, w, n, ev, ip);
    DropsGrow(c, w, n, ev, ip);
    if ip in w.drops {
      assert DropOk(w.drops[ip], w.Log(ip), clock);
    }
  }

  /** The IP of a completed check that is still tracked afterwards. */
  lemma StepKeepsOwnWindow(c: Config, w: World, n: nat, ip: Ip, now: real)
    requires Times(w, now) && Windows(c, w, now) && !Banned(w.s.bans, ip, now)
    requires ip in Step(c, w, n, CheckAt(ip, now)).s.hits.vals
    ensures var w' := Step(c, w, n, CheckAt(ip, now)); Keeps(w'.s.hits.Get(ip, []), w'.Since(ip), now - c.window)
  {
    var recent, since := Recent(c, w.s, ip, now), w.Since(ip);
    SinceGrows(c, w, n, CheckAt(ip, now), ip, now);
    GetAfter(c, w, CheckAt(ip, now), n, ip);
    RecentKeeps(c, w, ip, now);
    assert recent + [] == recent && since + [] == since;
  }

  /** Any other IP still tracked afterwards. */
  lemma StepKeepsOtherWindow(c: Config, w: World, n: nat, ev: Event, ip: Ip)
    requires Times(w, ev.now) && Windows(c, w, ev.now) && ip in Step(c, w, n, ev).s.hits.vals
    requires !(ev.CheckAt? && ev.ip == ip && !Banned(w.s.bans, ip, ev.now))
    ensures var w' := Step(c, w, n, ev); Keeps(w'.s.hits.Get(ip, []), w'.Since(ip), ev.now - c.window)
  {
    var since := w.Since(ip);
    assert Keeps(w.s.hits.Get(ip, []), since, ev.now - c.window);
    SinceGrows(c, w, n, ev, ip, ev.now);
    GetAfter(c, w, ev, n, ip);
    assert since + [] == since;
  }

  /** An IP not tracked afterwards was just dropped, or nothing happened to it. */
  lemma UntrackedSince(c: Config, w: World, n: nat, ev: Event, ip: Ip)
    requires ip !in Step(c, w, n, ev).s.hits.vals
    ensures var w' := Step(c, w, n, ev);
            w'.Since(ip) == [] || (ip !in w.s.hits.vals && w'.Since(ip) == w.Since(ip))
  {
    LogGrows(c, w, n, ev, ip);
    DropsGrow(c, w, n, ev, ip);
    assert w.Log(ip) + [] == w.Log(ip);
  }

  lemma StepKeepsNoWindow(c: Config, w: World, n: nat, ev: Event, ip: Ip)
    requires Windows(c, w, ev.now) && ip !in Step(c, w, n, ev).s.hits.vals
    ensures var w' := Step(c, w, n, ev); Keeps(w'.s.hits.Get(ip, []), w'.Since(ip), ev.now - c.window)
  {
    var after := Step(c, w, n, ev).Since(ip);
    UntrackedSince(c, w, n, ev, ip);
    if after == [] {
      NothingKept(after, ev.now - c.window);
    } else {
      assert Keeps(w.s.hits.Get(ip, []), after, ev.now - c.window);
    }
  }

  lemma StepKeepsWindows(c: Config, w: World, n: nat, ev: Event)
    requires Times(w, ev.now) && Windows(c, w, ev.now)
    ensures Windows(c, Step(c, w, n, ev), ev.now)
  {
    forall ip
      ensures Keeps(Step(c, w, n, ev).s.hits.Get(ip, []), Step(c, w, n, ev).Since(ip), ev.now - c.window)
    {
      if ip !in Step(c, w, n, ev).s.hits.vals {
        StepKeepsNoWindow(c, w, n, ev, ip);
      } else if ev.CheckAt? && ev.ip == ip && !Banned(w.s.bans, ip, ev.now) {
        StepKeepsOwnWindow(c, w, n, ip, ev.now);
      } else {
        StepKeepsOtherWindow(c, w, n, ev, ip);
      }
    }
  }

  lemma StoredLength(c: Config, s: State, ip: Ip, now: real)
    requires c.maxRequests >= 1 && Bounded(c, s)
    ensures 1 <= |Stored(c, s, ip, now)| <= c.maxRequests || Banned(s.bans, ip, now)
  {
    PruneLength(s.hits.Get(ip, []), now - c.window);
  }

  lemma StepKeepsBounded(c: Config, w: World, n: nat, ev: Event)
    requires c.maxRequests >= 1 && w.s.hits.Valid() && Bounded(c, w.s)
    ensures Bounded(c, Step(c, w, n, ev).s)
  {
    if ev.CheckAt? && !Banned(w.s.bans, ev.ip, ev.now) {
      StoredLength(c, w.s, ev.ip, ev.now);
      CheckKeepsBounded(c, w.s, ev.ip, ev.now);
    }
  }

  lemma CheckKeepsBounded(c: Config, s: State, ip: Ip, now: real)
    requires c.maxRequests >= 1 && s.hits.Valid() && Bounded(c, s) && !Banned(s.bans, ip, now)
    requires 1 <= |Stored(c, s, ip, now)| <= c.maxRequests
    ensures Bounded(c, AfterCheck(c, s, ip, now))
  {
    PutLastValid(s.hits, ip, Stored(c, s, ip, now));
    if !Allows(c, s, ip, now) {
      RefusedIsTracked(c, s, ip, now);
    }
  }

  /** With room for at least one request only a tracked IP can be refused. */
  lemma RefusedIsTracked(c: Config, s: State, ip: Ip, now: real)
    requires c.maxRequests >= 1 && !Banned(s.bans, ip, now) && !Allows(c, s, ip, now)
    ensures ip in s.hits.vals
  {
  }

  lemma {:induction false} PruneLength(ts: seq<real>, cutoff: real)
    ensures |Prune(ts, cutoff)| <= |ts|
  {
    if ts != [] {
      PruneLength(ts[1..], cutoff);
    }
  }

  ghost function ClockAfter(evs: seq<Event>): real {
    if evs == [] then 0.0 else evs[|evs| - 1].now
  }

  /** What every run keeps. */
  ghost predicate Inv(c: Config, w: World, steps: nat, clock: real) {
    Times(w, clock) && Windows(c, w, clock) && Order(w, steps)
  }

  lemma TimesLater(w: World, clock: real, now: real)
    requires Times(w, clock) && clock <= now
    ensures Times(w, now)
  {
    forall ip | ip in w.drops
      ensures DropOk(w.drops[ip], w.Log(ip), now)
    {
      assert DropOk(w.drops[ip], w.Log(ip), clock);
    }
  }

  lemma InvLater(c: Config, w: World, steps: nat, clock: real, now: real)
    requires Inv(c, w, steps, clock) && clock <= now
    ensures Inv(c, w, steps, now)
  {
    TimesLater(w, clock, now);
    WindowsLater(c, w, clock, now);
  }

  lemma StepKeepsInv(c: Config, w: World, n: nat, ev: Event)
    requires Inv(c, w, n, ev.now)
    ensures Inv(c, Step(c, w, n, ev), n + 1, ev.now)
  {
    StepKeepsTimes(c, w, n, ev, ev.now);
    StepKeepsOrder(c, w, n, ev);
    StepKeepsWindows(c, w, n, ev);
  }

  /** Everything above holds after every run. */
  lemma {:induction false} RunInvariant(c: Config, evs: seq<Event>, clock: real)
    requires InOrder(evs) && (evs != [] ==> evs[|evs| - 1].now <= clock)
    ensures Inv(c, Run(c, evs), |evs|, clock)
    decreases |evs|
  {
    if evs == [] {
      NothingKept([], clock - c.window);
    } else {
      var n := |evs| - 1;
      RunInvariant(c, evs[..n], evs[n].now);
      StepKeepsInv(c, Run(c, evs[..n]), n, evs[n]);
      InvLater(c, Run(c, evs), |evs|, evs[n].now, clock);
    }
  }

  lemma RunValid(c: Config, evs: seq<Event>)
    requires InOrder(evs)
    ensures Run(c, evs).s.hits.Valid()
  {
    RunInvariant(c, evs, ClockAfter(evs));
  }

  // ---------------------------------------------------------------- refinement

  lemma {:induction false} CountConcat(a: seq<real>, b: seq<real>, lo: real, hi: real)
    ensures CountIn(a + b, lo, hi) == CountIn(a, lo, hi) + CountIn(b, lo, hi)
    ensures AllAtMost(a, lo) ==> CountIn(a, lo, hi) == 0
  {
    if a == [] {
      assert a + b == b;
    } else {
      CountConcat(a[1..], b, lo, hi);
      assert (a + b)[1..] == a[1..] + b;
    }
  }

  /** The window of an IP before and since its last drop; one window after the drop nothing of
      what was dropped matters. */
  lemma WindowSplit(w: World, ip: Ip, lo: real, hi: real, clock: real)
    requires Times(w, clock)
    ensures CountIn(w.Since(ip), lo, hi) <= CountIn(w.Log(ip), lo, hi)
    ensures ip !in w.drops || w.drops[ip].at <= lo ==> CountIn(w.Since(ip), lo, hi) == CountIn(w.Log(ip), lo, hi)
  {
    var front := Front(w, ip);
    FrontFacts(w, ip, clock);
    CountConcat(front, w.Since(ip), lo, hi);
    if ip in w.drops && w.drops[ip].at <= lo {
      assert AllAtMost(front, lo);
    }
  }

  /** What the decision would be if every allowed request of the IP were remembered. */
  predicate LogAllows(c: Config, w: World, ip: Ip, now: real) {
    !Banned(w.s.bans, ip, now) && CountIn(w.Log(ip), now - c.window, now) < c.maxRequests
  }

  /** The decision of a check in terms of the log and of its part since the last drop. */
  lemma DecidesBySince(c: Config, w: World, ip: Ip, now: real)
    requires Times(w, now) && Windows(c, w, now)
    ensures Allows(c, w.s, ip, now) <==>
            !Banned(w.s.bans, ip, now) && CountIn(w.Since(ip), now - c.window, now) < c.maxRequests
    ensures CountIn(w.Since(ip), now - c.window, now) <= CountIn(w.Log(ip), now - c.window, now)
    ensures ip !in w.drops || w.drops[ip].at <= now - c.window ==>
              CountIn(w.Since(ip), now - c.window, now) == CountIn(w.Log(ip), now - c.window, now)
  {
    CheckReadsWindow(c, w, ip, now);
    WindowSplit(w, ip, now - c.window, now, now);
  }

  /** Whatever was dropped, a refusal always has a reason: a ban, or a full window. */
  lemma RefusalHasReason(c: Config, evs: seq<Event>, ip: Ip, now: real)
    requires InOrder(evs + [CheckAt(ip, now)])
    requires !Allows(c, Run(c, evs).s, ip, now)
    ensures Banned(Run(c, evs).s.bans, ip, now) || CountIn(Run(c, evs).Log(ip), now - c.window, now) >= c.maxRequests
  {
    InOrderPrefix(evs, CheckAt(ip, now));
    RunInvariant(c, evs, now);
    DecidesBySince(c, Run(c, evs), ip, now);
  }

  /** The decision differs from the log's: the window is full, but was not filled since the drop. */
  ghost predicate DropMatters(c: Config, w: World, ip: Ip, now: real) {
    && !Banned(w.s.bans, ip, now)
    && CountIn(w.Since(ip), now - c.window, now) < c.maxRequests
    && CountIn(w.Log(ip), now - c.window, now) >= c.maxRequests
  }

  lemma DropMattersAt(c: Config, w: World, ip: Ip, now: real)
    requires Times(w, now) && Windows(c, w, now)
    ensures Allows(c, w.s, ip, now) != LogAllows(c, w, ip, now) <==> DropMatters(c, w, ip, now)
    ensures DropMatters(c, w, ip, now) ==> ip in w.drops && w.drops[ip].at > now - c.window
  {
    DecidesBySince(c, w, ip, now);
  }

  /** In every run a decision differs from the log's exactly when the window is full but was not
      filled since the last drop; one window after a drop every decision is the log's again. */
  lemma DropMattersIff(c: Config, evs: seq<Event>, ip: Ip, now: real)
    requires InOrder(evs + [CheckAt(ip, now)])
    ensures var w := Run(c, evs);
            && (Allows(c, w.s, ip, now) != LogAllows(c, w, ip, now) <==> DropMatters(c, w, ip, now))
            && (DropMatters(c, w, ip, now) ==> ip in w.drops && w.drops[ip].at > now - c.window)
  {
    InOrderPrefix(evs, CheckAt(ip, now));
    RunInvariant(c, evs, now);
    DropMattersAt(c, Run(c, evs), ip, now);
  }

  lemma InOrderPrefix(evs: seq<Event>, ev: Event)
    requires InOrder(evs + [ev])
    ensures InOrder(evs) && (evs != [] ==> evs[|evs| - 1].now <= ev.now)
  {
    var all := evs + [ev];
    assert forall i :: 0 <= i < |evs| ==> all[i] == evs[i];
    assert all[|evs|] == ev;
  }

  /** The limiter and the reference agree about `ip`. */
  ghost predicate SameFor(w: World, r: Reference, ip: Ip) {
    w.s.bans == r.bans && (ip !in w.drops ==> w.Log(ip) == r.Log(ip))
  }

  lemma SameDecision(c: Config, w: World, r: Reference, ip: Ip, now: real)
    requires Times(w, now) && Windows(c, w, now) && SameFor(w, r, ip) && ip !in w.drops
    ensures Allows(c, w.s, ip, now) == RefAllows(c, r, ip, now)
  {
    CheckReadsWindow(c, w, ip, now);
  }

  lemma RefLogGrows(c: Config, r: Reference, ev: Event, ip: Ip)
    ensures RefStep(c, r, ev).Log(ip) ==
            if ev.CheckAt? && ev.ip == ip && RefAllows(c, r, ip, ev.now) then r.Log(ip) + [ev.now] else r.Log(ip)
  {
  }

  lemma SameBans(c: Config, w: World, r: Reference, n: nat, ev: Event)
    requires w.s.bans == r.bans
    ensures Step(c, w, n, ev).s.bans == RefStep(c, r, ev).bans
  {
  }

  lemma SameForStep(c: Config, w: World, r: Reference, n: nat, ev: Event, ip: Ip)
    requires Times(w, ev.now) && Windows(c, w, ev.now) && SameFor(w, r, ip)
    ensures SameFor(Step(c, w, n, ev), RefStep(c, r, ev), ip)
  {
    SameBans(c, w, r, n, ev);
    LogGrows(c, w, n, ev, ip);
    RefLogGrows(c, r, ev, ip);
    if ip !in w.drops && ev.CheckAt? && ev.ip == ip {
      SameDecision(c, w, r, ip, ev.now);
    }
  }

  /** For an IP never dropped for space, the limiter's log and bans are the reference's. */
  lemma {:induction false} SameLog(c: Config, evs: seq<Event>, ip: Ip)
    requires InOrder(evs)
    ensures SameFor(Run(c, evs), RefRun(c, evs), ip)
    decreases |evs|
  {
    if evs != [] {
      var n := |evs| - 1;
      SameLog(c, evs[..n], ip);
      RunInvariant(c, evs[..n], evs[n].now);
      SameForStep(c, Run(c, evs[..n]), RefRun(c, evs[..n]), n, evs[n], ip);
    }
  }

  /** The limiter decides exactly as the unbounded reference for every IP never dropped for space. */
  lemma Refinement(c: Config, evs: seq<Event>, ip: Ip, now: real)
    requires InOrder(evs + [CheckAt(ip, now)])
    requires ip !in Run(c, evs).drops
    ensures Allows(c, Run(c, evs).s, ip, now) == RefAllows(c, RefRun(c, evs), ip, now)
  {
    InOrderPrefix(evs, CheckAt(ip, now));
    SameLog(c, evs, ip);
    RunInvariant(c, evs, now);
    SameDecision(c, Run(c, evs), RefRun(c, evs), ip, now);
  }

  ghost function IpsOf(evs: seq<Event>): set<Ip> {
    set i | 0 <= i < |evs| :: evs[i].ip
  }

  /** A check drops none while there is room for its IP. */
  lemma RoomForAll(c: Config, s: State, ip: Ip, now: real)
    requires s.hits.Valid() && |s.hits.vals.Keys + {ip}| <= MAX_RATE_LIMIT_IPS && !Banned(s.bans, ip, now)
    ensures AfterCheck(c, s, ip, now).hits.vals.Keys == s.hits.vals.Keys + {ip}
  {
    var hits := s.hits.PutLast(ip, Stored(c, s, ip, now));
    PutLastValid(s.hits, ip, Stored(c, s, ip, now));
    assert hits.vals.Keys == s.hits.vals.Keys + {ip};
    DistinctKeysCount(hits.keys, hits.vals.Keys);
  }

  lemma FewIpsStep(c: Config, w: World, n: nat, ev: Event, ips: set<Ip>)
    requires w.s.hits.Valid() && w.s.hits.vals.Keys <= ips && ev.ip in ips && |ips| <= MAX_RATE_LIMIT_IPS
    requires w.drops.Keys == {}
    ensures Step(c, w, n, ev).drops.Keys == {} && Step(c, w, n, ev).s.hits.vals.Keys <= ips
  {
    SubsetCount(w.s.hits.vals.Keys + {ev.ip}, ips);
    if ev.CheckAt? && !Banned(w.s.bans, ev.ip, ev.now) {
      RoomForAll(c, w.s, ev.ip, ev.now);
    }
    forall ip
      ensures ip !in Step(c, w, n, ev).drops
    {
      DropsGrow(c, w, n, ev, ip);
    }
  }

  /** Nothing is ever dropped while no more IPs than the cap have been seen. */
  lemma {:induction false} FewIpsForgetNothing(c: Config, evs: seq<Event>)
    requires InOrder(evs) && |IpsOf(evs)| <= MAX_RATE_LIMIT_IPS
    ensures Run(c, evs).drops.Keys == {} && Run(c, evs).s.hits.vals.Keys <= IpsOf(evs)
    decreases |evs|
  {
    if evs != [] {
      var n := |evs| - 1;
      assert IpsOf(evs) == IpsOf(evs[..n]) + {evs[n].ip};
      SubsetCount(IpsOf(evs[..n]), IpsOf(evs));
      FewIpsForgetNothing(c, evs[..n]);
      RunValid(c, evs[..n]);
      assert Run(c, evs) == Step(c, Run(c, evs[..n]), n, evs[n]);
      FewIpsStep(c, Run(c, evs[..n]), n, evs[n], IpsOf(evs));
    }
  }

  /** With no more IPs than the cap, every decision of the run is the reference's. */
  lemma FewIpsRefine(c: Config, evs: seq<Event>, ip: Ip, now: real)
    requires InOrder(evs + [CheckAt(ip, now)]) && |IpsOf(evs)| <= MAX_RATE_LIMIT_IPS
    ensures Allows(c, Run(c, evs).s, ip, now) == RefAllows(c, RefRun(c, evs), ip, now)
  {
    InOrderPrefix(evs, CheckAt(ip, now));
    FewIpsForgetNothing(c, evs);
    Refinement(c, evs, ip, now);
  }

  // ---------------------------------------------------------------- no window is ever overfull

  function Limit(c: Config): nat {
    if c.maxRequests < 0 then 0 else c.maxRequests
  }

  lemma AppendWithinLimit(log: seq<real>, now: real, window: real, end: real, limit: nat)
    requires AllAtMost(log, now) && CountIn(log, now - window, now) < limit
    requires CountIn(log, end - window, end) <= limit
    ensures CountIn(log + [now], end - window, end) <= limit
  {
    CountAppend(log, now, end - window, end);
    if now <= end {
      CountNarrower(log, end - window, end, now - window, now);
    }
  }

  /** What an allowed check finds. */
  lemma RoomWhenAllowed(c: Config, w: World, ip: Ip, now: real)
    requires Times(w, now) && Windows(c, w, now) && Allows(c, w.s, ip, now)
    ensures AllAtMost(w.Since(ip), now)
    ensures CountIn(w.Since(ip), now - c.window, now) < Limit(c)
  {
    CheckReadsWindow(c, w, ip, now);
    SinceSorted(w, ip, now);
  }

  /** One step overfills no interval. */
  lemma StepFillsNoWindow(c: Config, w: World, n: nat, ev: Event, ip: Ip, end: real)
    requires Times(w, ev.now) && Windows(c, w, ev.now)
    requires CountIn(w.Since(ip), end - c.window, end) <= Limit(c)
    ensures CountIn(Step(c, w, n, ev).Since(ip), end - c.window, end) <= Limit(c)
  {
    var since, after := w.Since(ip), Step(c, w, n, ev).Since(ip);
    SinceGrows(c, w, n, ev, ip, ev.now);
    assert since + [] == since;
    if after != [] && after != since {
      assert after == since + [ev.now] && Allows(c, w.s, ip, ev.now);
      RoomWhenAllowed(c, w, ip, ev.now);
      AppendWithinLimit(since, ev.now, c.window, end, Limit(c));
    }
  }

  lemma {:induction false} SinceNeverOverfull(c: Config, evs: seq<Event>, ip: Ip, end: real)
    requires InOrder(evs)
    ensures CountIn(Run(c, evs).Since(ip), end - c.window, end) <= Limit(c)
    decreases |evs|
  {
    if evs != [] {
      var n := |evs| - 1;
      SinceNeverOverfull(c, evs[..n], ip, end);
      RunInvariant(c, evs[..n], evs[n].now);
      StepFillsNoWindow(c, Run(c, evs[..n]), n, evs[n], ip, end);
    }
  }

  /** Since an IP was last dropped, no half-open interval of the window's length holds more than
      the limit of allowed requests; nor does any such interval of its whole log that begins
      after the drop. */
  lemma NoWindowOverfull(c: Config, evs: seq<Event>, ip: Ip, end: real)
    requires InOrder(evs)
    ensures var w := Run(c, evs);
            && CountIn(w.Since(ip), end - c.window, end) <= Limit(c)
            && (ip !in w.drops || w.drops[ip].at <= end - c.window ==>
                  CountIn(w.Log(ip), end - c.window, end) <= Limit(c))
  {
    RunInvariant(c, evs, ClockAfter(evs));
    SinceNeverOverfull(c, evs, ip, end);
    WindowSplit(Run(c, evs), ip, end - c.window, end, ClockAfter(evs));
  }

  /** The step drops the IP. */
  ghost predicate Loses(c: Config, w: World, n: nat, ev: Event, ip: Ip) {
    && (ip in w.s.hits.vals || (ev.CheckAt? && ev.ip == ip && !Banned(w.s.bans, ip, ev.now)))
    && ip !in Step(c, w, n, ev).s.hits.vals
  }

  /** What the interval holds is within `limit` for each drop and, while it is not over, what it
      holds since the last one. */
  ghost predicate Overrun(t: Tally, limit: nat, open: bool) {
    && t.all <= Quota(limit, t.drops) + limit && t.since <= limit
    && (open ==> t.all <= Quota(limit, t.drops) + t.since)
  }

  /** What a log holds of an interval, since the last drop and in all, and the drops in it. */
  datatype Tally = Tally(all: nat, since: nat, drops: nat)

  /** One step at `now`, which adds `extra` to the interval and may drop the IP. */
  ghost predicate Changes(t: Tally, t': Tally, extra: nat, lost: bool, lo: real, hi: real, now: real) {
    && (now <= lo ==> t.all == 0) && (!(lo < now <= hi) ==> extra == 0)
    && t'.all == t.all + extra && t'.since == (if lost then 0 else t.since + extra)
    && t'.drops == t.drops + if lost && lo < now <= hi then 1 else 0
  }

  lemma OverrunGrows(t: Tally, t': Tally, limit: nat, extra: nat, lost: bool, lo: real, hi: real, now: real)
    requires Overrun(t, limit, now <= hi) && Changes(t, t', extra, lost, lo, hi, now) && t.since + extra <= limit
    ensures Overrun(t', limit, now <= hi)
  {
  }

  /** What a step adds to the interval. */
  ghost function Added(c: Config, w: World, ev: Event, ip: Ip, lo: real, hi: real): nat {
    if ev.CheckAt? && ev.ip == ip && Allows(c, w.s, ip, ev.now) && lo < ev.now <= hi then 1 else 0
  }

  lemma CountsAfter(c: Config, w: World, n: nat, ev: Event, ip: Ip, lo: real, hi: real)
    requires Times(w, ev.now)
    ensures CountIn(Step(c, w, n, ev).Log(ip), lo, hi) == CountIn(w.Log(ip), lo, hi) + Added(c, w, ev, ip, lo, hi)
    ensures CountIn(Step(c, w, n, ev).Since(ip), lo, hi) ==
            if Loses(c, w, n, ev, ip) then 0 else CountIn(w.Since(ip), lo, hi) + Added(c, w, ev, ip, lo, hi)
  {
    var log, since := w.Log(ip), w.Since(ip);
    LogGrows(c, w, n, ev, ip);
    DropsGrow(c, w, n, ev, ip);
    SinceAfter(c, w, n, ev, ip);
    assert log + [] == log && since + [] == since;
    CountAppend(log, ev.now, lo, hi);
    CountAppend(since, ev.now, lo, hi);
  }

  lemma SinceAfter(c: Config, w: World, n: nat, ev: Event, ip: Ip)
    requires Times(w, ev.now)
    ensures Step(c, w, n, ev).Since(ip) ==
            if Loses(c, w, n, ev, ip) then []
            else w.Since(ip) + if ev.CheckAt? && ev.ip == ip && Allows(c, w.s, ip, ev.now) then [ev.now] else []
  {
    LogGrows(c, w, n, ev, ip);
    DropsGrow(c, w, n, ev, ip);
    if ip in w.drops {
      assert DropOk(w.drops[ip], w.Log(ip), ev.now);
    }
  }

  /** There is room for what a step adds. */
  lemma RoomForAdded(c: Config, w: World, ev: Event, ip: Ip, end: real)
    requires Times(w, ev.now) && Windows(c, w, ev.now) && CountIn(w.Since(ip), end - c.window, end) <= Limit(c)
    ensures CountIn(w.Since(ip), end - c.window, end) + Added(c, w, ev, ip, end - c.window, end) <= Limit(c)
  {
    if ev.CheckAt? && ev.ip == ip && Allows(c, w.s, ip, ev.now) {
      RoomWhenAllowed(c, w, ip, ev.now);
      AppendWithinLimit(w.Since(ip), ev.now, c.window, end, Limit(c));
      CountAppend(w.Since(ip), ev.now, end - c.window, end);
    }
  }

  /** An interval that begins later holds nothing yet. */
  lemma NothingYet(w: World, ip: Ip, lo: real, hi: real, now: real)
    requires Times(w, now) && now <= lo
    ensures CountIn(w.Log(ip), lo, hi) == 0
  {
    CountConcat(w.Log(ip), [], lo, hi);
  }

  lemma DropTimesGrow(c: Config, w: World, n: nat, ev: Event, ip: Ip, lo: real, hi: real)
    ensures CountIn(Step(c, w, n, ev).DropTimes(ip), lo, hi) ==
            CountIn(w.DropTimes(ip), lo, hi) + if Loses(c, w, n, ev, ip) && lo < ev.now <= hi then 1 else 0
  {
    DropsGrow(c, w, n, ev, ip);
    CountAppend(w.DropTimes(ip), ev.now, lo, hi);
  }

  ghost function TallyOf(w: World, ip: Ip, lo: real, hi: real): Tally {
    Tally(CountIn(w.Log(ip), lo, hi), CountIn(w.Since(ip), lo, hi), CountIn(w.DropTimes(ip), lo, hi))
  }

  /** The numbers before and after a step. */
  lemma StepTally(c: Config, w: World, n: nat, ev: Event, ip: Ip, lo: real, end: real, t: Tally, t': Tally)
    returns (extra: nat, lost: bool)
    requires Times(w, ev.now) && Windows(c, w, ev.now) && lo == end - c.window
    requires t == TallyOf(w, ip, lo, end) && t.since <= Limit(c) && t' == TallyOf(Step(c, w, n, ev), ip, lo, end)
    ensures Changes(t, t', extra, lost, lo, end, ev.now) && t.since + extra <= Limit(c)
  {
    extra, lost := Added(c, w, ev, ip, lo, end), Loses(c, w, n, ev, ip);
    CountsAfter(c, w, n, ev, ip, lo, end);
    DropTimesGrow(c, w, n, ev, ip, lo, end);
    RoomForAdded(c, w, ev, ip, end);
    if ev.now <= lo {
      NothingYet(w, ip, lo, end, ev.now);
    }
  }

  lemma {:induction false} RunOverrun(c: Config, evs: seq<Event>, ip: Ip, lo: real, end: real, clock: real)
    returns (t: Tally)
    requires InOrder(evs) && (evs != [] ==> evs[|evs| - 1].now <= clock) && lo == end - c.window
    ensures t == TallyOf(Run(c, evs), ip, lo, end) && Overrun(t, Limit(c), clock <= end)
    decreases |evs|
  {
    if evs == [] {
      t := Tally(0, 0, 0);
    } else {
      var n, ev := |evs| - 1, evs[|evs| - 1];
      var before := RunOverrun(c, evs[..n], ip, lo, end, ev.now);
      RunInvariant(c, evs[..n], ev.now);
      t := TallyOf(Step(c, Run(c, evs[..n]), n, ev), ip, lo, end);
      var extra, lost := StepTally(c, Run(c, evs[..n]), n, ev, ip, lo, end, before, t);
      OverrunGrows(before, t, Limit(c), extra, lost, lo, end, ev.now);
    }
  }

  /** Every drop of an IP within an interval of the window's length lets it exceed the limit there
      at most once more: the interval never holds more than the limit for each drop, and one. */
  lemma OverrunBounded(c: Config, evs: seq<Event>, ip: Ip, end: real) returns (t: Tally)
    requires InOrder(evs)
    ensures t == TallyOf(Run(c, evs), ip, end - c.window, end) && t.all <= Quota(Limit(c), t.drops + 1)
  {
    t := RunOverrun(c, evs, ip, end - c.window, end, ClockAfter(evs));
  }

  // ---------------------------------------------------------------- space

  lemma KeptIsSorted(c: Config, w: World, ip: Ip, clock: real)
    requires Times(w, clock) && Windows(c, w, clock)
    ensures Sorted(w.s.hits.Get(ip, []))
  {
    SinceSorted(w, ip, clock);
    assert Keeps(w.s.hits.Get(ip, []), w.Since(ip), clock - c.window);
    SortedSuffix(w.s.hits.Get(ip, []), w.Since(ip));
  }

  lemma {:induction false} SpaceIsBounded(c: Config, evs: seq<Event>)
    requires c.maxRequests >= 1 && InOrder(evs)
    ensures Bounded(c, Run(c, evs).s)
    decreases |evs|
  {
    if evs != [] {
      var n := |evs| - 1;
      SpaceIsBounded(c, evs[..n]);
      RunValid(c, evs[..n]);
      StepKeepsBounded(c, Run(c, evs[..n]), n, evs[n]);
    }
  }

  lemma RunBounded(c: Config, evs: seq<Event>)
    requires c.maxRequests >= 1 && InOrder(evs)
    ensures Bounded(c, Run(c, evs).s)
    ensures forall ip :: ip in Run(c, evs).s.hits.vals ==> Sorted(Run(c, evs).s.hits.vals[ip])
  {
    SpaceIsBounded(c, evs);
    RunInvariant(c, evs, ClockAfter(evs));
    forall ip | ip in Run(c, evs).s.hits.vals
      ensures Sorted(Run(c, evs).s.hits.vals[ip])
    {
      KeptIsSorted(c, Run(c, evs), ip, ClockAfter(evs));
    }
  }

  /** The `k`-th of infinitely many IPs. */
  ghost function NthIp(k: nat): Ip {
    Ip(seq(k, i => 'x'))
  }

  ghost function Flood(k: nat): seq<Event> {
    seq(k, i requires 0 <= i => CheckAt(NthIp(i), 0.0))
  }

  ghost function Crowd(k: nat): seq<Ip> {
    seq(k, i requires 0 <= i => NthIp(i))
  }

  lemma CrowdGrows(k: nat)
    ensures Crowd(k + 1) == Crowd(k) + [NthIp(k)] && NthIp(k) !in Crowd(k)
    ensures Flood(k + 1) == Flood(k) + [CheckAt(NthIp(k), 0.0)]
  {
    forall i | 0 <= i < k
      ensures Crowd(k)[i] != NthIp(k)
    {
      assert |NthIp(i).address| != |NthIp(k).address|;
    }
  }

  lemma RefusalTracks(c: Config, w: World, n: nat, ip: Ip)
    requires c.maxRequests <= 0 && w.s.bans == map[] && ip !in w.s.hits.keys
    ensures var s := Step(c, w, n, CheckAt(ip, 0.0)).s; s.bans == map[] && s.hits.keys == w.s.hits.keys + [ip]
  {
    WithoutKeepsOthers(w.s.hits.keys, ip);
    assert !Allows(c, w.s, ip, 0.0);
  }

  /** A limiter that allows nothing records every IP it refuses and drops none. */
  lemma {:induction false} FloodGrows(c: Config, k: nat)
    requires c.maxRequests <= 0
    ensures InOrder(Flood(k)) && Run(c, Flood(k)).s.bans == map[]
    ensures Run(c, Flood(k)).s.hits.keys == Crowd(k)
  {
    if k > 0 {
      FloodGrows(c, k - 1);
      CrowdGrows(k - 1);
      assert Flood(k)[..k - 1] == Flood(k - 1);
      RefusalTracks(c, Run(c, Flood(k - 1)), k - 1, NthIp(k - 1));
    }
  }

  /** The cap on tracked IPs holds in every run exactly when at least one request is allowed. */
  lemma SpaceBoundedIff(c: Config)
    ensures (forall evs :: InOrder(evs) ==> |Run(c, evs).s.hits.keys| <= MAX_RATE_LIMIT_IPS) <==> c.maxRequests >= 1
  {
    if c.maxRequests >= 1 {
      forall evs | InOrder(evs)
        ensures |Run(c, evs).s.hits.keys| <= MAX_RATE_LIMIT_IPS
      {
        RunBounded(c, evs);
      }
    } else {
      FloodGrows(c, MAX_RATE_LIMIT_IPS + 1);
      assert InOrder(Flood(MAX_RATE_LIMIT_IPS + 1));
    }
  }

  /** An IP's window is dropped only after as many other IPs as the cap completed a check
      since its own last one. */
  lemma ForgettingIsEarned(c: Config, evs: seq<Event>, ev: Event, ip: Ip) returns (others: set<Ip>)
    requires InOrder(evs + [ev])
    requires ip in Run(c, evs).s.hits.vals && ip !in Run(c, evs + [ev]).s.hits.vals
    ensures |others| >= MAX_RATE_LIMIT_IPS && ip !in others
    ensures ip in Run(c, evs).lastCheck
    ensures forall x :: x in others ==>
              x in Run(c, evs + [ev]).lastCheck && Run(c, evs + [ev]).lastCheck[x] > Run(c, evs).lastCheck[ip]
  {
    InOrderPrefix(evs, ev);
    RunInvariant(c, evs, ev.now);
    assert (evs + [ev])[..|evs|] == evs;
    var w := Run(c, evs);
    assert Run(c, evs + [ev]) == Step(c, w, |evs|, ev);
    others := DroppedIsOldest(c, w, |evs|, ev, ip);
  }

  /** Dropping the first of a ranked dictionary leaves only keys of a higher rank. */
  lemma FirstDropped(hits: OrderedDict<Ip, seq<real>>, rank: map<Ip, nat>)
    requires hits.Valid() && hits.keys != [] && RankedBy(hits.keys, rank)
    ensures var others := hits.PopFirst().vals.Keys;
            && |others| == |hits.keys| - 1 && hits.keys[0] !in others
            && forall x :: x in others ==> x in rank && rank[x] > rank[hits.keys[0]]
  {
    PopFirstValid(hits);
    var rest := hits.PopFirst();
    DistinctKeysCount(rest.keys, rest.vals.Keys);
    forall x | x in rest.vals.Keys
      ensures x in rank && rank[x] > rank[hits.keys[0]]
    {
      assert x in rest.keys;
      FirstIsLowest(hits.keys, rank, x);
    }
  }

  lemma DroppedIsOldest(c: Config, w: World, n: nat, ev: Event, ip: Ip) returns (others: set<Ip>)
    requires Order(w, n) && ip in w.s.hits.vals && ip !in Step(c, w, n, ev).s.hits.vals
    ensures |others| >= MAX_RATE_LIMIT_IPS && ip !in others && ip in w.lastCheck
    ensures forall x :: x in others ==>
              x in Step(c, w, n, ev).lastCheck && Step(c, w, n, ev).lastCheck[x] > w.lastCheck[ip]
  {
    var hits := w.s.hits.PutLast(ev.ip, Stored(c, w.s, ev.ip, ev.now));
    PutLastValid(w.s.hits, ev.ip, Stored(c, w.s, ev.ip, ev.now));
    PutLastRanked(w.s.hits.keys, ev.ip, w.lastCheck, n);
    FirstDropped(hits, w.lastCheck[ev.ip := n]);
    others := hits.PopFirst().vals.Keys;
    assert Step(c, w, n, ev).s.hits == hits.PopFirst();
    assert ip in w.s.hits.keys && ip == hits.keys[0] && ip != ev.ip;
  }

  // ---------------------------------------------------------------- bans

  /** `ip` is banned until `until`, or that moment has passed. */
  ghost predicate BanStands(s: State, ip: Ip, until: real, clock: real) {
    clock < until ==> ip in s.bans && s.bans[ip] >= until
  }

  lemma {:induction false} BanStandsInRun(c: Config, evs: seq<Event>, at: nat)
    requires InOrder(evs) && at < |evs| && evs[at].BanAt?
    ensures BanStands(Run(c, evs).s, evs[at].ip, evs[at].now + c.banDuration, evs[|evs| - 1].now)
    decreases |evs|
  {
    var n := |evs| - 1;
    if at < n {
      assert evs[..n][at] == evs[at];
      BanStandsInRun(c, evs[..n], at);
    }
  }

  /** After a ban every check before its expiry is refused and changes nothing. */
  lemma BanRefuses(c: Config, evs: seq<Event>, at: nat, now: real)
    requires at < |evs| && evs[at].BanAt? && InOrder(evs + [CheckAt(evs[at].ip, now)])
    requires now < evs[at].now + c.banDuration
    ensures !Allows(c, Run(c, evs).s, evs[at].ip, now)
    ensures AfterCheck(c, Run(c, evs).s, evs[at].ip, now) == Run(c, evs).s
  {
    InOrderPrefix(evs, CheckAt(evs[at].ip, now));
    BanStandsInRun(c, evs, at);
  }

  lemma RunOneMore(c: Config, evs: seq<Event>, ev: Event)
    ensures Run(c, evs + [ev]) == Step(c, Run(c, evs), |evs|, ev)
  {
    assert (evs + [ev])[..|evs|] == evs;
  }

  /** Event `i` banned the IP, and nothing has banned it again or found the ban expired since. */
  ghost predicate LastBan(c: Config, evs: seq<Event>, ip: Ip, i: nat) {
    && i < |evs| && evs[i].BanAt? && evs[i].ip == ip
    && forall j :: i < j < |evs| && evs[j].ip == ip ==> evs[j].CheckAt? && evs[j].now < evs[i].now + c.banDuration
  }

  lemma LastBanFront(c: Config, evs: seq<Event>, ev: Event, ip: Ip, i: nat)
    ensures i < |evs| ==>
              (LastBan(c, evs + [ev], ip, i) <==>
                 LastBan(c, evs, ip, i) && (ev.ip == ip ==> ev.CheckAt? && ev.now < evs[i].now + c.banDuration))
    ensures LastBan(c, evs + [ev], ip, |evs|) <==> ev.BanAt? && ev.ip == ip
  {
    var all := evs + [ev];
    assert forall j :: 0 <= j < |evs| ==> all[j] == evs[j];
    assert all[|evs|] == ev;
  }

  /** The bans after one more event. */
  lemma BansAfter(c: Config, w: World, n: nat, ev: Event, ip: Ip)
    ensures var bans := Step(c, w, n, ev).s.bans;
            if ev == BanAt(ip, ev.now) then ip in bans && bans[ip] == ev.now + c.banDuration
            else if ev.CheckAt? && ev.ip == ip && !Banned(w.s.bans, ip, ev.now) then ip !in bans
            else (ip in bans <==> ip in w.s.bans) && (ip in bans ==> bans[ip] == w.s.bans[ip])
  {
  }

  /** What is stored for an IP is the expiry of its last ban, if there is one. */
  ghost predicate BanIsLast(c: Config, evs: seq<Event>, ip: Ip) {
    var bans := Run(c, evs).s.bans;
    && (ip in bans ==> exists i: nat :: LastBan(c, evs, ip, i) && bans[ip] == evs[i].now + c.banDuration)
    && (ip !in bans ==> forall i: nat :: !LastBan(c, evs, ip, i))
  }

  /** Only one ban is the last one. */
  lemma OneLastBan(c: Config, evs: seq<Event>, ip: Ip, i: nat, j: nat)
    requires LastBan(c, evs, ip, i) && LastBan(c, evs, ip, j)
    ensures i == j
  {
  }

  lemma BanStaysLast(c: Config, evs: seq<Event>, ev: Event, ip: Ip)
    requires BanIsLast(c, evs, ip)
    ensures BanIsLast(c, evs + [ev], ip)
  {
    var w, all := Run(c, evs), evs + [ev];
    RunOneMore(c, evs, ev);
    BansAfter(c, w, |evs|, ev, ip);
    LastBanFront(c, evs, ev, ip, |evs|);
    if ev.BanAt? && ev.ip == ip {
      assert all[|evs|] == ev;
    } else {
      forall i: nat
        ensures LastBan(c, all, ip, i) <==>
                LastBan(c, evs, ip, i) && (ev.ip == ip ==> ev.CheckAt? && ev.now < evs[i].now + c.banDuration)
      {
        LastBanFront(c, evs, ev, ip, i);
      }
      if ip in w.s.bans {
        var i: nat :| LastBan(c, evs, ip, i) && w.s.bans[ip] == evs[i].now + c.banDuration;
        assert all[i] == evs[i];
        forall j: nat | LastBan(c, evs, ip, j)
          ensures j == i
        {
          OneLastBan(c, evs, ip, i, j);
        }
      }
    }
  }

  lemma {:induction false} BansAreLast(c: Config, evs: seq<Event>, ip: Ip)
    ensures BanIsLast(c, evs, ip)
    decreases |evs|
  {
    if evs != [] {
      BansAreLast(c, evs[..|evs| - 1], ip);
      BanStaysLast(c, evs[..|evs| - 1], evs[|evs| - 1], ip);
      assert evs == evs[..|evs| - 1] + [evs[|evs| - 1]];
    }
  }

  /** Exactly which IPs are in the table of bans after a run: those banned and not checked since
      the ban expired, however long ago that was. */
  lemma BanKeptIff(c: Config, evs: seq<Event>, ip: Ip)
    ensures ip in Run(c, evs).s.bans <==> exists i: nat :: LastBan(c, evs, ip, i)
  {
    BansAreLast(c, evs, ip);
  }

  ghost function BanFlood(k: nat): seq<Event> {
    seq(k, i requires 0 <= i => BanAt(NthIp(i), 0.0))
  }

  lemma BanAdds(c: Config, w: World, n: nat, ip: Ip)
    requires ip !in w.s.bans
    ensures var bans := Step(c, w, n, BanAt(ip, 0.0)).s.bans;
            bans == w.s.bans[ip := 0.0 + c.banDuration] && |bans| == |w.s.bans| + 1
  {
  }

  lemma CheckLeavesBans(c: Config, w: World, n: nat, ip: Ip, now: real)
    requires ip !in w.s.bans
    ensures Step(c, w, n, CheckAt(ip, now)).s.bans == w.s.bans
  {
    assert w.s.bans - {ip} == w.s.bans;
  }

  lemma BanFloodGrows(k: nat)
    ensures BanFlood(k + 1) == BanFlood(k) + [BanAt(NthIp(k), 0.0)] && |BanFlood(k)| == k
  {
  }

  ghost predicate HoldsBans(bans: map<Ip, real>, k: nat, expiry: real) {
    && |bans| == k && (forall ip :: ip in bans <==> ip in Crowd(k))
    && forall ip :: ip in bans ==> bans[ip] == expiry
  }

  lemma {:induction false} BanFloodBans(c: Config, k: nat)
    ensures HoldsBans(Run(c, BanFlood(k)).s.bans, k, c.banDuration)
  {
    if k > 0 {
      BanFloodBans(c, k - 1);
      CrowdGrows(k - 1);
      BanFloodGrows(k - 1);
      RunOneMore(c, BanFlood(k - 1), BanAt(NthIp(k - 1), 0.0));
      BanAdds(c, Run(c, BanFlood(k - 1)), k - 1, NthIp(k - 1));
    }
  }

  lemma BanFloodInOrder(k: nat, ev: Event)
    requires ev.now >= 0.0
    ensures InOrder(BanFlood(k) + [ev])
  {
    var all := BanFlood(k) + [ev];
    assert forall i :: 0 <= i < k ==> all[i].now == 0.0;
  }

  /** For any number and any time there is a run after which that many bans, all expired by then,
      are still stored: bans are bounded by the IPs ever banned and by nothing else. */
  lemma ExpiredBansStay(c: Config, k: nat, late: real) returns (evs: seq<Event>)
    requires late >= 0.0 && late >= c.banDuration
    ensures InOrder(evs) && evs != [] && evs[|evs| - 1].now == late
    ensures |Run(c, evs).s.bans| == k
    ensures forall ip :: ip in Run(c, evs).s.bans ==> Run(c, evs).s.bans[ip] <= late
  {
    var w, last := Run(c, BanFlood(k)), CheckAt(NthIp(k), late);
    BanFloodBans(c, k);
    CrowdGrows(k);
    evs := BanFlood(k) + [last];
    BanFloodInOrder(k, last);
    RunOneMore(c, BanFlood(k), last);
    CheckLeavesBans(c, w, |BanFlood(k)|, NthIp(k), late);
  }
}
