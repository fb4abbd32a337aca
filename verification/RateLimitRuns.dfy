/**
 What dropping IPs costs the rate limiter: runs in which an IP gets exactly as many requests into
 one window as the bound by drops allows.
 */
module RateLimitRuns {
  import opened Counting
  import opened OrderedDicts
  import opened RateLimiting

  const VICTIM := Ip("y")

  type Hits = OrderedDict<Ip, seq<real>>

  /** A run, all at one moment, leads to `w`. */
  ghost predicate Reached(c: Config, evs: seq<Event>, w: World) {
    Run(c, evs) == w && AllNow(evs)
  }

  predicate AllNow(evs: seq<Event>) {
    forall i :: 0 <= i < |evs| ==> evs[i].now == 0.0
  }

  lemma Extend(c: Config, evs: seq<Event>, w: World, ip: Ip) returns (evs': seq<Event>, w': World)
    requires Reached(c, evs, w)
    ensures Reached(c, evs', w') && w' == Step(c, w, |evs|, CheckAt(ip, 0.0))
  {
    RunOneMore(c, evs, CheckAt(ip, 0.0));
    evs', w' := evs + [CheckAt(ip, 0.0)], Step(c, w, |evs|, CheckAt(ip, 0.0));
  }

  // ---------------------------------------------------------------- one check

  ghost predicate AllZero(ts: seq<real>) {
    forall i :: 0 <= i < |ts| ==> ts[i] == 0.0
  }

  lemma {:induction false} CountZeros(ts: seq<real>, window: real)
    requires AllZero(ts) && window > 0.0
    ensures CountIn(ts, 0.0 - window, 0.0) == |ts|
  {
    if ts != [] {
      CountZeros(ts[1..], window);
    }
  }

  ghost predicate VictimLog(w: World, full: nat) {
    |w.Log(VICTIM)| == full && AllZero(w.Log(VICTIM))
  }

  lemma FewAllowed(c: Config, s: State, ip: Ip)
    requires s.bans == map[] && |s.hits.Get(ip, [])| < c.maxRequests
    ensures Allows(c, s, ip, 0.0) && |Stored(c, s, ip, 0.0)| <= |s.hits.Get(ip, [])| + 1
  {
    PruneLength(s.hits.Get(ip, []), 0.0 - c.window);
  }

  /** The victim's log after a check. */
  lemma VictimAfter(c: Config, w: World, n: nat, ev: Event, full: nat)
    requires ev.CheckAt? && ev.now == 0.0 && VictimLog(w, full)
    ensures VictimLog(Step(c, w, n, ev), full + if ev.ip == VICTIM && Allows(c, w.s, VICTIM, 0.0) then 1 else 0)
  {
    LogGrows(c, w, n, ev, VICTIM);
  }

  /** Nobody is banned, and the victim has at most `kept` stored requests, `full` allowed ones in
      all and `d` drops, each at the same moment. */
  ghost predicate At(w: World, kept: nat, full: nat, d: nat) {
    && w.s.hits.Valid() && |w.s.hits.keys| <= MAX_RATE_LIMIT_IPS && w.s.bans == map[]
    && |w.s.hits.Get(VICTIM, [])| <= kept && VictimLog(w, full)
    && |w.DropTimes(VICTIM)| == d && AllZero(w.DropTimes(VICTIM))
  }

  /** `b` IPs were checked after the victim's last check. */
  ghost predicate Behind(hits: Hits, b: nat) {
    b < |hits.keys| && hits.keys[|hits.keys| - 1 - b] == VICTIM
  }

  /** The table after an allowed check. */
  function Put(hits: Hits, ip: Ip, ts: seq<real>): Hits {
    var more := hits.PutLast(ip, ts);
    if |more.keys| > MAX_RATE_LIMIT_IPS then more.PopFirst() else more
  }

  lemma PutFacts(hits: Hits, ip: Ip, ts: seq<real>)
    requires hits.Valid() && |hits.keys| <= MAX_RATE_LIMIT_IPS
    ensures Put(hits, ip, ts).Valid() && |Put(hits, ip, ts).keys| <= MAX_RATE_LIMIT_IPS
    ensures Behind(Put(hits, VICTIM, ts), 0) && Put(hits, VICTIM, ts).Get(VICTIM, []) == ts
    ensures VICTIM in Put(hits, VICTIM, ts).vals
  {
    var more := hits.PutLast(ip, ts);
    PutLastValid(hits, ip, ts);
    PopFirstValid(more);
    VictimPut(hits, ts);
  }

  lemma VictimPut(hits: Hits, ts: seq<real>)
    requires hits.Valid() && |hits.keys| <= MAX_RATE_LIMIT_IPS
    ensures Behind(Put(hits, VICTIM, ts), 0) && Put(hits, VICTIM, ts).Get(VICTIM, []) == ts
    ensures VICTIM in Put(hits, VICTIM, ts).vals
  {
    var more := hits.PutLast(VICTIM, ts);
    PutLastValid(hits, VICTIM, ts);
    assert more.keys[|more.keys| - 1] == VICTIM;
  }

  lemma NewcomerAppended(hits: Hits, ip: Ip, ts: seq<real>)
    requires hits.Valid() && ip !in hits.vals && ip != VICTIM
    ensures var more := hits.PutLast(ip, ts);
            && more.keys == hits.keys + [ip] && more.Valid() && more.Get(VICTIM, []) == hits.Get(VICTIM, [])
  {
    WithoutKeepsOthers(hits.keys, ip);
    PutLastValid(hits, ip, ts);
  }

  /** A newcomer, when the victim is not the oldest of a full table. */
  lemma NewcomerPut(hits: Hits, ip: Ip, ts: seq<real>, b: nat)
    requires hits.Valid() && |hits.keys| <= MAX_RATE_LIMIT_IPS && ip !in hits.vals && ip != VICTIM
    requires Behind(hits, b) && b + 1 < MAX_RATE_LIMIT_IPS
    ensures var after := Put(hits, ip, ts);
            Behind(after, b + 1) && VICTIM in after.vals && after.Get(VICTIM, []) == hits.Get(VICTIM, [])
  {
    var more := hits.PutLast(ip, ts);
    NewcomerAppended(hits, ip, ts);
    var k := |more.keys| - 2 - b;
    assert more.keys[k] == VICTIM;
    if |more.keys| > MAX_RATE_LIMIT_IPS {
      assert more.keys[0] != VICTIM;
      assert more.PopFirst().keys[k - 1] == VICTIM;
    }
  }

  /** One IP more drops the victim. */
  lemma NewcomerDrops(hits: Hits, ip: Ip, ts: seq<real>)
    requires hits.Valid() && |hits.keys| <= MAX_RATE_LIMIT_IPS && ip !in hits.vals && ip != VICTIM
    requires Behind(hits, MAX_RATE_LIMIT_IPS - 1)
    ensures VICTIM in hits.vals && VICTIM !in Put(hits, ip, ts).vals
  {
    assert hits.keys[0] == VICTIM;
    NewcomerAppended(hits, ip, ts);
  }

  /** An IP with few stored requests is allowed. */
  lemma CheckPuts(c: Config, w: World, n: nat, ip: Ip)
    requires w.s.bans == map[] && |w.s.hits.Get(ip, [])| < c.maxRequests
    ensures Allows(c, w.s, ip, 0.0) && |Stored(c, w.s, ip, 0.0)| <= |w.s.hits.Get(ip, [])| + 1
    ensures Step(c, w, n, CheckAt(ip, 0.0)).s == State(Put(w.s.hits, ip, Stored(c, w.s, ip, 0.0)), map[])
  {
    FewAllowed(c, w.s, ip);
  }

  /** What the check does to the victim's drops. */
  lemma VictimDrops(c: Config, w: World, n: nat, ip: Ip, d: nat)
    requires |w.DropTimes(VICTIM)| == d && AllZero(w.DropTimes(VICTIM)) && w.s.bans == map[]
    ensures var w' := Step(c, w, n, CheckAt(ip, 0.0));
            var lost := (VICTIM in w.s.hits.vals || ip == VICTIM) && VICTIM !in w'.s.hits.vals;
            |w'.DropTimes(VICTIM)| == d + (if lost then 1 else 0) && AllZero(w'.DropTimes(VICTIM))
  {
    DropsGrow(c, w, n, CheckAt(ip, 0.0), VICTIM);
  }

  lemma VictimArrives(c: Config, w: World, n: nat, kept: nat, full: nat, d: nat)
    requires At(w, kept, full, d) && kept < c.maxRequests
    ensures var w' := Step(c, w, n, CheckAt(VICTIM, 0.0)); At(w', kept + 1, full + 1, d) && Behind(w'.s.hits, 0)
  {
    CheckPuts(c, w, n, VICTIM);
    PutFacts(w.s.hits, VICTIM, Stored(c, w.s, VICTIM, 0.0));
    VictimAfter(c, w, n, CheckAt(VICTIM, 0.0), full);
    VictimDrops(c, w, n, VICTIM, d);
  }

  /** An IP that is not tracked. */
  lemma Newcomer(hits: Hits) returns (ip: Ip)
    ensures ip !in hits.vals && ip != VICTIM
  {
    var lengths: set<nat> := set x | x in hits.vals :: |x.address|;
    var n := NatOutside(lengths + {1});
    ip := Ip(seq(n, _ => 'x'));
    assert forall x :: x in hits.vals ==> |x.address| in lengths;
  }

  lemma NewcomerArrives(c: Config, w: World, n: nat, ip: Ip, kept: nat, full: nat, d: nat, b: nat)
    requires c.maxRequests >= 1 && At(w, kept, full, d) && ip !in w.s.hits.vals && ip != VICTIM
    requires Behind(w.s.hits, b) && b + 1 < MAX_RATE_LIMIT_IPS
    ensures var w' := Step(c, w, n, CheckAt(ip, 0.0)); At(w', kept, full, d) && Behind(w'.s.hits, b + 1)
  {
    CheckPuts(c, w, n, ip);
    PutFacts(w.s.hits, ip, Stored(c, w.s, ip, 0.0));
    NewcomerPut(w.s.hits, ip, Stored(c, w.s, ip, 0.0), b);
    VictimAfter(c, w, n, CheckAt(ip, 0.0), full);
    VictimDrops(c, w, n, ip, d);
  }

  lemma LastNewcomer(c: Config, w: World, n: nat, ip: Ip, kept: nat, full: nat, d: nat)
    requires c.maxRequests >= 1 && At(w, kept, full, d) && ip !in w.s.hits.vals && ip != VICTIM
    requires Behind(w.s.hits, MAX_RATE_LIMIT_IPS - 1)
    ensures var w' := Step(c, w, n, CheckAt(ip, 0.0)); At(w', 0, full, d + 1) && w'.Since(VICTIM) == []
  {
    CheckPuts(c, w, n, ip);
    PutFacts(w.s.hits, ip, Stored(c, w.s, ip, 0.0));
    NewcomerDrops(w.s.hits, ip, Stored(c, w.s, ip, 0.0));
    VictimAfter(c, w, n, CheckAt(ip, 0.0), full);
    VictimDrops(c, w, n, ip, d);
    DropsGrow(c, w, n, CheckAt(ip, 0.0), VICTIM);
  }

  // ---------------------------------------------------------------- the runs

  /** The victim is checked `k` times more. */
  lemma {:induction false} Fill(c: Config, evs: seq<Event>, w: World, full: nat, d: nat, k: nat)
    returns (evs': seq<Event>, w': World)
    requires Reached(c, evs, w) && At(w, 0, full, d) && k <= c.maxRequests
    ensures Reached(c, evs', w') && At(w', k, full + k, d) && (k > 0 ==> Behind(w'.s.hits, 0))
  {
    evs', w' := evs, w;
    if k > 0 {
      evs', w' := Fill(c, evs, w, full, d, k - 1);
      VictimArrives(c, w', |evs'|, k - 1, full + k - 1, d);
      evs', w' := Extend(c, evs', w', VICTIM);
    }
  }

  /** `b` newcomers are checked after the victim. */
  lemma {:induction false} Newcomers(c: Config, evs: seq<Event>, w: World, kept: nat, full: nat, d: nat, b: nat)
    returns (evs': seq<Event>, w': World)
    requires c.maxRequests >= 1 && Reached(c, evs, w) && At(w, kept, full, d)
    requires Behind(w.s.hits, 0) && b < MAX_RATE_LIMIT_IPS
    ensures Reached(c, evs', w') && At(w', kept, full, d) && Behind(w'.s.hits, b)
  {
    evs', w' := evs, w;
    if b > 0 {
      evs', w' := Newcomers(c, evs, w, kept, full, d, b - 1);
      var ip := Newcomer(w'.s.hits);
      NewcomerArrives(c, w', |evs'|, ip, kept, full, d, b - 1);
      evs', w' := Extend(c, evs', w', ip);
    }
  }

  /** The victim is dropped. */
  lemma Drop(c: Config, evs: seq<Event>, w: World, kept: nat, full: nat, d: nat)
    returns (evs': seq<Event>, w': World)
    requires c.maxRequests >= 1 && Reached(c, evs, w) && At(w, kept, full, d) && Behind(w.s.hits, 0)
    ensures Reached(c, evs', w') && At(w', 0, full, d + 1) && w'.Since(VICTIM) == []
  {
    evs', w' := Newcomers(c, evs, w, kept, full, d, MAX_RATE_LIMIT_IPS - 1);
    var ip := Newcomer(w'.s.hits);
    LastNewcomer(c, w', |evs'|, ip, kept, full, d);
    evs', w' := Extend(c, evs', w', ip);
  }

  lemma StartAt(c: Config)
    ensures Reached(c, [], Run(c, [])) && At(Run(c, []), 0, 0, 0)
  {
  }

  /** The victim fills its window, and is dropped and fills it again `d` times. */
  lemma {:induction false} Rounds(c: Config, max: nat, d: nat) returns (evs: seq<Event>, w: World)
    requires max == c.maxRequests >= 1
    ensures Reached(c, evs, w) && At(w, max, Quota(max, d) + max, d) && Behind(w.s.hits, 0)
  {
    if d == 0 {
      StartAt(c);
      evs, w := Fill(c, [], Run(c, []), 0, 0, max);
    } else {
      evs, w := Rounds(c, max, d - 1);
      evs, w := Drop(c, evs, w, max, Quota(max, d), d - 1);
      evs, w := Fill(c, evs, w, Quota(max, d), d, max);
    }
  }

  /** The victim's numbers, when everything happened at one moment. */
  lemma TallyAt(w: World, window: real, kept: nat, full: nat, d: nat) returns (t: Tally)
    requires At(w, kept, full, d) && window > 0.0
    ensures t == TallyOf(w, VICTIM, 0.0 - window, 0.0) && t.all == full && t.drops == d
  {
    CountZeros(w.Log(VICTIM), window);
    CountZeros(w.DropTimes(VICTIM), window);
    t := TallyOf(w, VICTIM, 0.0 - window, 0.0);
  }

  lemma NowInOrder(evs: seq<Event>)
    requires AllNow(evs)
    ensures InOrder(evs)
  {
  }

  lemma SomeTally(c: Config, max: nat, d: nat) returns (evs: seq<Event>, w: World, t: Tally)
    requires max == c.maxRequests >= 1 && c.window > 0.0
    ensures Reached(c, evs, w) && t == TallyOf(w, VICTIM, 0.0 - c.window, 0.0)
    ensures t.drops == d && t.all == Quota(max, d) + max
  {
    evs, w := Rounds(c, max, d);
    t := TallyAt(w, c.window, max, Quota(max, d) + max, d);
  }

  /** For every limit and every number of drops some run attains the bound of `OverrunBounded`
      exactly, within a single moment. */
  lemma OverrunAttained(c: Config, max: nat, d: nat) returns (evs: seq<Event>, t: Tally)
    requires max == c.maxRequests >= 1 && c.window > 0.0
    ensures InOrder(evs) && t == TallyOf(Run(c, evs), VICTIM, 0.0 - c.window, 0.0)
    ensures t.drops == d && t.all == max * (d + 1)
  {
    var w;
    evs, w, t := SomeTally(c, max, d);
    NowInOrder(evs);
    QuotaIsProduct(max, d + 1);
  }

  lemma EmptySinceMatters(c: Config, w: World, kept: nat, full: nat, d: nat)
    requires At(w, kept, full, d) && w.Since(VICTIM) == [] && 1 <= c.maxRequests <= full && c.window > 0.0
    ensures DropMatters(c, w, VICTIM, 0.0)
  {
    CountZeros(w.Log(VICTIM), c.window);
  }

  /** For every limit there is a run after which a drop matters: the victim fills its window and
      is dropped for the cap many other IPs, and then is allowed once more. */
  lemma SomeDropMatters(c: Config) returns (evs: seq<Event>)
    requires c.maxRequests >= 1 && c.window > 0.0
    ensures InOrder(evs + [CheckAt(VICTIM, 0.0)]) && DropMatters(c, Run(c, evs), VICTIM, 0.0)
  {
    var w;
    evs, w := Rounds(c, c.maxRequests, 0);
    evs, w := Drop(c, evs, w, c.maxRequests, c.maxRequests, 0);
    EmptySinceMatters(c, w, 0, c.maxRequests, 1);
    NowInOrder(evs + [CheckAt(VICTIM, 0.0)]);
  }
}
