/**
 The double-checked refresh of the signing-key client in the OAuth token validator: an
 unlocked staleness test, a lock, the same test again against the time read at entry, and
 only then a new client followed by a new timestamp.

 Any number of threads interleave one shared access at a time.  The clock never decreases.
 */
module JwksRefresh {
  import opened Options

  /** The validator's two shared fields.  `jwkClient` numbers the clients built so far. */
  class OAuthTokenValidator {
    const jwksCacheTtl: real
    var jwkClient: nat
    var lastJwksFetch: real

    constructor (ttl: real)
      ensures jwksCacheTtl == ttl && jwkClient == 0 && lastJwksFetch == 0.0
    {
      jwksCacheTtl, jwkClient, lastJwksFetch := ttl, 0, 0.0;
    }

    /** The gate of one `validate` call that no other thread disturbs: `now` is read at entry,
        `stamp` once the new client is built.  Returns the client whose keys are used. */
    method PassGate(now: real, stamp: real) returns (used: nat)
      requires now <= stamp
      modifies this
      ensures used == jwkClient
      ensures now - old(lastJwksFetch) > jwksCacheTtl ==>
                jwkClient == old(jwkClient) + 1 && lastJwksFetch == stamp > old(lastJwksFetch) + jwksCacheTtl
      ensures now - old(lastJwksFetch) <= jwksCacheTtl ==>
                jwkClient == old(jwkClient) && lastJwksFetch == old(lastJwksFetch)
      ensures jwksCacheTtl >= 0.0 ==> lastJwksFetch >= now - jwksCacheTtl
    {
      if now - lastJwksFetch > jwksCacheTtl {
        if now - lastJwksFetch > jwksCacheTtl {
          jwkClient := jwkClient + 1;
          lastJwksFetch := stamp;
        }
      }
      used := jwkClient;
    }
  }

  // ---------------------------------------------------------------- interleavings

  /** Where a thread is.  `now` is the time it read at entry; `seen` is the index of the
      refresh whose timestamp let it through the gate. */
  datatype Thread =
    | Entered(now: real)
    | Waiting(now: real)
    | Holding(now: real)
    | Refreshing(now: real)
    | Stamping(now: real)
    | Leaving(now: real, seen: nat)
    | Past(now: real, seen: nat)
    | Using(now: real, seen: nat, client: nat)

  /** `stamps` is every value `_last_jwks_fetch` has had, oldest first; `client` counts the
      replacements of `_jwk_client`. */
  datatype State = State(
    clock: real,
    stamps: seq<real>,
    client: nat,
    holder: Option<nat>,
    threads: map<nat, Thread>)
  {
    function LastFetch(): real
      requires stamps != []
    {
      stamps[|stamps| - 1]
    }
  }

  predicate Initial(s: State) {
    s.stamps == [0.0] && s.client == 0 && s.holder == None && s.threads == map[]
  }

  /** The shared accesses. */
  datatype Event =
    | Tick(to: real)
    | Enter(t: nat)
    | FirstTest(t: nat)
    | Acquire(t: nat)
    | SecondTest(t: nat)
    | Replace(t: nat)
    | Stamp(t: nat)
    | Unlock(t: nat)
    | ReadClient(t: nat)

  predicate Stale(s: State, now: real, ttl: real)
    requires s.stamps != []
  {
    now - s.LastFetch() > ttl
  }

  predicate Enabled(s: State, ev: Event) {
    match ev
    case Tick(to) => s.clock <= to
    case Enter(t) => t !in s.threads
    case FirstTest(t) => t in s.threads && s.threads[t].Entered?
    case Acquire(t) => t in s.threads && s.threads[t].Waiting? && s.holder == None
    case SecondTest(t) => t in s.threads && s.threads[t].Holding?
    case Replace(t) => t in s.threads && s.threads[t].Refreshing?
    case Stamp(t) => t in s.threads && s.threads[t].Stamping?
    case Unlock(t) => t in s.threads && s.threads[t].Leaving?
    case ReadClient(t) => t in s.threads && s.threads[t].Past?
  }

  function Next(s: State, ev: Event, ttl: real): State
    requires Enabled(s, ev) && s.stamps != []
  {
    var last := |s.stamps| - 1;
    match ev
    case Tick(to) => s.(clock := to)
    case Enter(t) => s.(threads := s.threads[t := Entered(s.clock)])
    case FirstTest(t) =>
      var now := s.threads[t].now;
      s.(threads := s.threads[t := if Stale(s, now, ttl) then Waiting(now) else Past(now, last)])
    case Acquire(t) => s.(holder := Some(t), threads := s.threads[t := Holding(s.threads[t].now)])
    case SecondTest(t) =>
      var now := s.threads[t].now;
      s.(threads := s.threads[t := if Stale(s, now, ttl) then Refreshing(now) else Leaving(now, last)])
    case Replace(t) => s.(client := s.client + 1, threads := s.threads[t := Stamping(s.threads[t].now)])
    case Stamp(t) =>
      s.(stamps := s.stamps + [s.clock], threads := s.threads[t := Leaving(s.threads[t].now, last + 1)])
    case Unlock(t) => s.(holder := None, threads := s.threads[t := Past(s.threads[t].now, s.threads[t].seen)])
    case ReadClient(t) =>
      s.(threads := s.threads[t := Using(s.threads[t].now, s.threads[t].seen, s.client)])
  }

  predicate InCriticalSection(th: Thread) {
    th.Holding? || th.Refreshing? || th.Stamping? || th.Leaving?
  }

  /** Consecutive timestamps are strictly more than the TTL apart. */
  ghost predicate Spaced(stamps: seq<real>, ttl: real) {
    forall i :: 0 <= i < |stamps| - 1 ==> stamps[i + 1] - stamps[i] > ttl
  }

  /** What is known about one thread. */
  ghost predicate ThreadOk(s: State, t: nat, ttl: real)
    requires t in s.threads && s.stamps != []
  {
    var th := s.threads[t];
    && th.now <= s.clock
    && (InCriticalSection(th) <==> s.holder == Some(t))
    && (th.Refreshing? || th.Stamping? ==> Stale(s, th.now, ttl))
    && (th.Leaving? || th.Past? || th.Using? ==>
          th.seen < |s.stamps| && th.now - s.stamps[th.seen] <= ttl)
    && (th.Using? ==> th.seen <= th.client)
  }

  /** The client is ahead of the timestamps exactly between its replacement and its stamp. */
  ghost predicate Inv(s: State, ttl: real) {
    && s.stamps != [] && ttl >= 0.0
    && Spaced(s.stamps, ttl)
    && (s.holder.Some? ==> s.holder.value in s.threads)
    && s.client == |s.stamps| - (if s.holder.Some? && s.threads[s.holder.value].Stamping? then 0 else 1)
    && forall t :: t in s.threads ==> ThreadOk(s, t, ttl)
  }

  /** The thread that moves. */
  lemma MoverKeeps(s: State, ev: Event, ttl: real)
    requires Inv(s, ttl) && Enabled(s, ev) && !ev.Tick?
    ensures ev.t in Next(s, ev, ttl).threads && ThreadOk(Next(s, ev, ttl), ev.t, ttl)
  {
    if ev.t in s.threads {
      assert ThreadOk(s, ev.t, ttl);
    }
  }

  /** A thread that does not move. */
  lemma BystanderKeeps(s: State, ev: Event, ttl: real, t: nat)
    requires Inv(s, ttl) && Enabled(s, ev) && t in s.threads && (ev.Tick? || ev.t != t)
    ensures ThreadOk(Next(s, ev, ttl), t, ttl)
  {
    assert ThreadOk(s, t, ttl);
    if !ev.Tick? && ev.t in s.threads {
      assert ThreadOk(s, ev.t, ttl);
    }
  }

  lemma NextKeepsThread(s: State, ev: Event, ttl: real, t: nat)
    requires Inv(s, ttl) && Enabled(s, ev) && t in Next(s, ev, ttl).threads
    ensures ThreadOk(Next(s, ev, ttl), t, ttl)
  {
    if !ev.Tick? && ev.t == t {
      MoverKeeps(s, ev, ttl);
    } else {
      BystanderKeeps(s, ev, ttl, t);
    }
  }

  lemma NextKeepsInv(s: State, ev: Event, ttl: real)
    requires Inv(s, ttl) && Enabled(s, ev)
    ensures Inv(Next(s, ev, ttl), ttl)
  {
    var s' := Next(s, ev, ttl);
    forall t | t in s'.threads
      ensures ThreadOk(s', t, ttl)
    {
      NextKeepsThread(s, ev, ttl, t);
    }
    if !ev.Tick? && ev.t in s.threads {
      assert ThreadOk(s, ev.t, ttl);
    }
  }

  // ---------------------------------------------------------------- runs

  predicate Possible(s: State, evs: seq<Event>, ttl: real)
    decreases |evs|
  {
    evs == [] || (s.stamps != [] && Enabled(s, evs[0]) && Possible(Next(s, evs[0], ttl), evs[1..], ttl))
  }

  function After(s: State, evs: seq<Event>, ttl: real): State
    requires Possible(s, evs, ttl)
    decreases |evs|
  {
    if evs == [] then s else After(Next(s, evs[0], ttl), evs[1..], ttl)
  }

  lemma {:induction false} RunKeepsInv(s: State, evs: seq<Event>, ttl: real)
    requires Inv(s, ttl) && Possible(s, evs, ttl)
    ensures Inv(After(s, evs, ttl), ttl)
    decreases |evs|
  {
    if evs != [] {
      NextKeepsInv(s, evs[0], ttl);
      RunKeepsInv(Next(s, evs[0], ttl), evs[1..], ttl);
    }
  }

  /** In every interleaving of any number of threads. */
  lemma RefreshGate(s: State, evs: seq<Event>, ttl: real)
    requires ttl >= 0.0 && Initial(s) && Possible(s, evs, ttl)
    ensures var s' := After(s, evs, ttl);
            // refreshes are strictly more than the TTL apart
            && (forall i :: 0 <= i < |s'.stamps| - 1 ==> s'.stamps[i + 1] - s'.stamps[i] > ttl)
            // a thread past the gate uses the client of a fetch fresh enough for it, or a later client
            && (forall t :: t in s'.threads && s'.threads[t].Using? ==>
                  var th := s'.threads[t];
                  th.seen < |s'.stamps| && s'.stamps[th.seen] >= th.now - ttl && th.client >= th.seen)
            // never two threads between acquiring and releasing the lock
            && (forall t, u :: t in s'.threads && u in s'.threads && t != u ==>
                  !(InCriticalSection(s'.threads[t]) && InCriticalSection(s'.threads[u])))
  {
    RunKeepsInv(s, evs, ttl);
    var s' := After(s, evs, ttl);
    forall t | t in s'.threads
      ensures ThreadOk(s', t, ttl)
    {
    }
  }
}
