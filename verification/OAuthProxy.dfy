/**
 The OAuth proxy in front of its three rate limiters, one for each route it handles: a bogus
 request bans its IP on that route and is never counted; any other request is checked.
 */
module OAuthProxy {
  import opened RateLimiting

  datatype Route = Authorize | Token | Register

  /** `bogus` is the verdict of the bogus-request detection. */
  datatype Request = Request(route: Route, ip: Ip, bogus: bool, now: real)

  /** A 403, a 429, or on to the route's handler. */
  datatype Verdict = Forbidden | Limited | Forwarded

  function EventOf(q: Request): Event {
    if q.bogus then BanAt(q.ip, q.now) else CheckAt(q.ip, q.now)
  }

  function VerdictOf(c: Config, s: State, q: Request): Verdict {
    if q.bogus then Forbidden else if Allows(c, s, q.ip, q.now) then Forwarded else Limited
  }

  class OAuthProxyMiddleware {
    const authorize: RateLimiter
    const token: RateLimiter
    const register: RateLimiter

    constructor (configs: Route -> Config)
      ensures Valid() && fresh(authorize) && fresh(token) && fresh(register)
      ensures forall r :: LimiterOf(r).config == configs(r) && LimiterOf(r).Snapshot() == FRESH_STATE
    {
      authorize := new RateLimiter(configs(Authorize));
      token := new RateLimiter(configs(Token));
      register := new RateLimiter(configs(Register));
    }

    predicate Valid() {
      authorize != token && authorize != register && token != register
    }

    function LimiterOf(route: Route): RateLimiter {
      match route
      case Authorize => authorize
      case Token => token
      case Register => register
    }

    /** What happens to a request for one of the three routes before its handler is called. */
    method Admit(q: Request) returns (verdict: Verdict)
      requires Valid()
      modifies LimiterOf(q.route)
      ensures var limiter := LimiterOf(q.route);
              && verdict == VerdictOf(limiter.config, old(limiter.Snapshot()), q)
              && limiter.Snapshot() == (if q.bogus then Ban(limiter.config, old(limiter.Snapshot()), q.ip, q.now)
                                        else AfterCheck(limiter.config, old(limiter.Snapshot()), q.ip, q.now))
              && limiter.Snapshot() == AfterEvent(limiter.config, old(limiter.Snapshot()), EventOf(q))
      ensures verdict == Forbidden <==> q.bogus
      ensures forall r :: r != q.route ==> LimiterOf(r).Snapshot() == old(LimiterOf(r).Snapshot())
    {
      var limiter := LimiterOf(q.route);
      if q.bogus {
        limiter.BanIp(q.ip, q.now);
        return Forbidden;
      }
      var allowed := limiter.CheckRequest(q.ip, q.now);
      return if allowed then Forwarded else Limited;
    }
  }

  // ---------------------------------------------------------------- runs

  /** The limiter of a route after some requests to all routes. */
  function StateOf(configs: Route -> Config, qs: seq<Request>, route: Route): State {
    if qs == [] then FRESH_STATE
    else
      var before, q := StateOf(configs, qs[..|qs| - 1], route), qs[|qs| - 1];
      if q.route == route then AfterEvent(configs(route), before, EventOf(q)) else before
  }

  /** What happens on one route. */
  function EventsOn(qs: seq<Request>, route: Route): seq<Event> {
    if qs == [] then []
    else
      var q := qs[|qs| - 1];
      EventsOn(qs[..|qs| - 1], route) + if q.route == route then [EventOf(q)] else []
  }

  ghost predicate InOrderOfTime(qs: seq<Request>) {
    forall i, j :: 0 <= i < j < |qs| ==> qs[i].now <= qs[j].now
  }

  lemma {:induction false} EventsInOrder(qs: seq<Request>, route: Route, clock: real)
    requires InOrderOfTime(qs) && (qs != [] ==> qs[|qs| - 1].now <= clock)
    ensures InOrder(EventsOn(qs, route)) && forall ev :: ev in EventsOn(qs, route) ==> ev.now <= clock
    decreases |qs|
  {
    if qs != [] {
      EventsInOrder(qs[..|qs| - 1], route, qs[|qs| - 1].now);
    }
  }

  /** Routes do not influence each other: each limiter is where its own requests take it. */
  lemma {:induction false} RoutesAreIndependent(configs: Route -> Config, qs: seq<Request>, route: Route)
    ensures StateOf(configs, qs, route) == Run(configs(route), EventsOn(qs, route)).s
    decreases |qs|
  {
    if qs != [] {
      var front, q := qs[..|qs| - 1], qs[|qs| - 1];
      RoutesAreIndependent(configs, front, route);
      if q.route == route {
        var evs := EventsOn(front, route);
        assert (evs + [EventOf(q)])[..|evs|] == evs;
      } else {
        assert EventsOn(front, route) + [] == EventsOn(front, route);
      }
    }
  }

  lemma NextInOrder(qs: seq<Request>, q: Request)
    requires InOrderOfTime(qs + [q])
    ensures InOrder(EventsOn(qs, q.route) + [CheckAt(q.ip, q.now)])
  {
    var all := qs + [q];
    assert forall i :: 0 <= i < |qs| ==> all[i] == qs[i];
    assert all[|qs|] == q;
    EventsInOrder(qs, q.route, q.now);
  }

  /** In every run a bogus request gets a 403, and any other is forwarded if a limiter of its
      route that never forgets would allow it and gets a 429 if not, unless its IP was dropped
      for space. */
  lemma ForwardedIff(configs: Route -> Config, qs: seq<Request>, q: Request)
    requires InOrderOfTime(qs + [q])
    requires q.ip !in Run(configs(q.route), EventsOn(qs, q.route)).drops
    ensures VerdictOf(configs(q.route), StateOf(configs, qs, q.route), q) ==
            if q.bogus then Forbidden
            else if RefAllows(configs(q.route), RefRun(configs(q.route), EventsOn(qs, q.route)), q.ip, q.now)
            then Forwarded else Limited
  {
    NextInOrder(qs, q);
    RoutesAreIndependent(configs, qs, q.route);
    Refinement(configs(q.route), EventsOn(qs, q.route), q.ip, q.now);
  }

  /** A request to a route shows in the events of the route. */
  lemma {:induction false} EventOfRequest(qs: seq<Request>, at: nat) returns (i: nat)
    requires at < |qs|
    ensures i < |EventsOn(qs, qs[at].route)| && EventsOn(qs, qs[at].route)[i] == EventOf(qs[at])
    decreases |qs|
  {
    var n := |qs| - 1;
    if at == n {
      i := |EventsOn(qs[..n], qs[at].route)|;
    } else {
      i := EventOfRequest(qs[..n], at);
    }
  }

  /** After a bogus request every other request of the IP to the same route is answered with a
      429 until the ban expires, whatever happens in between. */
  lemma BogusBansItsRoute(configs: Route -> Config, qs: seq<Request>, at: nat, q: Request)
    requires InOrderOfTime(qs + [q]) && at < |qs| && qs[at].bogus && !q.bogus
    requires q.ip == qs[at].ip && q.route == qs[at].route
    requires q.now < qs[at].now + configs(q.route).banDuration
    ensures VerdictOf(configs(q.route), StateOf(configs, qs, q.route), q) == Limited
  {
    NextInOrder(qs, q);
    RoutesAreIndependent(configs, qs, q.route);
    var i := EventOfRequest(qs, at);
    BanRefuses(configs(q.route), EventsOn(qs, q.route), i, q.now);
  }
}
