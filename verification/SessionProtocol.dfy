/**
 The session registry as a protocol: any number of request handlers, on any number of nodes,
 interleave single registry operations with calls into the inner application, while time
 passes and expired rows are purged.

 Two families of results: a session stays bound to its owner across migrations, and the
 number of sessions per owner stays within a bound.
 */
module SessionProtocol {
  import opened Counting

  datatype Sid = Sid(text: string)
  datatype Owner = Owner(id: string)

  datatype Session = Session(owner: Owner, expires: real)
  datatype Redirect = Redirect(target: Sid, expires: real)

  /** How far a handler has come.  `req` is the authenticated owner of the request. */
  datatype Handler =
    | InitCheck(req: Owner)                          // POST without a session id, before the limit check
    | InitAdmitted(req: Owner)                       // inner app is answering the initialise
    | Lookup(req: Owner, sid: Sid)                   // POST or GET with a session id
    | Missed(req: Owner, sid: Sid)                   // no live session: redirect lookup next
    | Redirected(req: Owner, sid: Sid)               // redirect found: look up its target
    | Found(req: Owner, sid: Sid, owner: Owner)      // session row read, owner not yet compared
    | PassUntracked(req: Owner, sid: Sid)            // inner app called without a session row
    | PassTracked(req: Owner, sid: Sid)              // inner app called for the session's owner
    | Reinit(req: Owner, sid: Sid)                   // inner app rejected the id: synthetic initialise
    | Registered(req: Owner, sid: Sid, newSid: Sid)   // replacement registered
    | Linked(req: Owner, sid: Sid, newSid: Sid)       // redirect stored
    | Replay(req: Owner, sid: Sid)                   // old session invalidated: original request replayed
    | Terminate(req: Owner, sid: Sid)                // DELETE by anybody, inner app has answered
    | Terminated(req: Owner, sid: Sid)               // session invalidated
    | Done

  datatype Config = Config(maxSessions: nat, ttl: real, grace: real)

  /** The two tables.  `owners` and `born` remember every session ever registered and in which
      order; `orphans` counts, per owner, re-initialisations whose old session was already dead. */
  datatype Registry = Registry(
    now: real,
    sessions: map<Sid, Session>,
    redirects: map<Sid, Redirect>,
    owners: map<Sid, Owner>,
    born: map<Sid, nat>,
    orphans: multiset<Owner>)
  {
    predicate Live(sid: Sid) {
      sid in sessions && sessions[sid].expires > now
    }

    /** `session_register`. */
    function Register(sid: Sid, owner: Owner, ttl: real): Registry {
      this.(sessions := sessions[sid := Session(owner, now + ttl)],
            owners := owners[sid := owner], born := born[sid := |born|])
    }

    /** `session_invalidate`. */
    function Invalidate(sid: Sid): Registry {
      if sid in sessions then this.(sessions := sessions[sid := sessions[sid].(expires := now)]) else this
    }

    /** `session_touch`: an expired row is left alone. */
    function Touch(sid: Sid, ttl: real): Registry {
      if Live(sid) then this.(sessions := sessions[sid := sessions[sid].(expires := now + ttl)]) else this
    }

    /** `session_add_redirect`. */
    function AddRedirect(sid: Sid, target: Sid, grace: real): Registry {
      this.(redirects := redirects[sid := Redirect(target, now + grace)])
    }

    /** `session_delete_redirects_to`. */
    function DropRedirectsTo(sid: Sid): Registry {
      this.(redirects := map k | k in redirects && redirects[k].target != sid :: redirects[k])
    }

    function NoteOrphan(owner: Owner, dead: bool): Registry {
      this.(orphans := orphans + if dead then multiset{owner} else multiset{})
    }

    /** The live sessions of an owner. */
    function Active(owner: Owner): set<Sid> {
      ActiveIn(sessions, now, owner)
    }
  }

  function ActiveIn(sessions: map<Sid, Session>, now: real, owner: Owner): set<Sid> {
    set sid | sid in sessions && sessions[sid].owner == owner && sessions[sid].expires > now
  }

  datatype State = State(reg: Registry, handlers: map<nat, Handler>)

  const START := State(Registry(0.0, map[], map[], map[], map[], multiset{}), map[])

  predicate Mentions(p: Handler, sid: Sid) {
    !(p.InitCheck? || p.InitAdmitted? || p.Done?) &&
    (p.sid == sid || ((p.Registered? || p.Linked?) && p.newSid == sid))
  }

  /** An id the inner app has just made up: never registered, and carried by no request. */
  ghost predicate Fresh(s: State, sid: Sid) {
    sid !in s.reg.owners && forall h :: h in s.handlers ==> !Mentions(s.handlers[h], sid)
  }

  /** What a handler's next operation depends on besides the registry: whether the inner app
      accepts, whether a successful answer touches the session, and the id the app makes up. */
  datatype Choice = Choice(accepted: bool, touch: bool, newSid: Sid)

  datatype Event =
    | Tick(to: real)
    | PurgeSessions
    | PurgeRedirects
    | Arrive(h: nat, first: Handler)
    | Move(h: nat, choice: Choice)

  /** Whether the next operation of a handler registers the id the inner app made up. */
  predicate Registers(p: Handler, choice: Choice) {
    (p.InitAdmitted? || p.Reinit?) && choice.accepted
  }

  ghost predicate Enabled(s: State, ev: Event) {
    match ev
    case Tick(to) => s.reg.now <= to
    case PurgeSessions => true
    case PurgeRedirects => true
    case Arrive(h, first) => h !in s.handlers && (first.InitCheck? || first.Lookup? || first.Terminate?)
    case Move(h, choice) => h in s.handlers && (Registers(s.handlers[h], choice) ==> Fresh(s, choice.newSid))
  }

  ghost function Next(c: Config, s: State, ev: Event): State
    requires Enabled(s, ev)
  {
    match ev
    case Tick(to) => s.(reg := s.reg.(now := to))
    case PurgeSessions => s.(reg := Purged(s.reg))
    case PurgeRedirects => s.(reg := s.reg.(redirects :=
      map sid | sid in s.reg.redirects && s.reg.redirects[sid].expires > s.reg.now :: s.reg.redirects[sid]))
    case Arrive(h, first) => s.(handlers := s.handlers[h := first])
    case Move(h, choice) =>
      State(Operate(c, s.reg, s.handlers[h], choice),
            s.handlers[h := Goto(c, s.reg, s.handlers[h], choice)])
  }

  /** `session_cleanup_sessions`. */
  function Purged(r: Registry): Registry {
    r.(sessions := map sid | sid in r.sessions && r.sessions[sid].expires > r.now :: r.sessions[sid])
  }

  /** The registry operation of a handler at `p`. */
  function Operate(c: Config, r: Registry, p: Handler, choice: Choice): Registry {
    match p
    case InitAdmitted(req) => if choice.accepted then r.Register(choice.newSid, req, c.ttl) else r
    case PassTracked(_, sid) => if choice.accepted && choice.touch then r.Touch(sid, c.ttl) else r
    case Reinit(req, _) => if choice.accepted then r.Register(choice.newSid, req, c.ttl) else r
    case Registered(_, sid, newSid) => r.AddRedirect(sid, newSid, c.grace)
    case Linked(req, sid, _) => r.Invalidate(sid).NoteOrphan(req, !r.Live(sid))
    case Terminate(_, sid) => r.Invalidate(sid)
    case Terminated(_, sid) => r.DropRedirectsTo(sid)
    case _ => r
  }

  /** Where a handler at `p` goes next. */
  function Goto(c: Config, r: Registry, p: Handler, choice: Choice): Handler {
    match p
    case InitCheck(req) => if |r.Active(req)| < c.maxSessions then InitAdmitted(req) else Done
    case Lookup(req, sid) => if r.Live(sid) then Found(req, sid, r.sessions[sid].owner) else Missed(req, sid)
    case Missed(req, sid) =>
      if sid in r.redirects && r.redirects[sid].expires > r.now then Redirected(req, r.redirects[sid].target)
      else PassUntracked(req, sid)
    case Redirected(req, sid) =>
      if r.Live(sid) then Found(req, sid, r.sessions[sid].owner) else PassUntracked(req, sid)
    case Found(req, sid, owner) => if owner == req then PassTracked(req, sid) else Done
    case PassTracked(req, sid) => if choice.accepted then Done else Reinit(req, sid)
    case Reinit(req, sid) => if choice.accepted then Registered(req, sid, choice.newSid) else Done
    case Registered(req, sid, newSid) => Linked(req, sid, newSid)
    case Linked(req, _, newSid) => Replay(req, newSid)
    case Terminate(req, sid) => Terminated(req, sid)
    case _ => Done
  }

  // ---------------------------------------------------------------- owner binding

  /** Both ids were registered, for one owner, the second after the first. */
  ghost predicate Joins(r: Registry, sid: Sid, target: Sid) {
    && sid in r.owners && target in r.owners && r.owners[sid] == r.owners[target]
    && sid in r.born && target in r.born && r.born[sid] < r.born[target]
  }

  ghost predicate OwnedBy(r: Registry, sid: Sid, owner: Owner) {
    sid in r.owners && r.owners[sid] == owner
  }

  /** What a handler's position says about the registry. */
  ghost predicate HandlerOk(r: Registry, p: Handler) {
    match p
    case Missed(_, sid) => !r.Live(sid)
    case Redirected(_, sid) => sid in r.owners
    case Found(_, sid, owner) => OwnedBy(r, sid, owner)
    case PassUntracked(_, sid) => !r.Live(sid)
    case PassTracked(req, sid) => OwnedBy(r, sid, req)
    case Reinit(req, sid) => OwnedBy(r, sid, req)
    case Registered(req, sid, newSid) => Joins(r, sid, newSid) && OwnedBy(r, sid, req)
    case Linked(req, sid, newSid) => Joins(r, sid, newSid) && OwnedBy(r, sid, req)
    case Replay(req, sid) => OwnedBy(r, sid, req)
    case _ => true
  }

  ghost predicate Tables(r: Registry) {
    && r.owners.Keys == r.born.Keys
    && (forall sid :: sid in r.born ==> r.born[sid] < |r.born|)
    && (forall sid :: sid in r.sessions ==> OwnedBy(r, sid, r.sessions[sid].owner))
    && (forall sid :: sid in r.redirects ==> Joins(r, sid, r.redirects[sid].target))
  }

  ghost predicate Bound(s: State) {
    Tables(s.reg) && forall h :: h in s.handlers ==> HandlerOk(s.reg, s.handlers[h])
  }

  /** How the registry may change in one operation: only the ids in `made` are added, and no
      other id comes to life. */
  ghost predicate Evolves(r: Registry, r': Registry, made: set<Sid>) {
    && (forall sid :: sid in r.owners ==> OwnedBy(r', sid, r.owners[sid]))
    && (forall sid :: sid in r.born ==> sid in r'.born && r'.born[sid] == r.born[sid])
    && (forall sid :: r'.Live(sid) && !r.Live(sid) ==> sid in made)
  }

  lemma RegisterOk(r: Registry, sid: Sid, owner: Owner, ttl: real)
    requires Tables(r) && sid !in r.owners
    ensures Tables(r.Register(sid, owner, ttl)) && Evolves(r, r.Register(sid, owner, ttl), {sid})
  {
    assert |r.born[sid := |r.born|]| == |r.born| + 1;
  }

  function Made(p: Handler, choice: Choice): set<Sid> {
    if Registers(p, choice) then {choice.newSid} else {}
  }

  lemma InvalidateOk(r: Registry, sid: Sid, owner: Owner, dead: bool)
    requires Tables(r)
    ensures Tables(r.Invalidate(sid)) && Evolves(r, r.Invalidate(sid), {})
    ensures Tables(r.Invalidate(sid).NoteOrphan(owner, dead))
    ensures Evolves(r, r.Invalidate(sid).NoteOrphan(owner, dead), {})
  {
  }

  lemma TouchOk(r: Registry, sid: Sid, ttl: real)
    requires Tables(r)
    ensures Tables(r.Touch(sid, ttl)) && Evolves(r, r.Touch(sid, ttl), {})
  {
  }

  lemma RedirectsOk(r: Registry, sid: Sid, target: Sid, grace: real)
    requires Tables(r)
    ensures Joins(r, sid, target) ==>
              Tables(r.AddRedirect(sid, target, grace)) && Evolves(r, r.AddRedirect(sid, target, grace), {})
    ensures Tables(r.DropRedirectsTo(sid)) && Evolves(r, r.DropRedirectsTo(sid), {})
  {
  }

  lemma OperateOk(c: Config, r: Registry, p: Handler, choice: Choice)
    requires Tables(r) && HandlerOk(r, p) && (Registers(p, choice) ==> choice.newSid !in r.owners)
    ensures Tables(Operate(c, r, p, choice)) && Evolves(r, Operate(c, r, p, choice), Made(p, choice))
  {
    match p {
      case InitAdmitted(req) => if choice.accepted { RegisterOk(r, choice.newSid, req, c.ttl); }
      case Reinit(req, _) => if choice.accepted { RegisterOk(r, choice.newSid, req, c.ttl); }
      case PassTracked(_, sid) => TouchOk(r, sid, c.ttl);
      case Registered(_, sid, newSid) => RedirectsOk(r, sid, newSid, c.grace);
      case Linked(req, sid, _) => InvalidateOk(r, sid, req, !r.Live(sid));
      case Terminate(req, sid) => InvalidateOk(r, sid, req, false);
      case Terminated(_, sid) => RedirectsOk(r, sid, sid, c.grace);
      case _ =>
    }
  }

  /** A handler that does not move keeps its position's promise. */
  lemma HandlerStaysOk(r: Registry, r': Registry, made: set<Sid>, p: Handler)
    requires Evolves(r, r', made) && HandlerOk(r, p) && forall sid :: sid in made ==> !Mentions(p, sid)
    ensures HandlerOk(r', p)
  {
  }

  /** The handler that moves reaches a position whose promise holds. */
  lemma MoverOk(c: Config, r: Registry, p: Handler, choice: Choice)
    requires Tables(r) && HandlerOk(r, p) && (Registers(p, choice) ==> choice.newSid !in r.owners)
    ensures HandlerOk(Operate(c, r, p, choice), Goto(c, r, p, choice))
  {
  }

  lemma MoveKeepsBound(c: Config, s: State, h: nat, choice: Choice)
    requires Bound(s) && Enabled(s, Move(h, choice))
    ensures Bound(Next(c, s, Move(h, choice)))
  {
    var p := s.handlers[h];
    var s' := Next(c, s, Move(h, choice));
    OperateOk(c, s.reg, p, choice);
    forall k | k in s'.handlers
      ensures HandlerOk(s'.reg, s'.handlers[k])
    {
      if k == h {
        MoverOk(c, s.reg, p, choice);
      } else {
        HandlerStaysOk(s.reg, s'.reg, Made(p, choice), s.handlers[k]);
      }
    }
  }

  lemma NextKeepsBound(c: Config, s: State, ev: Event)
    requires Bound(s) && Enabled(s, ev)
    ensures Bound(Next(c, s, ev))
  {
    if ev.Move? {
      MoveKeepsBound(c, s, ev.h, ev.choice);
    } else {
      var s' := Next(c, s, ev);
      assert Evolves(s.reg, s'.reg, {});
      forall k | k in s.handlers
        ensures HandlerOk(s'.reg, s.handlers[k])
      {
        HandlerStaysOk(s.reg, s'.reg, {}, s.handlers[k]);
      }
    }
  }

  // ---------------------------------------------------------------- runs

  ghost predicate Possible(c: Config, s: State, evs: seq<Event>)
    decreases |evs|
  {
    evs == [] || (Enabled(s, evs[0]) && Possible(c, Next(c, s, evs[0]), evs[1..]))
  }

  ghost function After(c: Config, s: State, evs: seq<Event>): State
    requires Possible(c, s, evs)
    decreases |evs|
  {
    if evs == [] then s else After(c, Next(c, s, evs[0]), evs[1..])
  }

  lemma {:induction false} RunKeepsBound(c: Config, s: State, evs: seq<Event>)
    requires Bound(s) && Possible(c, s, evs)
    ensures Bound(After(c, s, evs))
    decreases |evs|
  {
    if evs != [] {
      NextKeepsBound(c, s, evs[0]);
      RunKeepsBound(c, Next(c, s, evs[0]), evs[1..]);
    }
  }

  /** The session id under which a handler's request is inside the inner app. */
  predicate InsideApp(p: Handler, req: Owner, sid: Sid) {
    p == PassTracked(req, sid) || p == PassUntracked(req, sid) || p == Replay(req, sid)
  }

  /** In every run: a redirect joins two sessions of one owner, and a request inside the inner
      app under a live registered id belongs to that session's owner. */
  lemma OwnerBinding(c: Config, evs: seq<Event>)
    requires Possible(c, START, evs)
    ensures var s := After(c, START, evs);
            && (forall sid :: sid in s.reg.redirects ==>
                  sid in s.reg.owners && OwnedBy(s.reg, s.reg.redirects[sid].target, s.reg.owners[sid]))
            && (forall h, req, sid :: h in s.handlers && InsideApp(s.handlers[h], req, sid) && s.reg.Live(sid) ==>
                  s.reg.sessions[sid].owner == req)
  {
    RunKeepsBound(c, START, evs);
    var s := After(c, START, evs);
    forall h | h in s.handlers
      ensures HandlerOk(s.reg, s.handlers[h])
    {
    }
  }

  /** Following redirects from `sid`, `n` times. */
  ghost predicate Leads(r: Registry, sid: Sid, n: nat, to: Sid)
    decreases n
  {
    if n == 0 then sid == to
    else sid in r.redirects && Leads(r, r.redirects[sid].target, n - 1, to)
  }

  lemma {:induction false} LeadsLater(r: Registry, sid: Sid, n: nat, to: Sid)
    requires Tables(r) && n > 0 && Leads(r, sid, n, to)
    ensures Joins(r, sid, to)
    decreases n
  {
    assert Joins(r, sid, r.redirects[sid].target);
    if n > 1 {
      LeadsLater(r, r.redirects[sid].target, n - 1, to);
    }
  }

  /** In every run redirects are acyclic, and a whole chain of them stays with one owner. */
  lemma RedirectsAcyclic(c: Config, evs: seq<Event>, sid: Sid, n: nat, to: Sid)
    requires Possible(c, START, evs) && n > 0 && Leads(After(c, START, evs).reg, sid, n, to)
    ensures to != sid
    ensures exists owner ::
              OwnedBy(After(c, START, evs).reg, sid, owner) && OwnedBy(After(c, START, evs).reg, to, owner)
  {
    RunKeepsBound(c, START, evs);
    LeadsLater(After(c, START, evs).reg, sid, n, to);
    assert OwnedBy(After(c, START, evs).reg, sid, After(c, START, evs).reg.owners[sid]);
  }

  lemma StepKeepsDead(c: Config, s: State, ev: Event, sid: Sid)
    requires Bound(s) && Enabled(s, ev) && sid in s.reg.owners && !s.reg.Live(sid)
    ensures sid in Next(c, s, ev).reg.owners && !Next(c, s, ev).reg.Live(sid)
  {
    if ev.Move? {
      OperateOk(c, s.reg, s.handlers[ev.h], ev.choice);
    }
  }

  /** A session that has died, by expiry, DELETE or migration, never comes back: no run revives
      it. */
  lemma {:induction false} DeadStaysDead(c: Config, s: State, evs: seq<Event>, sid: Sid)
    requires Bound(s) && Possible(c, s, evs) && sid in s.reg.owners && !s.reg.Live(sid)
    ensures !After(c, s, evs).reg.Live(sid)
    decreases |evs|
  {
    if evs != [] {
      NextKeepsBound(c, s, evs[0]);
      StepKeepsDead(c, s, evs[0], sid);
      DeadStaysDead(c, Next(c, s, evs[0]), evs[1..], sid);
    }
  }

  // ---------------------------------------------------------------- what ends a session

  /** The event ends live session `sid`: time runs out, its owner's re-initialisation replaces it,
      or somebody's DELETE names it. */
  predicate Ends(s: State, ev: Event, sid: Sid)
    requires s.reg.Live(sid)
  {
    || (ev.Tick? && s.reg.sessions[sid].expires <= ev.to)
    || (ev.Move? && ev.h in s.handlers
        && (s.handlers[ev.h].Linked? || s.handlers[ev.h].Terminate?) && s.handlers[ev.h].sid == sid)
  }

  lemma OperateEnds(c: Config, r: Registry, p: Handler, choice: Choice, sid: Sid)
    requires c.ttl > 0.0 && Tables(r) && HandlerOk(r, p) && (Registers(p, choice) ==> choice.newSid !in r.owners)
    requires r.Live(sid)
    ensures Operate(c, r, p, choice).Live(sid) <==> !((p.Linked? || p.Terminate?) && p.sid == sid)
  {
  }

  /** In every interleaving a live session ends exactly by the clock, by a re-initialisation of
      its own owner, or by a DELETE that names it, whoever sent that. */
  lemma EndsIff(c: Config, s: State, ev: Event, sid: Sid)
    requires c.ttl > 0.0 && Bound(s) && Enabled(s, ev) && s.reg.Live(sid)
    ensures !Next(c, s, ev).reg.Live(sid) <==> Ends(s, ev, sid)
    ensures ev.Move? && s.handlers[ev.h].Linked? && s.handlers[ev.h].sid == sid ==>
              s.handlers[ev.h].req == s.reg.sessions[sid].owner
  {
    if ev.Move? {
      assert HandlerOk(s.reg, s.handlers[ev.h]);
      OperateEnds(c, s.reg, s.handlers[ev.h], ev.choice, sid);
    }
  }

  // ---------------------------------------------------------------- the session cap

  predicate IsInit(p: Handler, o: Owner) {
    p == InitCheck(o) || p == InitAdmitted(o)
  }

  /** A re-initialisation that has registered the new session but not yet ended the old one. */
  predicate IsHalfDone(p: Handler, o: Owner) {
    (p.Registered? || p.Linked?) && p.req == o
  }

  /** The initialise handlers of an owner still running. */
  ghost function Inits(s: State, o: Owner): set<nat> {
    set h | h in s.handlers && IsInit(s.handlers[h], o)
  }

  /** Those past the limit check whose session is not registered yet. */
  ghost function Admitted(s: State, o: Owner): set<nat> {
    set h | h in s.handlers && s.handlers[h] == InitAdmitted(o)
  }

  ghost function HalfDone(s: State, o: Owner): set<nat> {
    set h | h in s.handlers && IsHalfDone(s.handlers[h], o)
  }

  /** Active sessions plus admitted-but-unregistered ones. */
  ghost function Load(s: State, o: Owner): nat {
    |s.reg.Active(o)| + |Admitted(s, o)|
  }

  ghost predicate Capped(c: Config, s: State, o: Owner, k: nat) {
    Load(s, o) <= c.maxSessions + k - 1 + |HalfDone(s, o)| + s.reg.orphans[o]
  }

  lemma RegisterActive(r: Registry, sid: Sid, owner: Owner, ttl: real, o: Owner)
    requires sid !in r.sessions
    ensures |r.Register(sid, owner, ttl).Active(o)| == |r.Active(o)| + if owner == o && ttl > 0.0 then 1 else 0
  {
    var before, after := r.Active(o), r.Register(sid, owner, ttl).Active(o);
    assert sid !in before;
    if owner == o && ttl > 0.0 {
      assert after == before + {sid};
    } else {
      assert after == before;
    }
  }

  lemma InvalidateActive(r: Registry, sid: Sid, o: Owner)
    ensures |r.Invalidate(sid).Active(o)| == |r.Active(o)| - if r.Live(sid) && r.sessions[sid].owner == o then 1 else 0
  {
    assert r.Invalidate(sid).Active(o) == r.Active(o) - {sid};
  }

  lemma TouchActive(r: Registry, sid: Sid, ttl: real, o: Owner)
    ensures |r.Touch(sid, ttl).Active(o)| <= |r.Active(o)|
  {
    SubsetCount(r.Touch(sid, ttl).Active(o), r.Active(o));
  }

  /** What an operation may do to the number of live sessions: a registration adds one, and
      ending the old session of a re-initialisation removes one or is noted as an orphan. */
  ghost predicate ActiveChange(r: Registry, r': Registry, p: Handler, choice: Choice, o: Owner) {
    && |r'.Active(o)| <= |r.Active(o)| + (if Registers(p, choice) && p.req == o then 1 else 0)
    && (p.Linked? && p.req == o ==> |r'.Active(o)| + 1 + r.orphans[o] <= |r.Active(o)| + r'.orphans[o])
    && r.orphans[o] <= r'.orphans[o]
  }

  lemma LinkedActive(r: Registry, p: Handler, choice: Choice, o: Owner)
    requires p.Linked? && Tables(r) && OwnedBy(r, p.sid, p.req)
    ensures ActiveChange(r, r.Invalidate(p.sid).NoteOrphan(p.req, !r.Live(p.sid)), p, choice, o)
  {
    InvalidateActive(r, p.sid, o);
  }

  lemma OperateActive(c: Config, r: Registry, p: Handler, choice: Choice, o: Owner)
    requires Tables(r) && HandlerOk(r, p) && (Registers(p, choice) ==> choice.newSid !in r.owners)
    ensures ActiveChange(r, Operate(c, r, p, choice), p, choice, o)
  {
    match p {
      case InitAdmitted(req) => if choice.accepted { RegisterActive(r, choice.newSid, req, c.ttl, o); }
      case Reinit(req, _) => if choice.accepted { RegisterActive(r, choice.newSid, req, c.ttl, o); }
      case PassTracked(_, sid) => TouchActive(r, sid, c.ttl, o);
      case Linked(_, _, _) => LinkedActive(r, p, choice, o);
      case Terminate(_, sid) => InvalidateActive(r, sid, o);
      case _ =>
    }
  }

  /** What moving handler `h` to `q` does to the number of handlers satisfying a predicate. */
  lemma MoveCount(before: set<nat>, after: set<nat>, h: nat, isIn: bool, willBeIn: bool)
    requires isIn <==> h in before
    requires willBeIn <==> h in after
    requires before - {h} == after - {h}
    ensures |after| == |before| - (if isIn then 1 else 0) + (if willBeIn then 1 else 0)
  {
    assert |before - {h}| == |before| - if isIn then 1 else 0;
    assert |after - {h}| == |after| - if willBeIn then 1 else 0;
  }

  /** What one move does to the two counted sets of handlers. */
  lemma MoveCounts(c: Config, s: State, h: nat, choice: Choice, o: Owner)
    requires Enabled(s, Move(h, choice))
    ensures var s' := Next(c, s, Move(h, choice));
            var p, q := s.handlers[h], s'.handlers[h];
            && |Admitted(s', o)| == |Admitted(s, o)| - (if p == InitAdmitted(o) then 1 else 0)
                                    + (if q == InitAdmitted(o) then 1 else 0)
            && |HalfDone(s', o)| == |HalfDone(s, o)| - (if IsHalfDone(p, o) then 1 else 0)
                                    + (if IsHalfDone(q, o) then 1 else 0)
  {
    var s' := Next(c, s, Move(h, choice));
    var p, q := s.handlers[h], s'.handlers[h];
    assert s'.handlers == s.handlers[h := q];
    MoveCount(Admitted(s, o), Admitted(s', o), h, p == InitAdmitted(o), q == InitAdmitted(o));
    MoveCount(HalfDone(s, o), HalfDone(s', o), h, IsHalfDone(p, o), IsHalfDone(q, o));
  }

  lemma AdmittedAreInits(s: State, o: Owner)
    ensures |Admitted(s, o)| <= |Inits(s, o)|
  {
    SubsetCount(Admitted(s, o), Inits(s, o));
  }

  lemma MoveKeepsCap(c: Config, s: State, h: nat, choice: Choice, o: Owner, k: nat)
    requires Bound(s) && Enabled(s, Move(h, choice)) && Capped(c, s, o, k)
    requires |Inits(Next(c, s, Move(h, choice)), o)| <= k
    ensures Capped(c, Next(c, s, Move(h, choice)), o, k)
  {
    var p := s.handlers[h];
    assert HandlerOk(s.reg, p);
    OperateActive(c, s.reg, p, choice, o);
    MoveCounts(c, s, h, choice, o);
    AdmittedAreInits(Next(c, s, Move(h, choice)), o);
  }

  lemma QuietKeepsCap(c: Config, s: State, ev: Event, o: Owner, k: nat)
    requires Enabled(s, ev) && !ev.Move? && Capped(c, s, o, k)
    ensures Capped(c, Next(c, s, ev), o, k)
  {
    var s' := Next(c, s, ev);
    SubsetCount(s'.reg.Active(o), s.reg.Active(o));
    assert Admitted(s', o) == Admitted(s, o);
    assert HalfDone(s', o) == HalfDone(s, o);
  }

  /** At most `k` initialise handlers of the owner overlap at any moment of the run. */
  ghost predicate FewInits(c: Config, s: State, evs: seq<Event>, o: Owner, k: nat)
    requires Possible(c, s, evs)
    decreases |evs|
  {
    |Inits(s, o)| <= k && (evs != [] ==> FewInits(c, Next(c, s, evs[0]), evs[1..], o, k))
  }

  lemma {:induction false} RunKeepsCap(c: Config, s: State, evs: seq<Event>, o: Owner, k: nat)
    requires Bound(s) && Possible(c, s, evs) && FewInits(c, s, evs, o, k) && Capped(c, s, o, k)
    ensures Capped(c, After(c, s, evs), o, k)
    decreases |evs|
  {
    if evs != [] {
      NextKeepsBound(c, s, evs[0]);
      if evs[0].Move? {
        MoveKeepsCap(c, s, evs[0].h, evs[0].choice, o, k);
      } else {
        QuietKeepsCap(c, s, evs[0], o, k);
      }
      RunKeepsCap(c, Next(c, s, evs[0]), evs[1..], o, k);
    }
  }

  /** With at most `k` overlapping initialises, an owner's active and admitted sessions exceed
      `maxSessions + k - 1` only by half-done re-initialisations and by completed ones whose old
      session had already died. */
  lemma SessionCap(c: Config, evs: seq<Event>, o: Owner, k: nat)
    requires k >= 1 && Possible(c, START, evs) && FewInits(c, START, evs, o, k)
    ensures var s := After(c, START, evs);
            && Load(s, o) <= c.maxSessions + k - 1 + |HalfDone(s, o)| + s.reg.orphans[o]
            && (HalfDone(s, o) == {} && o !in s.reg.orphans ==> Load(s, o) <= c.maxSessions + k - 1)
  {
    assert START.reg.Active(o) == {} && Admitted(START, o) == {};
    RunKeepsCap(c, START, evs, o, k);
  }

  /** Whenever a re-initialisation ends the owner's old session, that session is still live. */
  ghost predicate OldSessionsLive(c: Config, s: State, evs: seq<Event>, o: Owner)
    requires Possible(c, s, evs)
    decreases |evs|
  {
    evs != [] ==>
      && (evs[0].Move? && s.handlers[evs[0].h].Linked? && s.handlers[evs[0].h].req == o ==>
            s.reg.Live(s.handlers[evs[0].h].sid))
      && OldSessionsLive(c, Next(c, s, evs[0]), evs[1..], o)
  }

  lemma {:induction false} NoOrphans(c: Config, s: State, evs: seq<Event>, o: Owner)
    requires Possible(c, s, evs) && OldSessionsLive(c, s, evs, o) && o !in s.reg.orphans
    ensures o !in After(c, s, evs).reg.orphans
    decreases |evs|
  {
    if evs != [] {
      NoOrphans(c, Next(c, s, evs[0]), evs[1..], o);
    }
  }

  /** The cap with its race bound: if every re-initialisation finds its old session still live,
      then whenever none is half done the load is at most `maxSessions + k - 1`. */
  lemma SessionCapHolds(c: Config, evs: seq<Event>, o: Owner, k: nat)
    requires k >= 1 && Possible(c, START, evs) && FewInits(c, START, evs, o, k)
    requires OldSessionsLive(c, START, evs, o) && HalfDone(After(c, START, evs), o) == {}
    ensures Load(After(c, START, evs), o) <= c.maxSessions + k - 1
  {
    NoOrphans(c, START, evs, o);
    SessionCap(c, evs, o, k);
  }

  /** In every interleaving the three steps of a re-initialisation add one session, change
      nothing, and end one exactly if the old session is still live at that moment. */
  lemma ReinitStepCounts(c: Config, r: Registry, p: Handler, choice: Choice)
    requires c.ttl > 0.0 && Tables(r) && HandlerOk(r, p) && (Registers(p, choice) ==> choice.newSid !in r.owners)
    ensures p.Reinit? && choice.accepted ==> |Operate(c, r, p, choice).Active(p.req)| == |r.Active(p.req)| + 1
    ensures p.Registered? ==> |Operate(c, r, p, choice).Active(p.req)| == |r.Active(p.req)|
    ensures p.Linked? ==>
              |Operate(c, r, p, choice).Active(p.req)| == |r.Active(p.req)| - if r.Live(p.sid) then 1 else 0
  {
    match p {
      case Reinit(req, _) =>
        if choice.accepted {
          RegisterActive(r, choice.newSid, req, c.ttl, req);
        }
      case Registered(req, sid, newSid) =>
        assert r.AddRedirect(sid, newSid, c.grace).Active(req) == r.Active(req);
      case Linked(req, sid, _) =>
        EndActive(r, sid, req);
      case _ =>
    }
  }

  lemma EndActive(r: Registry, sid: Sid, req: Owner)
    requires Tables(r) && OwnedBy(r, sid, req)
    ensures |r.Invalidate(sid).NoteOrphan(req, !r.Live(sid)).Active(req)|
            == |r.Active(req)| - if r.Live(sid) then 1 else 0
  {
    InvalidateActive(r, sid, req);
    assert r.Invalidate(sid).NoteOrphan(req, !r.Live(sid)).Active(req) == r.Invalidate(sid).Active(req);
  }

  /** The registry after the three operations of a re-initialisation, nothing in between. */
  function Reinitialized(c: Config, r: Registry, req: Owner, sid: Sid, newSid: Sid): Registry {
    var choice := Choice(true, false, newSid);
    var r1 := Operate(c, r, Reinit(req, sid), choice);
    var r2 := Operate(c, r1, Registered(req, sid, newSid), choice);
    Operate(c, r2, Linked(req, sid, newSid), choice)
  }

  /** A completed re-initialisation leaves the active count unchanged exactly when the old
      session is still live; otherwise it adds one. */
  lemma ReinitCount(c: Config, r: Registry, req: Owner, sid: Sid, newSid: Sid)
    requires c.ttl > 0.0 && Tables(r) && OwnedBy(r, sid, req) && newSid !in r.owners
    ensures |Reinitialized(c, r, req, sid, newSid).Active(req)| == |r.Active(req)| + if r.Live(sid) then 0 else 1
  {
    var r1 := r.Register(newSid, req, c.ttl);
    var r2 := r1.AddRedirect(sid, newSid, c.grace);
    RegisterActive(r, newSid, req, c.ttl, req);
    assert r2.Active(req) == r1.Active(req);
    InvalidateActive(r2, sid, req);
    assert Reinitialized(c, r, req, sid, newSid).Active(req) == r2.Invalidate(sid).Active(req);
  }
}
