/**
 How tight the bound on an owner's sessions is: runs of the session protocol in which every term
 of the bound is attained, so that none can be dropped.
 */
module SessionCapRuns {
  import opened Counting
  import opened SessionProtocol

  lemma {:induction false} OneMoreEvent(c: Config, s: State, evs: seq<Event>, ev: Event, o: Owner, k: nat)
    requires Possible(c, s, evs) && FewInits(c, s, evs, o, k) && Enabled(After(c, s, evs), ev)
    requires |Inits(Next(c, After(c, s, evs), ev), o)| <= k
    ensures Possible(c, s, evs + [ev]) && FewInits(c, s, evs + [ev], o, k)
    ensures After(c, s, evs + [ev]) == Next(c, After(c, s, evs), ev)
    decreases |evs|
  {
    if evs == [] {
      assert [ev][1..] == [];
      assert evs + [ev] == [ev];
    } else {
      OneMoreEvent(c, Next(c, s, evs[0]), evs[1..], ev, o, k);
      assert (evs + [ev])[1..] == evs[1..] + [ev];
    }
  }

  /** Some run ends in `s` and never has more than `k` initialises of `me` at once. */
  ghost predicate Reaches(c: Config, me: Owner, k: nat, s: State) {
    exists evs :: Possible(c, START, evs) && FewInits(c, START, evs, me, k) && After(c, START, evs) == s
  }

  lemma Extend(c: Config, s: State, ev: Event, me: Owner, k: nat) returns (s': State)
    requires Reaches(c, me, k, s) && Enabled(s, ev)
    requires |Inits(Next(c, s, ev), me)| <= k
    ensures s' == Next(c, s, ev) && Reaches(c, me, k, s')
  {
    s' := Next(c, s, ev);
    var evs :| Possible(c, START, evs) && FewInits(c, START, evs, me, k) && After(c, START, evs) == s;
    OneMoreEvent(c, START, evs, ev, me, k);
  }

  lemma ReachedBound(c: Config, me: Owner, k: nat, s: State)
    requires Reaches(c, me, k, s)
    ensures Bound(s)
  {
    var evs :| Possible(c, START, evs) && FewInits(c, START, evs, me, k) && After(c, START, evs) == s;
    RunKeepsBound(c, START, evs);
  }

  // ---------------------------------------------------------------- fresh names

  function SidsOf(p: Handler): set<Sid> {
    if p.InitCheck? || p.InitAdmitted? || p.Done? then {}
    else {p.sid} + if p.Registered? || p.Linked? then {p.newSid} else {}
  }

  lemma SidsAreMentioned(p: Handler, sid: Sid)
    ensures Mentions(p, sid) <==> sid in SidsOf(p)
  {
  }

  lemma FreshSid(s: State) returns (sid: Sid)
    ensures Fresh(s, sid)
  {
    var used := s.reg.owners.Keys + set h, x | h in s.handlers && x in SidsOf(s.handlers[h]) :: x;
    var lengths: set<nat> := set x | x in used :: |x.text|;
    var n := NatOutside(lengths);
    sid := Sid(seq(n, _ => 'x'));
    assert forall x :: x in used ==> |x.text| in lengths;
    forall h | h in s.handlers
      ensures !Mentions(s.handlers[h], sid)
    {
      assert SidsOf(s.handlers[h]) <= used;
      SidsAreMentioned(s.handlers[h], sid);
    }
  }

  lemma FreshHandler(s: State) returns (h: nat)
    ensures h !in s.handlers
  {
    h := NatOutside(s.handlers.Keys);
  }

  // ---------------------------------------------------------------- counting handlers

  /** A pending re-initialisation whose old session has died. */
  predicate IsPending(r: Registry, p: Handler, me: Owner) {
    p.Reinit? && p.req == me && !r.Live(p.sid)
  }

  ghost function Pending(s: State, me: Owner): set<nat> {
    set h | h in s.handlers && IsPending(s.reg, s.handlers[h], me)
  }

  datatype Tally = Tally(inits: nat, admitted: nat, pending: nat, half: nat)

  ghost function TallyOf(s: State, me: Owner): Tally {
    Tally(|Inits(s, me)|, |Admitted(s, me)|, |Pending(s, me)|, |HalfDone(s, me)|)
  }

  function One(b: bool): int {
    if b then 1 else 0
  }

  /** What giving handler `h` the position `q` does to the counts, in a registry in which the
      pending ones are the same. */
  lemma MovedTally(s: State, reg: Registry, h: nat, q: Handler, me: Owner)
    requires forall x :: x in s.handlers && x != h ==>
               (IsPending(reg, s.handlers[x], me) <==> IsPending(s.reg, s.handlers[x], me))
    ensures var s' := State(reg, s.handlers[h := q]);
            var p := if h in s.handlers then s.handlers[h] else Done;
            && |Inits(s', me)| == |Inits(s, me)| - One(IsInit(p, me)) + One(IsInit(q, me))
            && |Admitted(s', me)| == |Admitted(s, me)| - One(p == InitAdmitted(me)) + One(q == InitAdmitted(me))
            && |Pending(s', me)| == |Pending(s, me)| - One(IsPending(s.reg, p, me)) + One(IsPending(reg, q, me))
            && |HalfDone(s', me)| == |HalfDone(s, me)| - One(IsHalfDone(p, me)) + One(IsHalfDone(q, me))
  {
    var s' := State(reg, s.handlers[h := q]);
    var p := if h in s.handlers then s.handlers[h] else Done;
    MoveCount(Inits(s, me), Inits(s', me), h, IsInit(p, me), IsInit(q, me));
    MoveCount(Admitted(s, me), Admitted(s', me), h, p == InitAdmitted(me), q == InitAdmitted(me));
    MoveCount(Pending(s, me), Pending(s', me), h, IsPending(s.reg, p, me), IsPending(reg, q, me));
    MoveCount(HalfDone(s, me), HalfDone(s', me), h, IsHalfDone(p, me), IsHalfDone(q, me));
  }

  /** A reachable state with these counts. */
  ghost predicate At(c: Config, me: Owner, k: nat, s: State, active: nat, t: Tally, orphans: nat) {
    && Reaches(c, me, k, s) && TallyOf(s, me) == t
    && |s.reg.Active(me)| == active && s.reg.orphans[me] == orphans
  }

  // ---------------------------------------------------------------- the moves of the runs

  /** One more initialise passes the limit check. */
  lemma Admit(c: Config, me: Owner, k: nat, s: State, active: nat, t: Tally, orphans: nat) returns (s': State, h: nat)
    requires At(c, me, k, s, active, t, orphans) && active < c.maxSessions && t.inits < k
    ensures At(c, me, k, s', active, t.(inits := t.inits + 1, admitted := t.admitted + 1), orphans)
    ensures h !in s.handlers && s' == State(s.reg, s.handlers[h := InitAdmitted(me)])
  {
    h := FreshHandler(s);
    MovedTally(s, s.reg, h, InitCheck(me), me);
    s' := Extend(c, s, Arrive(h, InitCheck(me)), me, k);
    MovedTally(s', s'.reg, h, InitAdmitted(me), me);
    var checked := s';
    s' := Extend(c, s', Move(h, Choice(true, false, Sid(""))), me, k);
    assert checked.handlers[h := InitAdmitted(me)] == s.handlers[h := InitAdmitted(me)];
  }

  /** Registering a fresh id leaves every handler's old session as dead or alive as it was. */
  lemma FreshKeepsPending(c: Config, s: State, sid: Sid, me: Owner)
    requires Fresh(s, sid)
    ensures forall x :: x in s.handlers ==>
              (IsPending(s.reg.Register(sid, me, c.ttl), s.handlers[x], me) <==> IsPending(s.reg, s.handlers[x], me))
  {
    forall x | x in s.handlers && s.handlers[x].Reinit?
      ensures s.handlers[x].sid != sid
    {
      assert !Mentions(s.handlers[x], sid);
    }
  }

  /** Giving handler `h` position `q` while a fresh id is registered. */
  lemma RegisteredTally(c: Config, s: State, h: nat, q: Handler, sid: Sid, me: Owner)
    requires c.ttl > 0.0 && Bound(s) && Fresh(s, sid) && h in s.handlers
    ensures var p, reg := s.handlers[h], s.reg.Register(sid, me, c.ttl);
            var s' := State(reg, s.handlers[h := q]);
            && |reg.Active(me)| == |s.reg.Active(me)| + 1
            && |Inits(s', me)| == |Inits(s, me)| - One(IsInit(p, me)) + One(IsInit(q, me))
            && |Admitted(s', me)| == |Admitted(s, me)| - One(p == InitAdmitted(me)) + One(q == InitAdmitted(me))
            && |Pending(s', me)| == |Pending(s, me)| - One(IsPending(s.reg, p, me)) + One(IsPending(reg, q, me))
            && |HalfDone(s', me)| == |HalfDone(s, me)| - One(IsHalfDone(p, me)) + One(IsHalfDone(q, me))
  {
    assert sid !in s.reg.sessions;
    FreshKeepsPending(c, s, sid, me);
    RegisterActive(s.reg, sid, me, c.ttl, me);
    MovedTally(s, s.reg.Register(sid, me, c.ttl), h, q, me);
  }

  /** An admitted initialise registers its session. */
  lemma Register(c: Config, me: Owner, k: nat, s: State, h: nat, active: nat, t: Tally, orphans: nat)
    returns (s': State, sid: Sid)
    requires c.ttl > 0.0 && At(c, me, k, s, active, t, orphans) && h in s.handlers && s.handlers[h] == InitAdmitted(me)
    requires t.admitted >= 1 && 1 <= t.inits <= k
    ensures Fresh(s, sid) && s' == State(s.reg.Register(sid, me, c.ttl), s.handlers[h := Done])
    ensures At(c, me, k, s', active + 1, t.(inits := t.inits - 1, admitted := t.admitted - 1), orphans)
  {
    sid := FreshSid(s);
    ReachedBound(c, me, k, s);
    RegisteredTally(c, s, h, Done, sid, me);
    s' := Extend(c, s, Move(h, Choice(true, false, sid)), me, k);
  }

  /** A pending re-initialisation registers the replacement and is half done. */
  lemma HalfReinit(c: Config, me: Owner, k: nat, s: State, active: nat, t: Tally, orphans: nat)
    returns (s': State, h: nat)
    requires c.ttl > 0.0 && At(c, me, k, s, active, t, orphans) && t.pending > 0 && t.inits <= k
    ensures At(c, me, k, s', active + 1, t.(pending := t.pending - 1, half := t.half + 1), orphans)
    ensures h in s'.handlers && s'.handlers[h].Registered? && s'.handlers[h].req == me
    ensures !s'.reg.Live(s'.handlers[h].sid)
  {
    h :| h in Pending(s, me);
    var died := s.handlers[h].sid;
    var sid := FreshSid(s);
    ReachedBound(c, me, k, s);
    assert !Mentions(s.handlers[h], sid);
    RegisteredTally(c, s, h, Registered(me, died, sid), sid, me);
    s' := Extend(c, s, Move(h, Choice(true, false, sid)), me, k);
  }

  /** The redirect is stored. */
  lemma LinkReinit(c: Config, me: Owner, k: nat, s: State, h: nat, active: nat, t: Tally, orphans: nat)
    returns (s': State)
    requires At(c, me, k, s, active, t, orphans) && t.inits <= k
    requires h in s.handlers && s.handlers[h].Registered? && s.handlers[h].req == me && !s.reg.Live(s.handlers[h].sid)
    ensures At(c, me, k, s', active, t, orphans)
    ensures h in s'.handlers && s'.handlers[h] == Linked(me, s.handlers[h].sid, s.handlers[h].newSid)
    ensures !s'.reg.Live(s.handlers[h].sid)
  {
    var p := s.handlers[h];
    var reg := s.reg.AddRedirect(p.sid, p.newSid, c.grace);
    MovedTally(s, reg, h, Linked(me, p.sid, p.newSid), me);
    s' := Extend(c, s, Move(h, Choice(true, false, Sid(""))), me, k);
    assert reg.Active(me) == s.reg.Active(me);
  }

  /** Invalidating a dead session changes no session's life, and leaves an orphan. */
  lemma OrphanActive(r: Registry, sid: Sid, me: Owner)
    requires !r.Live(sid)
    ensures var after := r.Invalidate(sid).NoteOrphan(me, true);
            && (forall x :: after.Live(x) <==> r.Live(x))
            && after.Active(me) == r.Active(me) && after.orphans[me] == r.orphans[me] + 1
  {
    var after := r.Invalidate(sid).NoteOrphan(me, true);
    assert forall x :: after.Live(x) <==> r.Live(x);
    assert after.Active(me) == r.Active(me);
  }

  /** The dead old session is invalidated, and the replacement is one session too many. */
  lemma EndReinit(c: Config, me: Owner, k: nat, s: State, h: nat, active: nat, t: Tally, orphans: nat)
    returns (s': State)
    requires At(c, me, k, s, active, t, orphans) && t.inits <= k && t.half >= 1
    requires h in s.handlers && s.handlers[h].Linked? && s.handlers[h].req == me && !s.reg.Live(s.handlers[h].sid)
    ensures At(c, me, k, s', active, t.(half := t.half - 1), orphans + 1)
  {
    var p := s.handlers[h];
    var after := s.reg.Invalidate(p.sid).NoteOrphan(me, true);
    OrphanActive(s.reg, p.sid, me);
    MovedTally(s, after, h, Replay(me, p.newSid), me);
    s' := Extend(c, s, Move(h, Choice(true, false, Sid(""))), me, k);
  }

  // ---------------------------------------------------------------- making a pending re-initialisation

  /** Neither an initialise nor a re-initialisation that counts. */
  predicate Quiet(r: Registry, p: Handler, me: Owner) {
    !IsInit(p, me) && !IsHalfDone(p, me) && !IsPending(r, p, me)
  }

  /** A handler arrives, or moves without touching the registry. */
  lemma QuietStep(c: Config, me: Owner, k: nat, s: State, ev: Event, h: nat, q: Handler,
                  active: nat, t: Tally, orphans: nat) returns (s': State)
    requires At(c, me, k, s, active, t, orphans) && t.inits <= k && Enabled(s, ev)
    requires Next(c, s, ev) == State(s.reg, s.handlers[h := q])
    requires (h in s.handlers ==> Quiet(s.reg, s.handlers[h], me)) && Quiet(s.reg, q, me)
    ensures At(c, me, k, s', active, t, orphans) && s' == State(s.reg, s.handlers[h := q])
  {
    MovedTally(s, s.reg, h, q, me);
    s' := Extend(c, s, ev, me, k);
  }

  /** A request under a live session of its owner reaches the inner app. */
  lemma ReachApp(c: Config, me: Owner, k: nat, s: State, sid: Sid, active: nat, t: Tally, orphans: nat)
    returns (s': State, h: nat)
    requires At(c, me, k, s, active, t, orphans) && t.inits <= k && s.reg.Live(sid) && s.reg.sessions[sid].owner == me
    ensures At(c, me, k, s', active, t, orphans)
    ensures h !in s.handlers && s' == State(s.reg, s.handlers[h := PassTracked(me, sid)])
  {
    h := FreshHandler(s);
    var any := Choice(false, false, Sid(""));
    s' := QuietStep(c, me, k, s, Arrive(h, Lookup(me, sid)), h, Lookup(me, sid), active, t, orphans);
    assert s'.handlers[h := Found(me, sid, me)] == s.handlers[h := Found(me, sid, me)];
    s' := QuietStep(c, me, k, s', Move(h, any), h, Found(me, sid, me), active, t, orphans);
    assert s'.handlers[h := PassTracked(me, sid)] == s.handlers[h := PassTracked(me, sid)];
    s' := QuietStep(c, me, k, s', Move(h, any), h, PassTracked(me, sid), active, t, orphans);
  }

  /** And is rejected there. */
  lemma RejectRequest(c: Config, me: Owner, k: nat, s: State, sid: Sid, active: nat, t: Tally, orphans: nat)
    returns (s': State, h: nat)
    requires At(c, me, k, s, active, t, orphans) && t.inits <= k && s.reg.Live(sid) && s.reg.sessions[sid].owner == me
    ensures At(c, me, k, s', active, t, orphans)
    ensures h !in s.handlers && s' == State(s.reg, s.handlers[h := Reinit(me, sid)])
  {
    var s1;
    s1, h := ReachApp(c, me, k, s, sid, active, t, orphans);
    assert s1.handlers[h := Reinit(me, sid)] == s.handlers[h := Reinit(me, sid)];
    s' := QuietStep(c, me, k, s1, Move(h, Choice(false, false, Sid(""))), h, Reinit(me, sid), active, t, orphans);
  }

  /** Ending a live session that no other re-initialisation is about makes one pending. */
  lemma EndSession(c: Config, me: Owner, k: nat, s: State, h: nat, sid: Sid, active: nat, t: Tally, orphans: nat)
    returns (s': State)
    requires At(c, me, k, s, active, t, orphans) && t.inits <= k && s.reg.Live(sid) && s.reg.sessions[sid].owner == me
    requires h in s.handlers && s.handlers[h] == Reinit(me, sid)
    requires forall x :: x in s.handlers && x != h ==> !Mentions(s.handlers[x], sid)
    ensures active >= 1 && At(c, me, k, s', active - 1, t.(pending := t.pending + 1), orphans)
  {
    var d := FreshHandler(s);
    var s1 := QuietStep(c, me, k, s, Arrive(d, Terminate(me, sid)), d, Terminate(me, sid), active, t, orphans);
    s' := Invalidated(c, me, k, s1, h, d, sid, active, t, orphans);
  }

  lemma Invalidated(c: Config, me: Owner, k: nat, s: State, h: nat, d: nat, sid: Sid,
                    active: nat, t: Tally, orphans: nat) returns (s': State)
    requires At(c, me, k, s, active, t, orphans) && t.inits <= k && s.reg.Live(sid) && s.reg.sessions[sid].owner == me
    requires h in s.handlers && s.handlers[h] == Reinit(me, sid)
    requires d in s.handlers && s.handlers[d] == Terminate(me, sid)
    requires forall x :: x in s.handlers && x != h && x != d ==> !Mentions(s.handlers[x], sid)
    ensures active >= 1 && At(c, me, k, s', active - 1, t.(pending := t.pending + 1), orphans)
  {
    var ended := State(s.reg.Invalidate(sid), s.handlers[d := Terminated(me, sid)]);
    InvalidateActive(s.reg, sid, me);
    assert sid in s.reg.Active(me);
    EndedPending(s, h, d, sid, me);
    EndedOthers(s, s.reg.Invalidate(sid), d, sid, me);
    s' := Extend(c, s, Move(d, Choice(true, false, Sid(""))), me, k);
    assert s' == ended;
  }

  /** Only the re-initialisations about the ended session become pending. */
  lemma EndedIsPending(r: Registry, sid: Sid, p: Handler, me: Owner)
    requires r.Live(sid)
    ensures !Mentions(p, sid) ==> (IsPending(r.Invalidate(sid), p, me) <==> IsPending(r, p, me))
    ensures p == Reinit(me, sid) ==> IsPending(r.Invalidate(sid), p, me) && !IsPending(r, p, me)
  {
  }

  lemma EndedPending(s: State, h: nat, d: nat, sid: Sid, me: Owner)
    requires s.reg.Live(sid) && h != d
    requires h in s.handlers && s.handlers[h] == Reinit(me, sid)
    requires d in s.handlers && s.handlers[d] == Terminate(me, sid)
    requires forall x :: x in s.handlers && x != h && x != d ==> !Mentions(s.handlers[x], sid)
    ensures |Pending(State(s.reg.Invalidate(sid), s.handlers[d := Terminated(me, sid)]), me)| == |Pending(s, me)| + 1
  {
    var s' := State(s.reg.Invalidate(sid), s.handlers[d := Terminated(me, sid)]);
    forall x | x in s.handlers
      ensures x in Pending(s', me) <==> x in Pending(s, me) || x == h
    {
      EndedIsPending(s.reg, sid, s.handlers[x], me);
    }
    EndedIsPending(s.reg, sid, s.handlers[h], me);
    assert Pending(s', me) == Pending(s, me) + {h};
  }

  lemma EndedOthers(s: State, reg: Registry, d: nat, sid: Sid, me: Owner)
    requires d in s.handlers && s.handlers[d] == Terminate(me, sid)
    ensures var s' := State(reg, s.handlers[d := Terminated(me, sid)]);
            Inits(s', me) == Inits(s, me) && Admitted(s', me) == Admitted(s, me) && HalfDone(s', me) == HalfDone(s, me)
  {
  }

  /** The whole of it: the owner is left with one more pending re-initialisation. */
  lemma MakePending(c: Config, me: Owner, k: nat, s: State, active: nat, t: Tally, orphans: nat) returns (s': State)
    requires c.ttl > 0.0 && k >= 1 && At(c, me, k, s, active, t, orphans) && active < c.maxSessions && t.inits == 0
    ensures At(c, me, k, s', active, t.(pending := t.pending + 1), orphans)
  {
    var s1, i := Admit(c, me, k, s, active, t, orphans);
    var one := t.(inits := t.inits + 1, admitted := t.admitted + 1);
    var s2, sid := Register(c, me, k, s1, i, active, one, orphans);
    var s3, h := RejectRequest(c, me, k, s2, sid, active + 1, t, orphans);
    forall x | x in s3.handlers && x != h
      ensures !Mentions(s3.handlers[x], sid)
    {
      if x != i {
        assert s1.handlers[x] == s3.handlers[x];
      }
    }
    s' := EndSession(c, me, k, s3, h, sid, active + 1, t, orphans);
  }

  // ---------------------------------------------------------------- the bound is attained

  const NONE := Tally(0, 0, 0, 0)

  lemma {:induction false} ManyPending(c: Config, me: Owner, k: nat, n: nat) returns (s: State)
    requires c.ttl > 0.0 && k >= 1 && c.maxSessions >= 1
    ensures At(c, me, k, s, 0, NONE.(pending := n), 0)
  {
    if n == 0 {
      s := START;
      assert Possible(c, START, []) && FewInits(c, START, [], me, k) by {
        assert Inits(START, me) == {};
      }
      assert START.reg.Active(me) == {} && Inits(START, me) == {} && Admitted(START, me) == {};
      assert Pending(START, me) == {} && HalfDone(START, me) == {};
    } else {
      s := ManyPending(c, me, k, n - 1);
      s := MakePending(c, me, k, s, 0, NONE.(pending := n - 1), 0);
    }
  }

  lemma {:induction false} ManySessions(c: Config, me: Owner, k: nat, n: nat, pending: nat) returns (s: State)
    requires c.ttl > 0.0 && k >= 1 && n < c.maxSessions
    ensures At(c, me, k, s, n, NONE.(pending := pending), 0)
  {
    if n == 0 {
      s := ManyPending(c, me, k, pending);
    } else {
      s := ManySessions(c, me, k, n - 1, pending);
      var h, sid;
      s, h := Admit(c, me, k, s, n - 1, NONE.(pending := pending), 0);
      s, sid := Register(c, me, k, s, h, n - 1, Tally(1, 1, pending, 0), 0);
    }
  }

  /** One place is left, and `n` overlapping initialises all see it free. */
  lemma {:induction false} ManyAdmitted(c: Config, me: Owner, k: nat, n: nat, pending: nat) returns (s: State)
    requires c.ttl > 0.0 && k >= 1 && n <= k && c.maxSessions >= 1
    ensures At(c, me, k, s, c.maxSessions - 1, Tally(n, n, pending, 0), 0)
  {
    if n == 0 {
      s := ManySessions(c, me, k, c.maxSessions - 1, pending);
    } else {
      s := ManyAdmitted(c, me, k, n - 1, pending);
      var h;
      s, h := Admit(c, me, k, s, c.maxSessions - 1, Tally(n - 1, n - 1, pending, 0), 0);
    }
  }

  lemma {:induction false} ManyOrphans(c: Config, me: Owner, k: nat, n: nat, pending: nat) returns (s: State)
    requires c.ttl > 0.0 && k >= 1 && c.maxSessions >= 1
    ensures At(c, me, k, s, c.maxSessions - 1 + n, Tally(k, k, pending, 0), n)
  {
    if n == 0 {
      s := ManyAdmitted(c, me, k, k, pending);
    } else {
      s := ManyOrphans(c, me, k, n - 1, pending + 1);
      var h, before := 0, c.maxSessions - 2 + n;
      s, h := HalfReinit(c, me, k, s, before, Tally(k, k, pending + 1, 0), n - 1);
      s := LinkReinit(c, me, k, s, h, before + 1, Tally(k, k, pending, 1), n - 1);
      s := EndReinit(c, me, k, s, h, before + 1, Tally(k, k, pending, 1), n - 1);
    }
  }

  lemma {:induction false} ManyHalfDone(c: Config, me: Owner, k: nat, n: nat, orphans: nat, pending: nat)
    returns (s: State)
    requires c.ttl > 0.0 && k >= 1 && c.maxSessions >= 1
    ensures At(c, me, k, s, c.maxSessions - 1 + orphans + n, Tally(k, k, pending, n), orphans)
  {
    if n == 0 {
      s := ManyOrphans(c, me, k, orphans, pending);
    } else {
      s := ManyHalfDone(c, me, k, n - 1, orphans, pending + 1);
      var h;
      s, h := HalfReinit(c, me, k, s, c.maxSessions - 2 + orphans + n, Tally(k, k, pending + 1, n - 1), orphans);
    }
  }

  /** For every number of overlapping initialises, half-done re-initialisations and dead old
      sessions, some run attains the bound of `SessionCap` exactly. */
  lemma SessionCapAttained(c: Config, me: Owner, k: nat, half: nat, orphans: nat) returns (evs: seq<Event>)
    requires c.ttl > 0.0 && k >= 1 && c.maxSessions >= 1
    ensures Possible(c, START, evs) && FewInits(c, START, evs, me, k)
    ensures var s := After(c, START, evs);
            && |HalfDone(s, me)| == half && s.reg.orphans[me] == orphans
            && Load(s, me) == c.maxSessions + k - 1 + half + orphans
  {
    var s := ManyHalfDone(c, me, k, half, orphans, 0);
    evs :| Possible(c, START, evs) && FewInits(c, START, evs, me, k) && After(c, START, evs) == s;
  }

  /** So with one initialise at a time an owner can end up with one session more than the cap. */
  lemma CapExceeded(c: Config, me: Owner)
    requires c.ttl > 0.0 && c.maxSessions >= 1
    ensures exists evs ::
              && Possible(c, START, evs) && FewInits(c, START, evs, me, 1)
              && HalfDone(After(c, START, evs), me) == {} && Load(After(c, START, evs), me) == c.maxSessions + 1
  {
    var evs := SessionCapAttained(c, me, 1, 0, 1);
  }

  /** Wherever the old session of a pending re-initialisation has died, completing it takes the
      owner one session further, whatever the cap says. */
  lemma OrphanedReinit(c: Config, me: Owner, k: nat, s: State) returns (s': State)
    requires c.ttl > 0.0 && Reaches(c, me, k, s) && |Inits(s, me)| <= k && Pending(s, me) != {}
    ensures Reaches(c, me, k, s') && Load(s', me) == Load(s, me) + 1
    ensures |HalfDone(s', me)| == |HalfDone(s, me)| && s'.reg.orphans[me] == s.reg.orphans[me] + 1
  {
    var t, active, orphans := TallyOf(s, me), |s.reg.Active(me)|, s.reg.orphans[me];
    var h;
    s', h := HalfReinit(c, me, k, s, active, t, orphans);
    var half := t.(pending := t.pending - 1, half := t.half + 1);
    s' := LinkReinit(c, me, k, s', h, active + 1, half, orphans);
    s' := EndReinit(c, me, k, s', h, active + 1, half, orphans);
  }

  lemma OneSession(c: Config, me: Owner) returns (s: State, sid: Sid)
    requires c.ttl > 0.0 && c.maxSessions >= 1
    ensures At(c, me, 1, s, 1, NONE, 0) && s.reg.Live(sid) && s.reg.sessions[sid].owner == me
  {
    var h;
    s := ManyPending(c, me, 1, 0);
    s, h := Admit(c, me, 1, s, 0, NONE, 0);
    s, sid := Register(c, me, 1, s, h, 0, Tally(1, 1, 0, 0), 0);
  }

  /** Anybody's DELETE of a live session can be about to reach the registry. */
  lemma PendingDelete(c: Config, me: Owner, other: Owner) returns (s: State, d: nat, sid: Sid)
    requires c.ttl > 0.0 && c.maxSessions >= 1
    ensures Reaches(c, me, 1, s) && s.reg.Live(sid) && s.reg.sessions[sid].owner == me
    ensures d in s.handlers && s.handlers[d] == Terminate(other, sid)
  {
    s, sid := OneSession(c, me);
    d := FreshHandler(s);
    s := QuietStep(c, me, 1, s, Arrive(d, Terminate(other, sid)), d, Terminate(other, sid), 1, NONE, 0);
  }

  /** A DELETE by another owner ends a live session: the failing case of the owner check. */
  lemma ForeignDelete(c: Config, me: Owner, other: Owner) returns (evs: seq<Event>, last: Event, sid: Sid)
    requires c.ttl > 0.0 && c.maxSessions >= 1 && other != me
    ensures Possible(c, START, evs) && Enabled(After(c, START, evs), last)
    ensures last.Move? && After(c, START, evs).handlers[last.h] == Terminate(other, sid)
    ensures var r := After(c, START, evs).reg; r.Live(sid) && r.sessions[sid].owner == me
    ensures !Next(c, After(c, START, evs), last).reg.Live(sid)
  {
    var s, d;
    s, d, sid := PendingDelete(c, me, other);
    last := Move(d, Choice(true, false, Sid("")));
    evs :| Possible(c, START, evs) && FewInits(c, START, evs, me, 1) && After(c, START, evs) == s;
  }
}
