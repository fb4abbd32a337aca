/**
 What a request through the session middleware does, stated outright: which answers of the
 inner application start a re-initialisation, when the request is replayed, and what the
 registry is afterwards; and that the handlers of the protocol, undisturbed, leave the registry
 that the middleware leaves.
 */
module RelayLaws {
  import opened Options
  import opened SessionProtocol
  import opened SessionRelay

  // ---------------------------------------------------------------- headers

  /** The first session header decides the id under which the inner application is called. */
  lemma {:induction false} FirstHeader(hs: seq<Header>, i: nat)
    requires i < |hs| ==> hs[i].name == "mcp-session-id"
    requires forall j :: 0 <= j < i && j < |hs| ==> hs[j].name != "mcp-session-id"
    ensures SessionIdOf(hs) == if i < |hs| then Some(Sid(hs[i].value)) else None
  {
    if i > 0 && hs != [] {
      FirstHeader(hs[1..], i - 1);
    }
  }

  /** The last session header decides the id that is looked up; an empty one counts as none. */
  lemma {:induction false} LastHeader(hs: seq<Header>, i: int)
    requires -1 <= i < |hs| && (i >= 0 ==> hs[i].name == "mcp-session-id")
    requires forall j :: i < j < |hs| ==> hs[j].name != "mcp-session-id"
    ensures LastSession(hs) == if i >= 0 then Some(Sid(hs[i].value)) else None
    ensures LookedUp(hs) == if i >= 0 && hs[i].value != "" then Some(Sid(hs[i].value)) else None
  {
    if hs != [] {
      LastHeader(hs[1..], if i > 0 then i - 1 else -1);
    }
  }

  /** Removing the session headers leaves every other header in its place. */
  lemma {:induction false} StrippedAt(before: seq<Header>, h: Header, after: seq<Header>)
    ensures WithoutSession(before + [h] + after) ==
            WithoutSession(before) + (if h.name == "mcp-session-id" then [] else [h]) + WithoutSession(after)
    ensures WithoutSession([]) == []
  {
    var all := before + [h] + after;
    if before == [] {
      assert all[1..] == after;
    } else {
      assert all[1..] == before[1..] + [h] + after;
      StrippedAt(before[1..], h, after);
    }
  }

  /** A response offers the non-empty id of its first session header if it is a success. */
  ghost predicate Offers(resp: Response, id: Sid) {
    && 200 <= resp.status <= 299 && id.text != ""
    && exists i :: 0 <= i < |resp.headers| && resp.headers[i] == Header("mcp-session-id", id.text)
                   && forall j :: 0 <= j < i ==> resp.headers[j].name != "mcp-session-id"
  }

  /** An initialise answer that can be recorded: it offers an id that has no row yet. */
  ghost predicate Adopts(r: Registry, resp: Response, id: Sid) {
    Offers(resp, id) && id !in r.sessions
  }

  lemma FirstHeaderExists(hs: seq<Header>) returns (i: nat)
    ensures i <= |hs| && (i < |hs| ==> hs[i].name == "mcp-session-id")
    ensures forall j :: 0 <= j < i ==> hs[j].name != "mcp-session-id"
  {
    i := 0;
    while i < |hs| && hs[i].name != "mcp-session-id"
      invariant i <= |hs| && forall j :: 0 <= j < i ==> hs[j].name != "mcp-session-id"
    {
      i := i + 1;
    }
  }

  lemma OffersIff(resp: Response)
    ensures forall id :: Offers(resp, id) <==> OfferedId(resp) == Some(id)
  {
    var i := FirstHeaderExists(resp.headers);
    FirstHeader(resp.headers, i);
    if i < |resp.headers| {
      assert resp.headers[i] == Header("mcp-session-id", resp.headers[i].value);
    }
  }

  ghost predicate SomethingToAdopt(r: Registry, resp: Response) {
    exists id :: Adopts(r, resp, id)
  }

  lemma AdoptsIff(r: Registry, resp: Response)
    ensures forall id :: Adopts(r, resp, id) <==> Adoptable(r, resp) == Some(id)
    ensures SomethingToAdopt(r, resp) <==> Adoptable(r, resp).Some?
  {
    OffersIff(resp);
    if Adoptable(r, resp).Some? {
      assert Adopts(r, resp, Adoptable(r, resp).value);
    }
  }

  /** The body of a request is the concatenation of its parts; other messages add nothing. */
  lemma BodiesJoin(ms: seq<Inbound>, part: Bytes, more: bool)
    ensures JoinBodies([]) == []
    ensures JoinBodies(ms + [Request(part, more)]) == JoinBodies(ms) + part
    ensures JoinBodies(ms + [Disconnect]) == JoinBodies(ms) == JoinBodies(ms + [OtherInbound])
  {
    assert forall m :: (ms + [m])[..|ms|] == ms;
  }

  // ---------------------------------------------------------------- a request with a session id

  /** An id that is not live leads to the target of its unexpired redirect; any other to itself. */
  ghost predicate LeadsTo(r: Registry, sid: Sid, redirected: bool, target: Sid) {
    && (redirected <==> && !(sid in r.sessions && r.sessions[sid].expires > r.now)
                        && sid in r.redirects && r.redirects[sid].expires > r.now)
    && target == if redirected then r.redirects[sid].target else sid
  }

  /** The app is not asked at all exactly if the session is live and somebody else's.  If it is
      not live the app is asked once, and its answer is relayed. */
  lemma WhoIsAsked(c: Config, r: Registry, behave: (Call, nat) -> Response, n: nat, q: Incoming,
                   initBody: Bytes, touch: bool, redirected: bool, target: Sid)
    requires LeadsTo(r, q.sid, redirected, target)
    ensures var out := Handled(c, r, behave, n, q, initBody, touch);
            var live := target in r.sessions && r.sessions[target].expires > r.now;
            && (|out.calls| == 0 <==> live && r.sessions[target].owner != q.owner)
            && (|out.calls| == 0 ==> out.reg == r && out.sent.status == 403)
            && (!live ==> |out.calls| == 1 && out.reg == r && out.sent == behave(out.calls[0], n))
            && (|out.calls| > 0 ==> out.calls[0].input == q.input)
            && (|out.calls| > 0 ==>
                  out.calls[0].headers ==
                  if redirected then WithoutSession(q.headers) + [Header("mcp-session-id", target.text)] else q.headers)
  {
  }

  /** The request is about a live session of the requester's own. */
  ghost predicate AboutOwn(r: Registry, q: Incoming, redirected: bool, target: Sid) {
    && LeadsTo(r, q.sid, redirected, target)
    && target in r.sessions && r.sessions[target].expires > r.now && r.sessions[target].owner == q.owner
  }

  /** For a live session of the requester's own, a 400 or 404 and no other answer starts a
      re-initialisation, and the request is replayed exactly if that offers an unknown id. */
  lemma WhatIsRetried(c: Config, r: Registry, behave: (Call, nat) -> Response, n: nat, q: Incoming,
                      initBody: Bytes, touch: bool, redirected: bool, target: Sid)
    requires AboutOwn(r, q, redirected, target)
    ensures var out := Handled(c, r, behave, n, q, initBody, touch);
            && 1 <= |out.calls| <= 3
            && (|out.calls| >= 2 <==> behave(out.calls[0], n).status == 400 || behave(out.calls[0], n).status == 404)
            && (|out.calls| >= 2 ==>
                  && out.calls[1] == Call(WithoutSession(out.calls[0].headers), [Request(initBody, false)])
                  && (|out.calls| == 3 <==> SomethingToAdopt(r, behave(out.calls[1], n + 1))))
  {
    AdoptsIff(r, behave(InitCall(HeadersFor(r, q.headers, q.sid), initBody), n + 1));
  }

  /** Without a replay the app's answer is relayed, and the session is extended if the answer is
      a success and a touch is due; nothing else changes. */
  lemma WithoutReplay(c: Config, r: Registry, behave: (Call, nat) -> Response, n: nat, q: Incoming,
                      initBody: Bytes, touch: bool, redirected: bool, target: Sid)
    requires AboutOwn(r, q, redirected, target)
    ensures var out := Handled(c, r, behave, n, q, initBody, touch);
            1 <= |out.calls| <= 2 ==>
              && out.sent == behave(out.calls[0], n)
              && out.reg == if touch && 200 <= out.sent.status <= 299
                            then r.(sessions := r.sessions[target := Session(q.owner, r.now + c.ttl)]) else r
  {
  }

  lemma PutsCommute<K, V>(m: map<K, V>, k: K, v: V, l: K, w: V)
    requires k != l
    ensures m[k := v][l := w] == m[l := w][k := v]
  {
  }

  lemma ReinitUnfolds(c: Config, r: Registry, owner: Owner, sid: Sid, newSid: Sid)
    ensures var linked := r.Register(newSid, owner, c.ttl).AddRedirect(sid, newSid, c.grace);
            Reinitialized(c, r, owner, sid, newSid) == linked.Invalidate(sid).NoteOrphan(owner, !linked.Live(sid))
  {
  }

  lemma ReinitSays(c: Config, r: Registry, owner: Owner, sid: Sid, newSid: Sid)
    requires sid in r.sessions && r.sessions[sid].owner == owner && newSid !in r.sessions
    ensures var r' := Reinitialized(c, r, owner, sid, newSid);
            && r'.sessions == r.sessions[sid := Session(owner, r.now)][newSid := Session(owner, r.now + c.ttl)]
            && r'.redirects == r.redirects[sid := Redirect(newSid, r.now + c.grace)]
            && r'.now == r.now
  {
    ReinitUnfolds(c, r, owner, sid, newSid);
    PutsCommute(r.sessions, newSid, Session(owner, r.now + c.ttl), sid, Session(owner, r.now));
  }

  lemma ReplayOutcome(c: Config, r: Registry, behave: (Call, nat) -> Response, n: nat, q: Incoming,
                      initBody: Bytes, touch: bool, target: Sid, hs: seq<Header>, id: Sid)
    requires target == TargetOf(r, q.sid) && hs == HeadersFor(r, q.headers, q.sid)
    requires r.Live(target) && r.sessions[target].owner == q.owner
    requires behave(Call(hs, q.input), n).status in {400, 404}
    requires Adoptable(r, behave(InitCall(hs, initBody), n + 1)) == Some(id)
    ensures var replay := Call(Rewritten(hs, id), [Request(q.body, false)]);
            Handled(c, r, behave, n, q, initBody, touch) ==
            Outcome(Reinitialized(c, r, q.owner, target, id),
                    [Call(hs, q.input), InitCall(hs, initBody), replay], Relabelled(behave(replay, n + 2), id))
  {
  }

  /** With a replay the new session is live for the owner, the old one ends now and leads to it,
      nothing else changes, and the client gets the replay's answer under the new id. */
  lemma WithReplay(c: Config, r: Registry, behave: (Call, nat) -> Response, n: nat, q: Incoming,
                   initBody: Bytes, touch: bool, redirected: bool, target: Sid, id: Sid)
    requires AboutOwn(r, q, redirected, target)
    requires var out := Handled(c, r, behave, n, q, initBody, touch);
             |out.calls| == 3 && Adopts(r, behave(out.calls[1], n + 1), id)
    ensures var out := Handled(c, r, behave, n, q, initBody, touch);
            var answer := behave(out.calls[2], n + 2);
            && out.reg.sessions == r.sessions[target := Session(q.owner, r.now)][id := Session(q.owner, r.now + c.ttl)]
            && out.reg.redirects == r.redirects[target := Redirect(id, r.now + c.grace)]
            && out.reg.now == r.now
            && out.calls[2].headers == WithoutSession(out.calls[0].headers) + [Header("mcp-session-id", id.text)]
            && out.calls[2].input == [Request(q.body, false)]
            && out.sent.status == answer.status && out.sent.body == answer.body
            && out.sent.headers == WithoutSession(answer.headers) + [Header("mcp-session-id", id.text)]
  {
    var hs := HeadersFor(r, q.headers, q.sid);
    AdoptsIff(r, behave(InitCall(hs, initBody), n + 1));
    ReplayOutcome(c, r, behave, n, q, initBody, touch, target, hs, id);
    ReinitSays(c, r, q.owner, target, id);
  }

  /** A success at monotonic time `mono` touches the session thirty seconds or more after the
      last touch, or after the start of the clock. */
  lemma TouchEveryThirtySeconds(debounce: map<Sid, real>, sid: Sid, other: Sid, last: real, mono: real)
    ensures TouchDue(debounce[sid := last], sid, mono) <==> mono >= last + 30.0
    ensures sid !in debounce ==> (TouchDue(debounce, sid, mono) <==> mono >= 30.0)
    ensures other != sid ==> (TouchDue(debounce[sid := last], other, mono) <==> TouchDue(debounce, other, mono))
    ensures forall resp: Response ::
              Debounced(debounce, sid, mono, resp) ==
              if 200 <= resp.status <= 299 && mono >= (if sid in debounce then debounce[sid] else 0.0) + 30.0
              then debounce[sid := mono] else debounce
  {
  }

  // ---------------------------------------------------------------- the other requests

  /** A POST without a session id is refused exactly at the limit; otherwise the app answers, and
      the session it offers is registered for the owner unless its id is known. */
  lemma WhatIsRegistered(c: Config, r: Registry, behave: (Call, nat) -> Response, n: nat, headers: seq<Header>,
                         input: seq<Inbound>, owner: Owner, active: set<Sid>)
    requires active == set sid | sid in r.sessions && r.sessions[sid].owner == owner && r.sessions[sid].expires > r.now
    ensures var out := Initialized(c, r, behave, n, headers, input, owner);
            && (|active| >= c.maxSessions ==> out.calls == [] && out.reg == r && out.sent.status == 429)
            && (|active| < c.maxSessions ==>
                  && out.calls == [Call(headers, input)] && out.sent == behave(out.calls[0], n)
                  && (forall id :: Adopts(r, out.sent, id) ==>
                        && out.reg.sessions == r.sessions[id := Session(owner, r.now + c.ttl)]
                        && out.reg.redirects == r.redirects && out.reg.now == r.now)
                  && (!SomethingToAdopt(r, out.sent) ==> out.reg == r))
  {
    assert active == r.Active(owner);
    AdoptsIff(r, behave(Call(headers, input), n));
  }

  /** A DELETE is passed on whatever it names; then that session, if there is one, ends now, and
      exactly the redirects to it are gone. */
  lemma WhatIsDeleted(r: Registry, behave: (Call, nat) -> Response, n: nat, headers: seq<Header>, input: seq<Inbound>,
                      sid: Option<Sid>)
    ensures var out := Deleted(r, behave, n, headers, input, sid);
            && out.calls == [Call(headers, input)] && out.sent == behave(out.calls[0], n)
            && (sid.None? ==> out.reg == r)
            && (sid.Some? ==>
                  && out.reg.now == r.now && out.reg.sessions.Keys == r.sessions.Keys
                  && (forall x :: x in r.sessions ==>
                        out.reg.sessions[x] == if x == sid.value then Session(r.sessions[x].owner, r.now)
                                               else r.sessions[x])
                  && (forall x :: x in out.reg.redirects <==> x in r.redirects && r.redirects[x].target != sid.value)
                  && (forall x :: x in out.reg.redirects ==> out.reg.redirects[x] == r.redirects[x]))
  {
  }

  // ---------------------------------------------------------------- the handlers of the protocol

  /** A handler of the protocol moves `n` times with nothing in between; `first` is what the app
      does with the request and `second` what it does with a synthetic initialise. */
  function Solo(c: Config, r: Registry, p: Handler, first: Choice, second: Choice, n: nat): (Registry, Handler)
    decreases n
  {
    if n == 0 then (r, p)
    else
      var choice := if p.Reinit? then second else first;
      Solo(c, Operate(c, r, p, choice), Goto(c, r, p, choice), first, second, n - 1)
  }

  lemma {:induction false} DoneStays(c: Config, r: Registry, first: Choice, second: Choice, n: nat)
    ensures Solo(c, r, Done, first, second, n) == (r, Done)
  {
    if n > 0 {
      DoneStays(c, r, first, second, n - 1);
    }
  }

  lemma SoloReinit(c: Config, r: Registry, owner: Owner, sid: Sid, first: Choice, second: Choice, n: nat)
    requires n >= 4
    ensures Solo(c, r, Reinit(owner, sid), first, second, n) ==
            (if second.accepted then Reinitialized(c, r, owner, sid, second.newSid) else r, Done)
  {
    if second.accepted {
      var r1 := Operate(c, r, Reinit(owner, sid), second);
      var r2 := Operate(c, r1, Registered(owner, sid, second.newSid), first);
      var r3 := Operate(c, r2, Linked(owner, sid, second.newSid), first);
      assert Solo(c, r, Reinit(owner, sid), first, second, n) ==
             Solo(c, r1, Registered(owner, sid, second.newSid), first, second, n - 1);
      assert Solo(c, r2, Linked(owner, sid, second.newSid), first, second, n - 2) ==
             Solo(c, r3, Replay(owner, second.newSid), first, second, n - 3);
      DoneStays(c, r3, first, second, n - 4);
    } else {
      DoneStays(c, r, first, second, n - 1);
    }
  }

  lemma SoloTracked(c: Config, r: Registry, owner: Owner, sid: Sid, first: Choice, second: Choice, n: nat)
    requires n >= 5
    ensures Solo(c, r, PassTracked(owner, sid), first, second, n) ==
            (if first.accepted then if first.touch then r.Touch(sid, c.ttl) else r
             else if second.accepted then Reinitialized(c, r, owner, sid, second.newSid) else r, Done)
  {
    if first.accepted {
      DoneStays(c, if first.touch then r.Touch(sid, c.ttl) else r, first, second, n - 1);
    } else {
      SoloReinit(c, r, owner, sid, first, second, n - 1);
    }
  }

  lemma SoloFound(c: Config, r: Registry, owner: Owner, sid: Sid, first: Choice, second: Choice, n: nat)
    requires n >= 7 && r.Live(sid)
    ensures Solo(c, r, Found(owner, sid, r.sessions[sid].owner), first, second, n) ==
            if r.sessions[sid].owner == owner then Solo(c, r, PassTracked(owner, sid), first, second, n - 1)
            else (r, Done)
  {
    DoneStays(c, r, first, second, n - 1);
  }

  lemma SoloMissed(c: Config, r: Registry, owner: Owner, sid: Sid, first: Choice, second: Choice, n: nat)
    requires n >= 9 && !r.Live(sid)
    ensures var target := TargetOf(r, sid);
            Solo(c, r, Missed(owner, sid), first, second, n) ==
            if r.Live(target) && r.sessions[target].owner == owner
            then Solo(c, r, PassTracked(owner, target), first, second, n - 3) else (r, Done)
  {
    var target := TargetOf(r, sid);
    if !HasRedirect(r, sid) {
      DoneStays(c, r, first, second, n - 2);
    } else if r.Live(target) {
      SoloFound(c, r, owner, target, first, second, n - 2);
    } else {
      assert Solo(c, r, Redirected(owner, target), first, second, n - 1) ==
             Solo(c, r, PassUntracked(owner, target), first, second, n - 2);
      DoneStays(c, r, first, second, n - 3);
    }
  }

  lemma SoloLookup(c: Config, r: Registry, owner: Owner, sid: Sid, first: Choice, second: Choice, n: nat)
    requires n >= 10
    ensures var target := TargetOf(r, sid);
            Solo(c, r, Lookup(owner, sid), first, second, n) ==
            if r.Live(target) && r.sessions[target].owner == owner
            then Solo(c, r, PassTracked(owner, target), first, second, if r.Live(sid) then n - 2 else n - 4)
            else (r, Done)
  {
    if r.Live(sid) {
      SoloFound(c, r, owner, sid, first, second, n - 1);
    } else {
      SoloMissed(c, r, owner, sid, first, second, n - 1);
    }
  }

  /** The protocol and the middleware agree: a handler that runs undisturbed, for ten moves or more,
      is done and has taken the registry where the middleware's method takes it. */
  lemma HandlerIsHandled(c: Config, r: Registry, behave: (Call, nat) -> Response, n: nat, q: Incoming,
                         initBody: Bytes, touch: bool, resp: Response, init: Response, first: Choice, second: Choice,
                         moves: nat)
    requires moves >= 10
    requires var hs := HeadersFor(r, q.headers, q.sid);
             resp == behave(Call(hs, q.input), n) && init == behave(InitCall(hs, initBody), n + 1)
    requires first.accepted <==> resp.status != 400 && resp.status != 404
    requires first.touch <==> touch && 200 <= resp.status <= 299
    requires if second.accepted then Adopts(r, init, second.newSid) else !SomethingToAdopt(r, init)
    ensures Solo(c, r, Lookup(q.owner, q.sid), first, second, moves) ==
            (Handled(c, r, behave, n, q, initBody, touch).reg, Done)
  {
    AdoptsIff(r, init);
    SoloLookup(c, r, q.owner, q.sid, first, second, moves);
    SoloTracked(c, r, q.owner, TargetOf(r, q.sid), first, second, if r.Live(q.sid) then moves - 2 else moves - 4);
  }

  /** Likewise for an initialise and for a DELETE. */
  lemma InitialiserIsInitialized(c: Config, r: Registry, behave: (Call, nat) -> Response, n: nat, headers: seq<Header>,
                                 input: seq<Inbound>, owner: Owner, first: Choice, second: Choice)
    requires var resp := behave(Call(headers, input), n);
             if first.accepted then Adopts(r, resp, first.newSid) else !SomethingToAdopt(r, resp)
    ensures Solo(c, r, InitCheck(owner), first, second, 2) ==
            (Initialized(c, r, behave, n, headers, input, owner).reg, Done)
  {
    AdoptsIff(r, behave(Call(headers, input), n));
  }

  lemma TerminatorIsDeleted(c: Config, r: Registry, behave: (Call, nat) -> Response, n: nat, headers: seq<Header>,
                            input: seq<Inbound>, owner: Owner, sid: Sid, first: Choice, second: Choice)
    ensures Solo(c, r, Terminate(owner, sid), first, second, 2) ==
            (Deleted(r, behave, n, headers, input, Some(sid)).reg, Done)
  {
  }
}
