/**
 The session middleware at the level of messages: buffering the request body, holding back
 an error response, re-initialising a session the inner application does not know, and
 replaying the request.

 The inner application is arbitrary: each of its answers may depend on the whole call and on
 how often it was called before.  Registry operations are those of `SessionProtocol`.
 */
module SessionRelay {
  import opened Options
  import opened SessionProtocol

  type Bytes = seq<bv8>

  datatype Header = Header(name: string, value: string)

  datatype Inbound = Request(body: Bytes, more: bool) | Disconnect | OtherInbound

  datatype Outbound = Start(status: int, headers: seq<Header>) | Body(data: Bytes, more: bool)

  /** One call of the inner application: the request headers and everything `receive` yields. */
  datatype Call = Call(headers: seq<Header>, input: seq<Inbound>)

  const SESSION_HEADER := "mcp-session-id"

  /** A response as it is emitted: a start message, then the messages of its body. */
  datatype RawResponse = Response(status: int, headers: seq<Header>, body: seq<Outbound>)

  /** At least one body message, and only the last one is final. */
  predicate Finished(body: seq<Outbound>) {
    body != [] && forall i :: 0 <= i < |body| ==> body[i].Body? && (body[i].more <==> i < |body| - 1)
  }

  /** What an inner application emits: one start, then a finished body. */
  type Response = r: RawResponse | Finished(r.body) witness Response(200, [], [Body([], false)])

  function Messages(r: Response): seq<Outbound> {
    [Start(r.status, r.headers)] + r.body
  }

  /** One response: the only start comes first, and the only final message comes last. */
  ghost predicate OneResponse(ms: seq<Outbound>) {
    && |ms| >= 2
    && forall i :: 0 <= i < |ms| ==>
         (ms[i].Start? <==> i == 0) && (ms[i].Body? && !ms[i].more <==> i == |ms| - 1)
  }

  lemma MessagesAreComplete(r: Response)
    ensures OneResponse(Messages(r))
  {
    assert forall i :: 0 < i < |Messages(r)| ==> Messages(r)[i] == r.body[i - 1];
  }

  predicate Success(status: int) {
    200 <= status < 300
  }

  // ---------------------------------------------------------------- headers

  function WithoutSession(hs: seq<Header>): seq<Header> {
    if hs == [] then []
    else if hs[0].name == SESSION_HEADER then WithoutSession(hs[1..])
    else [hs[0]] + WithoutSession(hs[1..])
  }

  function Rewritten(hs: seq<Header>, sid: Sid): seq<Header> {
    WithoutSession(hs) + [Header(SESSION_HEADER, sid.text)]
  }

  /** The last session header, if any: what a dictionary of the headers holds. */
  function LastSession(hs: seq<Header>): Option<Sid> {
    if hs == [] then None
    else if LastSession(hs[1..]).Some? then LastSession(hs[1..])
    else if hs[0].name == SESSION_HEADER then Some(Sid(hs[0].value))
    else None
  }

  /** The id the middleware looks up; an empty header value counts as none. */
  function LookedUp(hs: seq<Header>): Option<Sid> {
    if LastSession(hs) == Some(Sid("")) then None else LastSession(hs)
  }

  /** The first session header, if any: the id under which the inner application is called. */
  function SessionIdOf(hs: seq<Header>): Option<Sid> {
    if hs == [] then None
    else if hs[0].name == SESSION_HEADER then Some(Sid(hs[0].value))
    else SessionIdOf(hs[1..])
  }

  /** The id an accepted initialise answer offers; an empty header value offers none. */
  function OfferedId(resp: Response): Option<Sid> {
    var sid := SessionIdOf(resp.headers);
    if Success(resp.status) && sid.Some? && sid.value.text != "" then sid else None
  }

  /** A response as relayed under another session id: only the start message differs. */
  function Relabelled(resp: Response, sid: Sid): Response {
    resp.(headers := Rewritten(resp.headers, sid))
  }

  lemma {:induction false} WithoutSessionHasNone(hs: seq<Header>)
    ensures forall h :: h in WithoutSession(hs) <==> h in hs && h.name != SESSION_HEADER
    ensures WithoutSession(WithoutSession(hs)) == WithoutSession(hs)
  {
    if hs != [] {
      WithoutSessionHasNone(hs[1..]);
      var rest := WithoutSession(hs[1..]);
      assert ([hs[0]] + rest)[1..] == rest;
    }
  }

  lemma {:induction false} SessionIdAfter(hs: seq<Header>, sid: Sid)
    requires forall h :: h in hs ==> h.name != SESSION_HEADER
    ensures SessionIdOf(hs + [Header(SESSION_HEADER, sid.text)]) == Some(sid)
    ensures WithoutSession(hs + [Header(SESSION_HEADER, sid.text)]) == hs
  {
    var all := hs + [Header(SESSION_HEADER, sid.text)];
    if hs != [] {
      assert all[1..] == hs[1..] + [Header(SESSION_HEADER, sid.text)];
      SessionIdAfter(hs[1..], sid);
    }
  }

  /** A rewritten header list names exactly the new session, keeps every other header, and
      forgets whatever an earlier rewrite wrote. */
  lemma RewrittenNamesSession(hs: seq<Header>, sid: Sid, later: Sid)
    ensures SessionIdOf(Rewritten(hs, sid)) == Some(sid)
    ensures forall h :: h in Rewritten(hs, sid) && h.name == SESSION_HEADER ==> h.value == sid.text
    ensures WithoutSession(Rewritten(hs, sid)) == WithoutSession(hs)
    ensures Rewritten(Rewritten(hs, sid), later) == Rewritten(hs, later)
  {
    WithoutSessionHasNone(hs);
    SessionIdAfter(WithoutSession(hs), sid);
  }

  // ---------------------------------------------------------------- receiving

  /** The message after which no more body comes. */
  predicate IsLast(m: Inbound) {
    (m.Request? && !m.more) || m.Disconnect?
  }

  function JoinBodies(ms: seq<Inbound>): Bytes {
    if ms == [] then [] else JoinBodies(ms[..|ms| - 1]) + BodyOf(ms[|ms| - 1])
  }

  function BodyOf(m: Inbound): Bytes {
    if m.Request? then m.body else []
  }

  lemma ReadOneMore(script: seq<Inbound>, from: nat, n: nat)
    requires from <= n < |script|
    ensures script[from..n + 1] == script[from..n] + [script[n]]
    ensures JoinBodies(script[from..n + 1]) == JoinBodies(script[from..n]) + BodyOf(script[n])
  {
    assert script[from..n + 1] == script[from..n] + [script[n]];
    assert script[from..n + 1][..n - from] == script[from..n];
  }

  /** The server's `receive`: it yields a fixed stream of messages one by one. */
  class Receiver {
    const script: seq<Inbound>
    var next: nat

    constructor (script: seq<Inbound>)
      ensures this.script == script && next == 0
    {
      this.script, next := script, 0;
    }

    function Rest(): seq<Inbound>
      reads this
    {
      if next <= |script| then script[next..] else []
    }

    method Receive() returns (m: Inbound)
      requires next < |script|
      modifies this
      ensures m == script[old(next)] && next == old(next) + 1
    {
      m := script[next];
      next := next + 1;
    }
  }

  /** The `receive` handed to the inner application after buffering. */
  class ReplayReceiver {
    const chunks: seq<Inbound>
    const source: Receiver
    var next: nat

    constructor (chunks: seq<Inbound>, source: Receiver)
      ensures this.chunks == chunks && this.source == source && next == 0
    {
      this.chunks, this.source, next := chunks, source, 0;
    }

    function Rest(): seq<Inbound>
      reads this, source
    {
      (if next <= |chunks| then chunks[next..] else []) + source.Rest()
    }

    /** Buffered chunks first, then whatever the server sends. */
    method Receive() returns (m: Inbound)
      requires Rest() != []
      modifies this, source
      ensures m == old(Rest())[0] && Rest() == old(Rest())[1..]
    {
      if next < |chunks| {
        m := chunks[next];
        next := next + 1;
      } else {
        assert Rest() == source.Rest();
        m := source.Receive();
      }
    }
  }

  /** The messages of a request body: everything up to the first last message. */
  ghost predicate IsWholeBody(script: seq<Inbound>, from: nat, to: nat) {
    && from < to <= |script| && IsLast(script[to - 1])
    && forall i :: from <= i < to - 1 ==> !IsLast(script[i])
  }

  /** Reads up to and including the last body message, and nothing beyond it. */
  method ReadBody(receive: Receiver, ghost end: nat) returns (chunks: seq<Inbound>, body: Bytes)
    requires IsWholeBody(receive.script, receive.next, end)
    modifies receive
    ensures receive.next == end
    ensures chunks == receive.script[old(receive.next)..end] && body == JoinBodies(chunks)
  {
    ghost var script, start := receive.script, receive.next;
    chunks, body := [], [];
    while true
      invariant start <= receive.next < end
      invariant chunks == script[start..receive.next] && body == JoinBodies(chunks)
      decreases end - receive.next
    {
      ghost var n := receive.next;
      var message := receive.Receive();
      ReadOneMore(script, start, n);
      chunks := chunks + [message];
      if message.Request? {
        body := body + message.body;
      }
      if IsLast(message) {
        break;
      }
    }
  }

  /** What the replaying receiver yields is exactly the stream as it was before buffering. */
  method BufferBody(receive: Receiver, ghost end: nat) returns (body: Bytes, replay: ReplayReceiver)
    requires IsWholeBody(receive.script, receive.next, end)
    modifies receive
    ensures fresh(replay) && replay.Rest() == old(receive.Rest())
    ensures body == JoinBodies(receive.script[old(receive.next)..end])
  {
    ghost var all := receive.Rest();
    var chunks: seq<Inbound>;
    chunks, body := ReadBody(receive, end);
    assert all == chunks + receive.Rest();
    replay := new ReplayReceiver(chunks, receive);
    assert replay.Rest() == chunks[0..] + receive.Rest() && chunks[0..] == chunks;
  }

  // ---------------------------------------------------------------- sending

  class Client {
    var received: seq<Outbound>

    method Send(m: Outbound)
      modifies this
      ensures received == old(received) + [m]
    {
      received := received + [m];
    }

    method SendAll(ms: seq<Outbound>)
      modifies this
      ensures received == old(received) + ms
    {
      for i := 0 to |ms|
        invariant received == old(received) + ms[..i]
      {
        Send(ms[i]);
        assert ms[..i + 1] == ms[..i] + [ms[i]];
      }
      assert ms[..|ms|] == ms;
    }
  }

  /** The intercepting `send`: a success streams through at once, an error is held back. */
  class ResponseGate {
    const client: Client
    var status: int
    var streaming: bool
    var buffered: seq<Outbound>

    constructor (client: Client)
      ensures this.client == client && status == 0 && !streaming && buffered == []
    {
      this.client := client;
      status, streaming, buffered := 0, false, [];
    }

    method Send(m: Outbound)
      modifies this, client
      ensures status == if m.Start? then m.status else old(status)
      ensures streaming == (old(streaming) || (m.Start? && Success(m.status)))
      ensures var forward := if m.Start? then Success(m.status) else old(streaming);
              && client.received == old(client.received) + (if forward then [m] else [])
              && buffered == old(buffered) + (if forward then [] else [m])
    {
      if m.Start? {
        status := m.status;
        if Success(m.status) {
          streaming := true;
          client.Send(m);
        } else {
          buffered := buffered + [m];
        }
      } else if streaming {
        client.Send(m);
      } else {
        buffered := buffered + [m];
      }
    }

    /** A whole response passed message by message through a new gate. */
    method SendAll(resp: Response)
      requires status == 0 && !streaming && buffered == []
      modifies this, client
      ensures status == resp.status && streaming == Success(status)
      ensures client.received == old(client.received) + if streaming then Messages(resp) else []
      ensures buffered == if streaming then [] else Messages(resp)
    {
      var ms := Messages(resp);
      Send(ms[0]);
      for i := 1 to |ms|
        invariant status == resp.status && streaming == Success(status)
        invariant client.received == old(client.received) + if streaming then ms[..i] else []
        invariant buffered == if streaming then [] else ms[..i]
      {
        Send(ms[i]);
        assert ms[..i + 1] == ms[..i] + [ms[i]];
      }
      assert ms[..|ms|] == ms;
    }
  }

  /** The inner application, which remembers how it was called. */
  class InnerApp {
    const behave: (Call, nat) -> Response
    var calls: seq<Call>

    constructor (behave: (Call, nat) -> Response)
      ensures this.behave == behave && calls == []
    {
      this.behave, calls := behave, [];
    }

    method Run(call: Call) returns (resp: Response)
      modifies this
      ensures calls == old(calls) + [call] && resp == behave(call, |old(calls)|)
    {
      resp := behave(call, |calls|);
      calls := calls + [call];
    }
  }

  // ---------------------------------------------------------------- one request, as a function

  /** A POST or GET that carries session id `sid`, from `owner`. */
  datatype Incoming = Incoming(headers: seq<Header>, input: seq<Inbound>, body: Bytes, owner: Owner, sid: Sid)

  /** What handling it does: the registry, the calls of the inner app, and the response. */
  datatype Outcome = Outcome(reg: Registry, calls: seq<Call>, sent: Response)

  function ErrorResponse(status: int): Response {
    Response(status, [Header("content-type", "application/json")], [Body([], false)])
  }

  predicate HasRedirect(r: Registry, sid: Sid) {
    !r.Live(sid) && sid in r.redirects && r.redirects[sid].expires > r.now
  }

  /** The session a request is about: its own, or one redirect further. */
  function TargetOf(r: Registry, sid: Sid): Sid {
    if HasRedirect(r, sid) then r.redirects[sid].target else sid
  }

  function HeadersFor(r: Registry, headers: seq<Header>, sid: Sid): seq<Header> {
    if HasRedirect(r, sid) then Rewritten(headers, TargetOf(r, sid)) else headers
  }

  function InitCall(hs: seq<Header>, initBody: Bytes): Call {
    Call(WithoutSession(hs), [Request(initBody, false)])
  }

  /** Whether a re-initialisation answered by `init` can be recorded, and under which id. */
  function Adoptable(r: Registry, init: Response): Option<Sid> {
    if OfferedId(init).Some? && OfferedId(init).value !in r.sessions then OfferedId(init) else None
  }

  /** An answer that is relayed as it is; a success touches the session when that is due. */
  function Relayed(c: Config, r: Registry, sid: Sid, touch: bool, resp: Response): Outcome {
    Outcome(if Success(resp.status) && touch then r.Touch(sid, c.ttl) else r, [], resp)
  }

  /** What follows a rejection: a re-initialisation and a replay, or the rejection itself. */
  function Retried(c: Config, r: Registry, behave: (Call, nat) -> Response, n: nat, hs: seq<Header>,
                   body: Bytes, owner: Owner, sid: Sid, initBody: Bytes, resp: Response): Outcome
  {
    var init := InitCall(hs, initBody);
    match Adoptable(r, behave(init, n))
    case None => Outcome(r, [init], resp)
    case Some(newSid) =>
      var replay := Call(Rewritten(hs, newSid), [Request(body, false)]);
      Outcome(Reinitialized(c, r, owner, sid, newSid), [init, replay], Relabelled(behave(replay, n + 1), newSid))
  }

  /** What follows the inner app's first answer `resp` to a tracked request; `n` calls were
      made before. */
  function Answered(c: Config, r: Registry, behave: (Call, nat) -> Response, n: nat, hs: seq<Header>,
                    body: Bytes, owner: Owner, sid: Sid, initBody: Bytes, touch: bool, resp: Response): Outcome
  {
    if resp.status in {400, 404} then Retried(c, r, behave, n, hs, body, owner, sid, initBody, resp)
    else Relayed(c, r, sid, touch, resp)
  }

  /** A request whose session row exists and belongs to the requester. */
  function Tracked(c: Config, r: Registry, behave: (Call, nat) -> Response, n: nat, hs: seq<Header>,
                   input: seq<Inbound>, body: Bytes, owner: Owner, sid: Sid, initBody: Bytes, touch: bool): Outcome
  {
    var call := Call(hs, input);
    var out := Answered(c, r, behave, n + 1, hs, body, owner, sid, initBody, touch, behave(call, n));
    out.(calls := [call] + out.calls)
  }

  function Handled(c: Config, r: Registry, behave: (Call, nat) -> Response, n: nat, q: Incoming,
                   initBody: Bytes, touch: bool): Outcome
  {
    var sid := TargetOf(r, q.sid);
    var hs := HeadersFor(r, q.headers, q.sid);
    if !r.Live(sid) then Outcome(r, [Call(hs, q.input)], behave(Call(hs, q.input), n))
    else if r.sessions[sid].owner != q.owner then Outcome(r, [], ErrorResponse(403))
    else Tracked(c, r, behave, n, hs, q.input, q.body, q.owner, sid, initBody, touch)
  }

  /** A POST without a session id: refused at the limit, otherwise answered by the inner app,
      whose offered session is registered. */
  function Initialized(c: Config, r: Registry, behave: (Call, nat) -> Response, n: nat, headers: seq<Header>,
                       input: seq<Inbound>, owner: Owner): Outcome
  {
    if |r.Active(owner)| >= c.maxSessions then Outcome(r, [], ErrorResponse(429))
    else
      var call := Call(headers, input);
      var resp := behave(call, n);
      Outcome(if Adoptable(r, resp).Some? then r.Register(Adoptable(r, resp).value, owner, c.ttl) else r, [call], resp)
  }

  /** A DELETE: the inner app answers whoever asks, then the registry forgets the session. */
  function Deleted(r: Registry, behave: (Call, nat) -> Response, n: nat, headers: seq<Header>, input: seq<Inbound>,
                      sid: Option<Sid>): Outcome
  {
    Outcome(if sid.Some? then r.Invalidate(sid.value).DropRedirectsTo(sid.value) else r,
            [Call(headers, input)], behave(Call(headers, input), n))
  }

  datatype Verb = Get | Post | Delete

  // ---------------------------------------------------------------- the middleware

  class SessionStore {
    const config: Config
    var reg: Registry

    constructor (config: Config)
      ensures this.config == config && reg == START.reg
    {
      this.config, reg := config, START.reg;
    }

    method Lookup(sid: Sid) returns (owner: Option<Owner>)
      ensures owner == if reg.Live(sid) then Some(reg.sessions[sid].owner) else None
    {
      owner := if reg.Live(sid) then Some(reg.sessions[sid].owner) else None;
    }

    method RedirectLookup(sid: Sid) returns (target: Option<Sid>)
      ensures target == if sid in reg.redirects && reg.redirects[sid].expires > reg.now
                        then Some(reg.redirects[sid].target) else None
    {
      target := if sid in reg.redirects && reg.redirects[sid].expires > reg.now
                then Some(reg.redirects[sid].target) else None;
    }

    /** The session id is the primary key: registering a known id fails and changes nothing. */
    method Register(sid: Sid, owner: Owner) returns (ok: bool)
      modifies this
      ensures ok == (sid !in old(reg).sessions)
      ensures reg == if ok then old(reg).Register(sid, owner, config.ttl) else old(reg)
    {
      ok := sid !in reg.sessions;
      if ok {
        reg := reg.Register(sid, owner, config.ttl);
      }
    }
  }

  /** Register the new session, redirect the old one to it, invalidate the old one. */
  method PersistReinit(store: SessionStore, sid: Sid, newSid: Sid, owner: Owner) returns (ok: bool)
    modifies store
    ensures ok == (newSid !in old(store.reg).sessions)
    ensures store.reg == if ok then Reinitialized(store.config, old(store.reg), owner, sid, newSid) else old(store.reg)
  {
    ok := store.Register(newSid, owner);
    if ok {
      store.reg := store.reg.AddRedirect(sid, newSid, store.config.grace);
      store.reg := store.reg.Invalidate(sid).NoteOrphan(owner, !store.reg.Live(sid));
    }
  }

  ghost predicate Carries(receive: Receiver, end: nat, q: Incoming)
    requires IsWholeBody(receive.script, receive.next, end)
    reads receive
  {
    q.input == receive.Rest() && q.body == JoinBodies(receive.script[receive.next..end])
  }

  /** Buffers the body of `q`; `input` is what the replaying receiver yields. */
  method BufferInput(receive: Receiver, ghost end: nat, ghost q: Incoming) returns (body: Bytes, input: seq<Inbound>)
    requires IsWholeBody(receive.script, receive.next, end) && Carries(receive, end, q)
    modifies receive
    ensures body == q.body && input == q.input
  {
    var replay: ReplayReceiver;
    body, replay := BufferBody(receive, end);
    input := replay.Rest();
  }

  /** Whether a success at monotonic time `mono` touches the session. */
  predicate TouchDue(debounce: map<Sid, real>, sid: Sid, mono: real) {
    mono - (if sid in debounce then debounce[sid] else 0.0) >= 30.0
  }

  /** The times of the last touches after the answer `resp`. */
  function Debounced(debounce: map<Sid, real>, sid: Sid, mono: real, resp: Response): map<Sid, real> {
    if Success(resp.status) && TouchDue(debounce, sid, mono) then debounce[sid := mono] else debounce
  }

  class SessionRegistryMiddleware {
    const app: InnerApp
    const store: SessionStore
    const initBody: Bytes
    var touchDebounce: map<Sid, real>

    constructor (app: InnerApp, store: SessionStore, initBody: Bytes)
      ensures this.app == app && this.store == store && this.initBody == initBody && touchDebounce == map[]
    {
      this.app, this.store, this.initBody, touchDebounce := app, store, initBody, map[];
    }

    method DebouncedTouch(sid: Sid, mono: real)
      modifies this, store
      ensures store.reg == if TouchDue(old(touchDebounce), sid, mono) then old(store.reg).Touch(sid, store.config.ttl)
                           else old(store.reg)
      ensures touchDebounce == if TouchDue(old(touchDebounce), sid, mono) then old(touchDebounce)[sid := mono]
                               else old(touchDebounce)
    {
      if TouchDue(touchDebounce, sid, mono) {
        touchDebounce := touchDebounce[sid := mono];
        store.reg := store.reg.Touch(sid, store.config.ttl);
      }
    }

    /** Synthetic initialise, registration, redirect, invalidation, replay.  Until a replay is
        certain, nothing reaches the client and the registry is untouched. */
    method Reinitialize(headers: seq<Header>, body: Bytes, sid: Sid, owner: Owner, client: Client)
      returns (newSid: Option<Sid>)
      modifies app, store, client
      ensures var n := |old(app.calls)|;
              var init := app.behave(InitCall(headers, initBody), n);
              newSid == Adoptable(old(store.reg), init)
      ensures newSid.None? ==>
                && client.received == old(client.received) && store.reg == old(store.reg)
                && app.calls == old(app.calls) + [InitCall(headers, initBody)]
      ensures newSid.Some? ==>
                var replay := Call(Rewritten(headers, newSid.value), [Request(body, false)]);
                && client.received == old(client.received)
                     + Messages(Relabelled(app.behave(replay, |old(app.calls)| + 1), newSid.value))
                && store.reg == Reinitialized(store.config, old(store.reg), owner, sid, newSid.value)
                && app.calls == old(app.calls) + [InitCall(headers, initBody), replay]
    {
      var init := app.Run(InitCall(headers, initBody));
      var offered := OfferedId(init);
      if offered.None? {
        return None;
      }
      var ok := PersistReinit(store, sid, offered.value, owner);
      if !ok {
        return None;
      }
      newSid := offered;
      var replay := Call(Rewritten(headers, newSid.value), [Request(body, false)]);
      var resp := app.Run(replay);
      client.SendAll(Messages(Relabelled(resp, newSid.value)));
    }

    /** A request for the middleware's path, by its method and the session id looked up. */
    method Dispatch(verb: Verb, headers: seq<Header>, receive: Receiver, client: Client, owner: Owner, mono: real,
                    ghost end: nat, ghost q: Incoming)
      requires IsWholeBody(receive.script, receive.next, end) && Carries(receive, end, q)
      requires q.headers == headers && q.owner == owner
      modifies this, app, store, client, receive
      ensures var out := Dispatched(store.config, old(store.reg), app.behave, |old(app.calls)|, verb, q, initBody,
                                    old(touchDebounce), mono);
              && store.reg == out.reg
              && app.calls == old(app.calls) + out.calls
              && client.received == old(client.received) + Messages(out.sent)
    {
      var sid := LookedUp(headers);
      if verb.Post? && sid.None? {
        HandleInitialize(headers, receive, client, owner, end);
      } else if !verb.Delete? && sid.Some? {
        HandleSubsequent(headers, receive, client, owner, sid.value, mono, end, q.(sid := sid.value));
      } else if verb.Delete? {
        HandleTerminate(headers, receive, client, sid);
      } else {
        PassThrough(headers, receive, client);
      }
    }

    method PassThrough(headers: seq<Header>, receive: Receiver, client: Client)
      modifies app, client
      ensures app.calls == old(app.calls) + [Call(headers, receive.Rest())]
      ensures client.received == old(client.received)
                + Messages(app.behave(Call(headers, receive.Rest()), |old(app.calls)|))
    {
      var resp := app.Run(Call(headers, receive.Rest()));
      client.SendAll(Messages(resp));
    }

    method HandleInitialize(headers: seq<Header>, receive: Receiver, client: Client, owner: Owner, ghost end: nat)
      requires IsWholeBody(receive.script, receive.next, end)
      modifies app, store, client, receive
      ensures var out := Initialized(store.config, old(store.reg), app.behave, |old(app.calls)|, headers,
                                     old(receive.Rest()), owner);
              && store.reg == out.reg
              && app.calls == old(app.calls) + out.calls
              && client.received == old(client.received) + Messages(out.sent)
    {
      if |store.reg.Active(owner)| >= store.config.maxSessions {
        client.SendAll(Messages(ErrorResponse(429)));
        return;
      }
      var _, replay := BufferBody(receive, end);
      var resp := app.Run(Call(headers, replay.Rest()));
      client.SendAll(Messages(resp));
      var offered := OfferedId(resp);
      if offered.Some? {
        var _ := store.Register(offered.value, owner);
      }
    }

    /** A DELETE: the inner app answers, then the registry forgets the session. */
    method HandleTerminate(headers: seq<Header>, receive: Receiver, client: Client, sid: Option<Sid>)
      modifies app, store, client
      ensures var out := Deleted(old(store.reg), app.behave, |old(app.calls)|, headers, receive.Rest(), sid);
              && store.reg == out.reg
              && app.calls == old(app.calls) + out.calls
              && client.received == old(client.received) + Messages(out.sent)
    {
      PassThrough(headers, receive, client);
      if sid.Some? {
        store.reg := store.reg.Invalidate(sid.value).DropRedirectsTo(sid.value);
      }
    }

    /** A request that carries a session id.  `q` describes it: its input is all that `receive`
        yields, and its body ends at `end` of that stream. */
    method HandleSubsequent(headers: seq<Header>, receive: Receiver, client: Client, owner: Owner, requested: Sid,
                            mono: real, ghost end: nat, ghost q: Incoming)
      requires IsWholeBody(receive.script, receive.next, end) && Carries(receive, end, q)
      requires q.headers == headers && q.owner == owner && q.sid == requested
      modifies this, app, store, client, receive
      ensures var touch := TouchDue(old(touchDebounce), TargetOf(old(store.reg), requested), mono);
              var out := Handled(store.config, old(store.reg), app.behave, |old(app.calls)|, q, initBody, touch);
              && store.reg == out.reg
              && app.calls == old(app.calls) + out.calls
              && client.received == old(client.received) + Messages(out.sent)
      ensures var reg, sid := old(store.reg), TargetOf(old(store.reg), requested);
              touchDebounce ==
              if reg.Live(sid) && reg.sessions[sid].owner == owner
              then Debounced(old(touchDebounce), sid, mono,
                             app.behave(Call(HeadersFor(reg, headers, requested), q.input), |old(app.calls)|))
              else old(touchDebounce)
    {
      var sid, hs := requested, headers;
      var session := store.Lookup(sid);
      if session.None? {
        var target := store.RedirectLookup(sid);
        if target.Some? {
          sid := target.value;
          hs := Rewritten(hs, sid);
          session := store.Lookup(sid);
        }
      }
      assert sid == TargetOf(store.reg, requested) && hs == HeadersFor(store.reg, headers, requested);
      if session.None? {
        PassThrough(hs, receive, client);
        return;
      }
      if session.value != owner {
        client.SendAll(Messages(ErrorResponse(403)));
        return;
      }
      ghost var out := Tracked(store.config, store.reg, app.behave, |app.calls|, hs, q.input, q.body, owner, sid,
                               initBody, TouchDue(touchDebounce, sid, mono));
      BufferAndForward(hs, receive, client, owner, sid, mono, end, q, out);
    }

    /** Buffers the body and forwards the request; `out` is what the specification says. */
    method BufferAndForward(hs: seq<Header>, receive: Receiver, client: Client, owner: Owner, sid: Sid, mono: real,
                            ghost end: nat, ghost q: Incoming, ghost out: Outcome)
      requires IsWholeBody(receive.script, receive.next, end) && Carries(receive, end, q)
      requires out == Tracked(store.config, store.reg, app.behave, |app.calls|, hs, q.input, q.body, owner, sid,
                              initBody, TouchDue(touchDebounce, sid, mono))
      modifies this, app, store, client, receive
      ensures store.reg == out.reg
      ensures touchDebounce ==
              Debounced(old(touchDebounce), sid, mono, app.behave(Call(hs, q.input), |old(app.calls)|))
      ensures app.calls == old(app.calls) + out.calls
      ensures client.received == old(client.received) + Messages(out.sent)
    {
      var body, input := BufferInput(receive, end, q);
      ForwardTracked(Call(hs, input), body, client, owner, sid, mono, out);
    }

    /** The tracked path: the session row exists and belongs to the requester. */
    method ForwardTracked(call: Call, body: Bytes, client: Client, owner: Owner, sid: Sid, mono: real,
                          ghost out: Outcome)
      requires out == Tracked(store.config, store.reg, app.behave, |app.calls|, call.headers, call.input, body, owner,
                              sid, initBody, TouchDue(touchDebounce, sid, mono))
      modifies this, app, store, client
      ensures store.reg == out.reg
      ensures touchDebounce == Debounced(old(touchDebounce), sid, mono, app.behave(call, |old(app.calls)|))
      ensures app.calls == old(app.calls) + out.calls
      ensures client.received == old(client.received) + Messages(out.sent)
    {
      var resp := app.Run(call);
      ghost var answer := Answer(call.headers, body, client, owner, sid, mono, resp);
    }

    /** Relays the inner app's answer, or re-initialises and replays. */
    method Answer(hs: seq<Header>, body: Bytes, client: Client, owner: Owner, sid: Sid, mono: real, resp: Response)
      returns (ghost out: Outcome)
      modifies this, app, store, client
      ensures out == Answered(store.config, old(store.reg), app.behave, |old(app.calls)|, hs, body, owner, sid,
                              initBody, TouchDue(old(touchDebounce), sid, mono), resp)
      ensures store.reg == out.reg && touchDebounce == Debounced(old(touchDebounce), sid, mono, resp)
      ensures app.calls == old(app.calls) + out.calls
      ensures client.received == old(client.received) + Messages(out.sent)
    {
      var status, streaming, buffered := Intercept(resp, client);
      if status in {400, 404} {
        out := Retry(hs, body, client, owner, sid, resp, buffered);
      } else {
        out := Settle(client, sid, mono, resp, streaming, buffered);
      }
    }

    /** Sends what was held back and touches the session on success. */
    method Settle(client: Client, sid: Sid, mono: real, resp: Response, streaming: bool, buffered: seq<Outbound>)
      returns (ghost out: Outcome)
      requires streaming ==> buffered == []
      modifies this, store, client
      ensures out == Relayed(store.config, old(store.reg), sid, TouchDue(old(touchDebounce), sid, mono), resp)
      ensures store.reg == out.reg && touchDebounce == Debounced(old(touchDebounce), sid, mono, resp)
      ensures client.received == old(client.received) + buffered
    {
      out := Relayed(store.config, store.reg, sid, TouchDue(touchDebounce, sid, mono), resp);
      if !streaming {
        client.SendAll(buffered);
      }
      if Success(resp.status) {
        DebouncedTouch(sid, mono);
      }
    }

    /** A rejected request: the replay answers it, or else what was held back is sent. */
    method Retry(hs: seq<Header>, body: Bytes, client: Client, owner: Owner, sid: Sid, ghost resp: Response,
                 buffered: seq<Outbound>) returns (ghost out: Outcome)
      requires buffered == Messages(resp)
      modifies app, store, client
      ensures out == Retried(store.config, old(store.reg), app.behave, |old(app.calls)|, hs, body, owner, sid, initBody,
                             resp)
      ensures store.reg == out.reg
      ensures app.calls == old(app.calls) + out.calls
      ensures client.received == old(client.received) + Messages(out.sent)
    {
      out := Retried(store.config, store.reg, app.behave, |app.calls|, hs, body, owner, sid, initBody, resp);
      var newSid := Reinitialize(hs, body, sid, owner, client);
      if newSid.None? {
        client.SendAll(buffered);
      }
    }
  }

  /** A response passed through a new gate: all of it is either sent or held back. */
  method Intercept(resp: Response, client: Client) returns (status: int, streaming: bool, buffered: seq<Outbound>)
    modifies client
    ensures status == resp.status && streaming == Success(status)
    ensures if streaming then buffered == [] else buffered == Messages(resp) && client.received == old(client.received)
    ensures client.received + buffered == old(client.received) + Messages(resp)
  {
    var gate := new ResponseGate(client);
    gate.SendAll(resp);
    status, streaming, buffered := gate.status, gate.streaming, gate.buffered;
  }

  // ---------------------------------------------------------------- what the client and the app see

  /** The client gets exactly one complete response: an error made here, the answer to its own
      request, or the relabelled answer to a replay of the same body. */
  lemma ExactlyOneResponse(c: Config, r: Registry, behave: (Call, nat) -> Response, n: nat, q: Incoming,
                           initBody: Bytes, touch: bool)
    ensures var out := Handled(c, r, behave, n, q, initBody, touch);
            && OneResponse(Messages(out.sent)) && |out.calls| <= 3
            && (|out.calls| == 0 ==> out.sent.status == 403 && out.reg == r)
            && (1 <= |out.calls| <= 2 ==> out.sent == behave(out.calls[0], n))
            && (|out.calls| >= 1 ==> out.calls[0].input == q.input)
            && (|out.calls| >= 2 ==> SessionIdOf(out.calls[1].headers) == None)
            && (|out.calls| == 2 ==> out.reg == r)
            && (|out.calls| == 3 ==>
                  && OfferedId(behave(out.calls[1], n + 1)).Some?
                  && var newSid := OfferedId(behave(out.calls[1], n + 1)).value;
                  && out.sent == Relabelled(behave(out.calls[2], n + 2), newSid)
                  && out.calls[2].input == [Request(q.body, false)]
                  && SessionIdOf(out.calls[2].headers) == Some(newSid)
                  && SessionIdOf(out.sent.headers) == Some(newSid))
  {
    MessagesAreComplete(Handled(c, r, behave, n, q, initBody, touch).sent);
    var hs := HeadersFor(r, q.headers, q.sid);
    NoSessionId(hs);
    forall sid: Sid, other: seq<Header>
      ensures SessionIdOf(Rewritten(other, sid)) == Some(sid)
    {
      RewrittenNamesSession(other, sid, sid);
    }
  }

  lemma {:induction false} NoSessionId(hs: seq<Header>)
    ensures SessionIdOf(WithoutSession(hs)) == None
  {
    if hs != [] {
      NoSessionId(hs[1..]);
      assert ([hs[0]] + WithoutSession(hs[1..]))[1..] == WithoutSession(hs[1..]);
    }
  }

  /** If `sid` is live at all, it belongs to `owner`. */
  predicate LiveOnlyFor(r: Registry, sid: Sid, owner: Owner) {
    r.Live(sid) ==> r.sessions[sid].owner == owner
  }

  /** No call carries the id of a live session of somebody else. */
  ghost predicate OwnedCalls(calls: seq<Call>, r: Registry, owner: Owner) {
    forall i, sid :: 0 <= i < |calls| && SessionIdOf(calls[i].headers) == Some(sid) ==> LiveOnlyFor(r, sid, owner)
  }

  /** The id under which the app would be called with these headers is nobody else's. */
  predicate FirstIsOwned(r: Registry, hs: seq<Header>, owner: Owner) {
    SessionIdOf(hs).Some? ==> LiveOnlyFor(r, SessionIdOf(hs).value, owner)
  }

  /** The owner check covers the id the app is called with: the headers are rewritten, or the
      request is refused, or the first session header is nobody else's. */
  predicate Covered(r: Registry, q: Incoming) {
    || HasRedirect(r, q.sid)
    || (r.Live(q.sid) && r.sessions[q.sid].owner != q.owner)
    || FirstIsOwned(r, q.headers, q.owner)
  }

  lemma TouchKeepsOthers(r: Registry, owner: Owner, sid: Sid, ttl: real, any: Sid)
    requires r.Live(sid) && r.sessions[sid].owner == owner
    ensures LiveOnlyFor(r.Touch(sid, ttl), any, owner) <==> LiveOnlyFor(r, any, owner)
  {
  }

  lemma ReinitKeepsOthers(c: Config, r: Registry, owner: Owner, sid: Sid, newSid: Sid, any: Sid)
    requires r.Live(sid) && r.sessions[sid].owner == owner && newSid !in r.sessions
    ensures LiveOnlyFor(Reinitialized(c, r, owner, sid, newSid), any, owner) <==> LiveOnlyFor(r, any, owner)
  {
  }

  /** An answer affects no session but the requester's. */
  lemma AnswerKeepsOthers(c: Config, r: Registry, behave: (Call, nat) -> Response, n: nat, hs: seq<Header>,
                          body: Bytes, owner: Owner, sid: Sid, initBody: Bytes, touch: bool, resp: Response, any: Sid)
    requires r.Live(sid) && r.sessions[sid].owner == owner
    ensures var out := Answered(c, r, behave, n, hs, body, owner, sid, initBody, touch, resp);
            LiveOnlyFor(out.reg, any, owner) <==> LiveOnlyFor(r, any, owner)
  {
    TouchKeepsOthers(r, owner, sid, c.ttl, any);
    var adopted := Adoptable(r, behave(InitCall(hs, initBody), n));
    if adopted.Some? {
      ReinitKeepsOthers(c, r, owner, sid, adopted.value, any);
    }
  }

  /** The calls after the first name no session, or one that was not there before. */
  lemma LaterCallsAreOwned(c: Config, r: Registry, behave: (Call, nat) -> Response, n: nat, hs: seq<Header>,
                           body: Bytes, owner: Owner, sid: Sid, initBody: Bytes, touch: bool, resp: Response)
    ensures OwnedCalls(Answered(c, r, behave, n, hs, body, owner, sid, initBody, touch, resp).calls, r, owner)
  {
    NoSessionId(hs);
    var adopted := Adoptable(r, behave(InitCall(hs, initBody), n));
    if adopted.Some? {
      RewrittenNamesSession(hs, adopted.value, adopted.value);
    }
  }

  lemma MoreCalls(call: Call, calls: seq<Call>, r: Registry, owner: Owner)
    requires OwnedCalls(calls, r, owner)
    ensures OwnedCalls([call] + calls, r, owner) <==> FirstIsOwned(r, call.headers, owner)
  {
    var all := [call] + calls;
    assert all[0] == call;
    assert forall i :: 0 < i < |all| ==> all[i] == calls[i - 1];
  }

  lemma SameOwnership(calls: seq<Call>, r: Registry, r': Registry, owner: Owner)
    requires forall sid :: LiveOnlyFor(r', sid, owner) <==> LiveOnlyFor(r, sid, owner)
    ensures OwnedCalls(calls, r', owner) <==> OwnedCalls(calls, r, owner)
  {
  }

  /** A POST or GET with a session id calls the app only under ids that are nobody else's,
      before it is handled and after, exactly if the owner check covers the id the app is
      called with. */
  lemma CallsAreOwnedIff(c: Config, r: Registry, behave: (Call, nat) -> Response, n: nat, q: Incoming,
                         initBody: Bytes, touch: bool)
    ensures var out := Handled(c, r, behave, n, q, initBody, touch);
            && (OwnedCalls(out.calls, r, q.owner) <==> Covered(r, q))
            && (OwnedCalls(out.calls, out.reg, q.owner) <==> Covered(r, q))
  {
    var target, hs := TargetOf(r, q.sid), HeadersFor(r, q.headers, q.sid);
    var call := Call(hs, q.input);
    RewrittenNamesSession(q.headers, target, target);
    if !r.Live(target) {
      MoreCalls(call, [], r, q.owner);
      assert [call] + [] == [call];
    } else if r.sessions[target].owner == q.owner {
      var resp := behave(call, n);
      var out := Answered(c, r, behave, n + 1, hs, q.body, q.owner, target, initBody, touch, resp);
      LaterCallsAreOwned(c, r, behave, n + 1, hs, q.body, q.owner, target, initBody, touch, resp);
      MoreCalls(call, out.calls, r, q.owner);
      forall sid
        ensures LiveOnlyFor(out.reg, sid, q.owner) <==> LiveOnlyFor(r, sid, q.owner)
      {
        AnswerKeepsOthers(c, r, behave, n + 1, hs, q.body, q.owner, target, initBody, touch, resp, sid);
      }
      SameOwnership([call] + out.calls, r, out.reg, q.owner);
    }
  }

  /** Whenever the id looked up is that of the first session header, no call of the app carries
      the id of a live session of somebody else: neither before nor after. */
  lemma CallsAreOwned(c: Config, r: Registry, behave: (Call, nat) -> Response, n: nat, q: Incoming,
                      initBody: Bytes, touch: bool)
    requires SessionIdOf(q.headers) == Some(q.sid)
    ensures var out := Handled(c, r, behave, n, q, initBody, touch);
            OwnedCalls(out.calls, r, q.owner) && OwnedCalls(out.calls, out.reg, q.owner)
  {
    CallsAreOwnedIff(c, r, behave, n, q, initBody, touch);
  }

  lemma {:induction false} OneHeaderIsFirst(hs: seq<Header>, sid: Sid)
    requires LookedUp(hs) == Some(sid) && forall h :: h in hs && h.name == SESSION_HEADER ==> h.value == sid.text
    ensures SessionIdOf(hs) == Some(sid)
  {
    FirstIffLast(hs);
    FirstIsAmong(hs);
  }

  lemma {:induction false} FirstIffLast(hs: seq<Header>)
    ensures SessionIdOf(hs).Some? <==> LastSession(hs).Some?
  {
    if hs != [] {
      FirstIffLast(hs[1..]);
    }
  }

  lemma {:induction false} FirstIsAmong(hs: seq<Header>)
    ensures SessionIdOf(hs).Some? ==> Header(SESSION_HEADER, SessionIdOf(hs).value.text) in hs
  {
    if hs != [] {
      FirstIsAmong(hs[1..]);
    }
  }

  // ---------------------------------------------------------------- whole requests

  /** A request as it arrives at the middleware's path, by its method; `q.sid` is not used. */
  function Dispatched(c: Config, r: Registry, behave: (Call, nat) -> Response, n: nat, verb: Verb, q: Incoming,
                      initBody: Bytes, debounce: map<Sid, real>, mono: real): Outcome
  {
    var sid := LookedUp(q.headers);
    if verb.Delete? then Deleted(r, behave, n, q.headers, q.input, sid)
    else if sid.Some? then
      Handled(c, r, behave, n, q.(sid := sid.value), initBody, TouchDue(debounce, TargetOf(r, sid.value), mono))
    else if verb.Post? then Initialized(c, r, behave, n, q.headers, q.input, q.owner)
    else Outcome(r, [Call(q.headers, q.input)], behave(Call(q.headers, q.input), n))
  }

  /** Whether the middleware's checks cover the id the app is called with.  A DELETE is not
      checked at all, and a request that names no session only against the limit. */
  predicate DispatchCovered(c: Config, r: Registry, verb: Verb, q: Incoming) {
    var sid := LookedUp(q.headers);
    if !verb.Delete? && sid.Some? then Covered(r, q.(sid := sid.value))
    else (verb.Post? && sid.None? && |r.Active(q.owner)| >= c.maxSessions) || FirstIsOwned(r, q.headers, q.owner)
  }

  /** Every request calls the app only under ids that are nobody else's exactly if the checks
      cover the id the app is called with. */
  lemma DispatchIsOwnedIff(c: Config, r: Registry, behave: (Call, nat) -> Response, n: nat, verb: Verb, q: Incoming,
                           initBody: Bytes, debounce: map<Sid, real>, mono: real)
    ensures OwnedCalls(Dispatched(c, r, behave, n, verb, q, initBody, debounce, mono).calls, r, q.owner) <==>
            DispatchCovered(c, r, verb, q)
  {
    var sid := LookedUp(q.headers);
    if !verb.Delete? && sid.Some? {
      var touch := TouchDue(debounce, TargetOf(r, sid.value), mono);
      CallsAreOwnedIff(c, r, behave, n, q.(sid := sid.value), initBody, touch);
    } else {
      MoreCalls(Call(q.headers, q.input), [], r, q.owner);
      assert [Call(q.headers, q.input)] + [] == [Call(q.headers, q.input)];
    }
  }

  /** A GET or POST that names one session, and only that one, never calls the app under the id
      of a live session of somebody else. */
  lemma OneHeaderIsOwned(c: Config, r: Registry, behave: (Call, nat) -> Response, n: nat, verb: Verb, q: Incoming,
                         initBody: Bytes, debounce: map<Sid, real>, mono: real, sid: Sid)
    requires !verb.Delete? && LookedUp(q.headers) == Some(sid)
    requires forall h :: h in q.headers && h.name == SESSION_HEADER ==> h.value == sid.text
    ensures var out := Dispatched(c, r, behave, n, verb, q, initBody, debounce, mono);
            OwnedCalls(out.calls, r, q.owner) && OwnedCalls(out.calls, out.reg, q.owner)
  {
    OneHeaderIsFirst(q.headers, sid);
    CallsAreOwned(c, r, behave, n, q.(sid := sid), initBody, TouchDue(debounce, TargetOf(r, sid), mono));
  }

  /** Two session headers: what the middleware looks up is not what the app is called with. */
  function TwoHeaders(first: Sid, last: Sid): seq<Header> {
    [Header(SESSION_HEADER, first.text), Header(SESSION_HEADER, last.text)]
  }

  /** The failing cases.  A GET or POST whose last session header names no session, or a live one
      of the requester's own, calls the app under the first one, whoever's it is; so does a POST
      whose last session header is empty. */
  lemma SecondHeaderHidesFirst(c: Config, r: Registry, behave: (Call, nat) -> Response, n: nat, verb: Verb, q: Incoming,
                               initBody: Bytes, debounce: map<Sid, real>, mono: real, first: Sid, last: Sid)
    requires q.headers == TwoHeaders(first, last) && !LiveOnlyFor(r, first, q.owner)
    requires !verb.Delete? && !HasRedirect(r, last) && LiveOnlyFor(r, last, q.owner)
    requires last.text == "" ==> |r.Active(q.owner)| < c.maxSessions
    ensures LookedUp(q.headers) == (if last.text == "" then None else Some(last))
    ensures !OwnedCalls(Dispatched(c, r, behave, n, verb, q, initBody, debounce, mono).calls, r, q.owner)
  {
    LookedUpSecond(first, last);
    DispatchIsOwnedIff(c, r, behave, n, verb, q, initBody, debounce, mono);
  }

  lemma LookedUpSecond(first: Sid, last: Sid)
    ensures SessionIdOf(TwoHeaders(first, last)) == Some(first)
    ensures LookedUp(TwoHeaders(first, last)) == if last.text == "" then None else Some(last)
  {
    var hs := TwoHeaders(first, last);
    assert hs[1..] == [Header(SESSION_HEADER, last.text)];
    assert LastSession(hs[1..]) == Some(last) by {
      assert hs[1..][1..] == [];
    }
  }

  /** After a migration the id the client used still leads to its session exactly when that id
      was not itself a redirected one: redirects are followed for one hop only. */
  lemma MigrationIsOneHop(c: Config, r: Registry, q: Incoming, newSid: Sid)
    requires c.ttl > 0.0 && c.grace > 0.0
    requires r.Live(TargetOf(r, q.sid)) && newSid !in r.sessions && newSid != q.sid
    ensures var r' := Reinitialized(c, r, q.owner, TargetOf(r, q.sid), newSid);
            && r'.Live(newSid) && r'.sessions[newSid].owner == q.owner
            && (r'.Live(TargetOf(r', q.sid)) <==> !HasRedirect(r, q.sid))
            && (!HasRedirect(r, q.sid) ==> TargetOf(r', q.sid) == newSid)
  {
  }

  /** After a DELETE the session is dead, no other id leads to it any more, and every id that
      did not lead to it leads where it did. */
  lemma TerminatedIsForgotten(r: Registry, sid: Sid, any: Sid)
    ensures var r' := r.Invalidate(sid).DropRedirectsTo(sid);
            && !r'.Live(sid)
            && (any != sid ==> TargetOf(r', any) == if TargetOf(r, any) == sid then any else TargetOf(r, any))
  {
  }
}
