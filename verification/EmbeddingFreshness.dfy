/**
 The embedding index: entries are embedded in the background from snapshots of their text,
 tasks finish in any order, and a stored hash of the embedded text tells stale vectors apart.
 A backfill embeds what is missing and re-embeds what is stale.

 Hashing and embedding are arbitrary functions; where noted, the hash has no collisions.
 */
module EmbeddingFreshness {
  import opened Options
  import opened Counting

  datatype Id = Id(text: string)
  datatype Text = Text(s: string)
  datatype Hash = Hash(hex: string)
  datatype Vector = Vector(values: seq<real>)

  /** An entry, as far as embeddings care: its composed text, and whether it is a suppression. */
  datatype Doc = Doc(text: Text, suppression: bool, live: bool)

  datatype Stored = Stored(hash: Hash, vector: Vector)

  datatype Provider = Provider(hash: Text -> Hash, embed: Text -> Vector) {
    ghost predicate CollisionFree() {
      forall t, u :: hash(t) == hash(u) ==> t == u
    }
  }

  type Docs = map<Id, Doc>
  type Index = map<Id, Stored>

  // ---------------------------------------------------------------- interleavings

  datatype Snapshot = Snapshot(id: Id, text: Text)

  /** A background task, or one phase of a backfill, between two of its steps.  The vectors the
      provider returned are matched with entries and hashes by position and stored one by one. */
  datatype Job =
    | Composed(work: seq<Snapshot>)
    | Hashed(work: seq<Snapshot>, hashes: seq<Hash>)
    | Storing(work: seq<Snapshot>, hashes: seq<Hash>, vectors: seq<Vector>, next: nat)

  datatype State = State(docs: Docs, index: Index, jobs: map<nat, Job>)

  const START := State(map[], map[], map[])

  datatype Event =
    | Write(id: Id, doc: Doc)                // insert, update, soft delete or restore
    | Purge(id: Id)                          // the row and its embedding disappear
    | Submit(j: nat, id: Id, text: Text)     // a background task with the text it was handed
    | Fetch(j: nat, ids: seq<Id>)            // a backfill phase reads rows
    | HashTexts(j: nat)
    | Answer(j: nat, vectors: seq<Vector>)   // by the provider, perhaps for the first texts only
    | Store(j: nat, ok: bool)                // the next embedding; a failed write is skipped
    | End(j: nat)                            // the job is done, or gives up

  /** The provider's vectors belong to the texts by position. */
  predicate Answers(p: Provider, work: seq<Snapshot>, vectors: seq<Vector>) {
    forall i :: 0 <= i < |vectors| && i < |work| ==> vectors[i] == p.embed(work[i].text)
  }

  predicate Enabled(p: Provider, s: State, ev: Event) {
    match ev
    case Write(_, _) => true
    case Purge(_) => true
    case Submit(j, _, _) => j !in s.jobs
    case Fetch(j, ids) => j !in s.jobs && forall id :: id in ids ==> id in s.docs
    case HashTexts(j) => j in s.jobs && s.jobs[j].Composed?
    case Answer(j, vectors) => j in s.jobs && s.jobs[j].Hashed? && Answers(p, s.jobs[j].work, vectors)
    case Store(j, _) => j in s.jobs && CanStore(s.jobs[j])
    case End(j) => true
  }

  /** The three lists go on. */
  predicate CanStore(job: Job) {
    job.Storing? && job.next < |job.work| && job.next < |job.hashes| && job.next < |job.vectors|
  }

  function Hashes(p: Provider, work: seq<Snapshot>): (hs: seq<Hash>)
    ensures |hs| == |work| && forall i :: 0 <= i < |work| ==> hs[i] == p.hash(work[i].text)
  {
    seq(|work|, i requires 0 <= i < |work| => p.hash(work[i].text))
  }

  function Snapshots(docs: Docs, ids: seq<Id>): (work: seq<Snapshot>)
    requires forall id :: id in ids ==> id in docs
    ensures |work| == |ids| && forall i :: 0 <= i < |ids| ==> work[i] == Snapshot(ids[i], docs[ids[i]].text)
  {
    seq(|ids|, i requires 0 <= i < |ids| => Snapshot(ids[i], docs[ids[i]].text))
  }

  /** An embedding is stored only for a row that exists. */
  function AfterStore(docs: Docs, index: Index, job: Job): Index
    requires CanStore(job)
  {
    var id := job.work[job.next].id;
    if id in docs then index[id := Stored(job.hashes[job.next], job.vectors[job.next])] else index
  }

  /** One step; an event that is not enabled changes nothing. */
  function Next(p: Provider, s: State, ev: Event): State {
    if !Enabled(p, s, ev) then s
    else match ev
      case Write(id, doc) => s.(docs := s.docs[id := doc])
      case Purge(id) => s.(docs := s.docs - {id}, index := s.index - {id})
      case Submit(j, id, text) => s.(jobs := s.jobs[j := Composed([Snapshot(id, text)])])
      case Fetch(j, ids) => s.(jobs := s.jobs[j := Composed(Snapshots(s.docs, ids))])
      case HashTexts(j) => s.(jobs := s.jobs[j := Hashed(s.jobs[j].work, Hashes(p, s.jobs[j].work))])
      case Answer(j, vectors) =>
        s.(jobs := s.jobs[j := Storing(s.jobs[j].work, s.jobs[j].hashes, vectors, 0)])
      case Store(j, ok) =>
        State(s.docs, if ok then AfterStore(s.docs, s.index, s.jobs[j]) else s.index,
              s.jobs[j := s.jobs[j].(next := s.jobs[j].next + 1)])
      case End(j) => s.(jobs := s.jobs - {j})
  }

  function Run(p: Provider, evs: seq<Event>): State {
    if evs == [] then START else Next(p, Run(p, evs[..|evs| - 1]), evs[|evs| - 1])
  }

  /** The snapshot whose embedding an event stores, if it stores one. */
  function StoredBy(p: Provider, s: State, ev: Event): Option<Snapshot> {
    if ev.Store? && ev.ok && Enabled(p, s, ev) && s.jobs[ev.j].work[s.jobs[ev.j].next].id in s.docs
    then Some(s.jobs[ev.j].work[s.jobs[ev.j].next])
    else None
  }

  /** The text carried by the last job that stored an embedding of `id`, since it was last purged. */
  function LastStored(p: Provider, evs: seq<Event>, id: Id): Option<Text> {
    if evs == [] then None
    else
      var before, ev := evs[..|evs| - 1], evs[|evs| - 1];
      var stored := StoredBy(p, Run(p, before), ev);
      if stored.Some? && stored.value.id == id then Some(stored.value.text)
      else if ev == Purge(id) then None
      else LastStored(p, before, id)
  }

  /** What a job holds between its steps belongs together by position. */
  ghost predicate JobOk(p: Provider, job: Job) {
    && (!job.Composed? ==> job.hashes == Hashes(p, job.work))
    && (job.Storing? ==> Answers(p, job.work, job.vectors))
  }

  ghost predicate JobsOk(p: Provider, s: State) {
    forall j :: j in s.jobs ==> JobOk(p, s.jobs[j])
  }

  lemma {:induction false} RunKeepsJobs(p: Provider, evs: seq<Event>)
    ensures JobsOk(p, Run(p, evs))
    decreases |evs|
  {
    if evs != [] {
      RunKeepsJobs(p, evs[..|evs| - 1]);
    }
  }

  /** The index holds, beside each other, the hash and the vector of `t`. */
  ghost predicate Holds(p: Provider, index: Index, id: Id, t: Option<Text>) {
    if t.Some? then id in index && index[id] == Stored(p.hash(t.value), p.embed(t.value)) else id !in index
  }

  lemma StepHolds(p: Provider, s: State, ev: Event, id: Id, t: Option<Text>)
    requires JobsOk(p, s) && Holds(p, s.index, id, t)
    ensures var stored := StoredBy(p, s, ev);
            Holds(p, Next(p, s, ev).index, id,
                  if stored.Some? && stored.value.id == id then Some(stored.value.text)
                  else if ev == Purge(id) then None else t)
  {
    if ev.Store? && Enabled(p, s, ev) {
      assert JobOk(p, s.jobs[ev.j]);
    }
  }

  /** In every interleaving what is stored for an entry is the embedding, and beside it the
      hash, of the text carried by the last job that stored one. */
  lemma {:induction false} IndexIsLastStored(p: Provider, evs: seq<Event>, id: Id)
    ensures Holds(p, Run(p, evs).index, id, LastStored(p, evs, id))
    decreases |evs|
  {
    if evs != [] {
      var before := evs[..|evs| - 1];
      RunKeepsJobs(p, before);
      IndexIsLastStored(p, before, id);
      StepHolds(p, Run(p, before), evs[|evs| - 1], id, LastStored(p, before, id));
    }
  }

  /** The test of `get_stale_embeddings`. */
  predicate Stale(p: Provider, docs: Docs, index: Index, id: Id) {
    id in docs && id in index && p.hash(docs[id].text) != index[id].hash
  }

  predicate Current(p: Provider, docs: Docs, index: Index, id: Id) {
    id in docs && id in index && index[id] == Stored(p.hash(docs[id].text), p.embed(docs[id].text))
  }

  /** Every stored vector is the embedding of the very text whose hash is stored beside it. */
  ghost predicate Paired(p: Provider, index: Index) {
    forall id :: id in index ==> exists t :: Holds(p, index, id, Some(t))
  }

  lemma RunKeepsPaired(p: Provider, evs: seq<Event>)
    ensures Paired(p, Run(p, evs).index)
  {
    forall id | id in Run(p, evs).index
      ensures exists t :: Holds(p, Run(p, evs).index, id, Some(t))
    {
      IndexIsLastStored(p, evs, id);
      assert Holds(p, Run(p, evs).index, id, Some(LastStored(p, evs, id).value));
    }
  }

  /** In every interleaving an entry is current exactly when the last job that stored its
      embedding carried its present text, and reported stale exactly when that job carried
      another one: whatever the order of the writes and of the jobs. */
  lemma CurrentIffLastStored(p: Provider, evs: seq<Event>, id: Id)
    requires p.CollisionFree() && id in Run(p, evs).docs
    ensures var s, last := Run(p, evs), LastStored(p, evs, id);
            && (Current(p, s.docs, s.index, id) <==> last == Some(s.docs[id].text))
            && (Stale(p, s.docs, s.index, id) <==> last.Some? && last.value != s.docs[id].text)
  {
    IndexIsLastStored(p, evs, id);
  }

  /** No job still holds another text of `id`. */
  ghost predicate NothingElsePending(s: State, id: Id, text: Text) {
    forall j, i :: j in s.jobs && 0 <= i < |s.jobs[j].work| && s.jobs[j].work[i].id == id ==>
      s.jobs[j].work[i].text == text
  }

  /** The event neither changes the entry nor hands another text of it to a task. */
  predicate LeavesAlone(ev: Event, id: Id, text: Text) {
    match ev
    case Write(x, doc) => x == id ==> doc.text == text
    case Purge(x) => x != id
    case Submit(_, x, t) => x == id ==> t == text
    case _ => true
  }

  ghost predicate Settled(p: Provider, s: State, id: Id, text: Text) {
    && NothingElsePending(s, id, text)
    && id in s.docs && s.docs[id].text == text && Current(p, s.docs, s.index, id)
  }

  lemma StepKeepsSettled(p: Provider, s: State, ev: Event, id: Id, text: Text)
    requires JobsOk(p, s) && Settled(p, s, id, text) && LeavesAlone(ev, id, text)
    ensures Settled(p, Next(p, s, ev), id, text)
  {
    if ev.Store? && Enabled(p, s, ev) {
      assert JobOk(p, s.jobs[ev.j]);
    }
  }

  /** Once an entry is current and no job holds another of its texts, it stays current however
      the run goes on, until its text changes. */
  lemma {:induction false} StaysCurrent(p: Provider, evs: seq<Event>, more: seq<Event>, id: Id, text: Text)
    requires Settled(p, Run(p, evs), id, text) && forall ev :: ev in more ==> LeavesAlone(ev, id, text)
    ensures Settled(p, Run(p, evs + more), id, text)
    decreases |more|
  {
    if more == [] {
      assert evs + more == evs;
    } else {
      var n := |more| - 1;
      StaysCurrent(p, evs, more[..n], id, text);
      assert (evs + more)[..|evs + more| - 1] == evs + more[..n];
      RunKeepsJobs(p, evs + more[..n]);
      StepKeepsSettled(p, Run(p, evs + more[..n]), more[n], id, text);
    }
  }

  // ---------------------------------------------------------------- listings

  /** The rows of a listing that satisfy a test, at most `limit` of them. */
  function Select(listing: seq<Id>, test: Id -> bool, limit: nat): seq<Id> {
    if listing == [] || limit == 0 then []
    else if test(listing[0]) then [listing[0]] + Select(listing[1..], test, limit - 1)
    else Select(listing[1..], test, limit)
  }

  function Count(listing: seq<Id>, test: Id -> bool): nat {
    if listing == [] then 0 else (if test(listing[0]) then 1 else 0) + Count(listing[1..], test)
  }

  predicate Distinct(listing: seq<Id>) {
    forall i, j :: 0 <= i < j < |listing| ==> listing[i] != listing[j]
  }

  lemma {:induction false} SelectFacts(listing: seq<Id>, test: Id -> bool, limit: nat)
    ensures |Select(listing, test, limit)| <= limit
    ensures forall id :: id in Select(listing, test, limit) ==> id in listing && test(id)
    ensures |listing| <= limit ==> forall id :: id in listing && test(id) ==> id in Select(listing, test, limit)
  {
    if listing != [] && limit > 0 {
      SelectFacts(listing[1..], test, if test(listing[0]) then limit - 1 else limit);
    }
  }

  /** A row is selected exactly when it passes the test and fewer than `limit` rows before it do. */
  lemma {:induction false} SelectedIff(listing: seq<Id>, test: Id -> bool, limit: nat, i: nat)
    requires Distinct(listing) && i < |listing|
    ensures listing[i] in Select(listing, test, limit) <==> test(listing[i]) && Count(listing[..i], test) < limit
  {
    if limit > 0 {
      var rest := if test(listing[0]) then limit - 1 else limit;
      SelectFacts(listing[1..], test, rest);
      if i > 0 {
        SelectedIff(listing[1..], test, rest, i - 1);
        assert listing[..i][1..] == listing[1..][..i - 1];
      }
    }
  }

  lemma {:induction false} CountFewer(listing: seq<Id>, test: Id -> bool, wider: Id -> bool)
    requires forall id :: id in listing && test(id) ==> wider(id)
    ensures Count(listing, test) <= Count(listing, wider)
  {
    if listing != [] {
      CountFewer(listing[1..], test, wider);
    }
  }

  /** Counting in a front part of the listing. */
  lemma {:induction false} CountPrefix(listing: seq<Id>, test: Id -> bool, i: nat)
    requires i < |listing| && test(listing[i])
    ensures Count(listing[..i], test) < Count(listing, test)
  {
    if i > 0 {
      CountPrefix(listing[1..], test, i - 1);
      assert listing[..i][1..] == listing[1..][..i - 1];
    }
  }

  lemma {:induction false} FirstSelected(listing: seq<Id>, test: Id -> bool)
    ensures Select(listing, test, 1) == [] <==> forall id :: id in listing ==> !test(id)
  {
    if listing != [] {
      FirstSelected(listing[1..], test);
    }
  }

  // ---------------------------------------------------------------- the backfill

  /** What becomes of one phase: how many vectors the provider returns (none when it fails), and
      the positions whose write fails. */
  datatype Luck = Luck(vectors: nat, failed: set<nat>)

  /** Every vector arrives and every write succeeds, for up to `n` rows. */
  function Full(n: nat): Luck {
    Luck(n, {})
  }

  predicate Succeeds(luck: Luck, k: nat) {
    k < luck.vectors && k !in luck.failed
  }

  /** The positions below `n` that are stored. */
  function Positions(luck: Luck, n: nat): set<nat> {
    set k: nat | k < n && Succeeds(luck, k)
  }

  /** The ids whose embedding is stored. */
  ghost function Written(ids: seq<Id>, luck: Luck): set<Id> {
    set k: nat | k < |ids| && Succeeds(luck, k) :: ids[k]
  }

  ghost function Refreshed(p: Provider, docs: Docs, index: Index, ids: set<Id>): Index {
    index + map id | id in ids && id in docs :: Stored(p.hash(docs[id].text), p.embed(docs[id].text))
  }

  /** The live entries with no embedding, suppressions excepted. */
  function Missing(docs: Docs, index: Index): Id -> bool {
    id => id in docs && docs[id].live && !docs[id].suppression && id !in index
  }

  /** The live entries with an embedding: the limit cuts these before staleness is tested. */
  function Embedded(docs: Docs, index: Index): Id -> bool {
    id => id in docs && docs[id].live && id in index
  }

  /** The stale ones among `ids`, in order. */
  function StaleAmong(p: Provider, docs: Docs, index: Index, ids: seq<Id>): seq<Id> {
    if ids == [] then []
    else
      var front, last := ids[..|ids| - 1], ids[|ids| - 1];
      StaleAmong(p, docs, index, front) + if Stale(p, docs, index, last) then [last] else []
  }

  lemma {:induction false} StaleAmongIff(p: Provider, docs: Docs, index: Index, ids: seq<Id>)
    ensures |StaleAmong(p, docs, index, ids)| <= |ids|
    ensures forall id :: id in StaleAmong(p, docs, index, ids) <==> id in ids && Stale(p, docs, index, id)
  {
    if ids != [] {
      StaleAmongIff(p, docs, index, ids[..|ids| - 1]);
      assert ids == ids[..|ids| - 1] + [ids[|ids| - 1]];
    }
  }

  /** What `get_stale_embeddings` returns. */
  function StalePage(p: Provider, listing: seq<Id>, docs: Docs, index: Index, limit: nat): seq<Id> {
    StaleAmong(p, docs, index, Select(listing, Embedded(docs, index), limit))
  }

  /** The index after the first phase. */
  ghost function Added(p: Provider, listing: seq<Id>, docs: Docs, index: Index, limit: nat, luck: Luck): Index {
    Refreshed(p, docs, index, Written(Select(listing, Missing(docs, index), limit), luck))
  }

  /** The index after the second phase. */
  ghost function Restored(p: Provider, listing: seq<Id>, docs: Docs, index: Index, limit: nat, luck: Luck): Index {
    Refreshed(p, docs, index, Written(StalePage(p, listing, docs, index, limit), luck))
  }

  class EmbeddingStore {
    const provider: Provider
    /** Every id, most recently changed first. */
    var listing: seq<Id>
    var docs: Docs
    var index: Index

    constructor (provider: Provider)
      ensures this.provider == provider && listing == [] && docs == map[] && index == map[]
    {
      this.provider := provider;
      listing, docs, index := [], map[], map[];
    }

    /** Examines the first `limit` embedded entries and keeps the stale ones. */
    method GetStale(limit: nat) returns (stale: seq<Id>)
      ensures stale == StalePage(provider, listing, docs, index, limit)
      ensures forall id :: id in stale ==> id in docs
    {
      var rows := Select(listing, Embedded(docs, index), limit);
      SelectFacts(listing, Embedded(docs, index), limit);
      stale := [];
      for i := 0 to |rows|
        invariant stale == StaleAmong(provider, docs, index, rows[..i])
      {
        assert rows[..i + 1][..i] == rows[..i];
        assert Embedded(docs, index)(rows[i]);
        if provider.hash(docs[rows[i]].text) != index[rows[i]].hash {
          stale := stale + [rows[i]];
        }
      }
      assert rows[..|rows|] == rows;
      StaleAmongIff(provider, docs, index, rows);
    }

    /** One phase for the rows `ids`: texts, hashes and vectors are matched by position, and each
        embedding is stored on its own. */
    method EmbedRows(ids: seq<Id>, luck: Luck) returns (count: nat)
      requires forall id :: id in ids ==> id in docs
      modifies this`index
      ensures index == Refreshed(provider, docs, old(index), Written(ids, luck))
      ensures count == |Positions(luck, |ids|)|
    {
      var work := Snapshots(docs, ids);
      var hashes := Hashes(provider, work);
      var vectors := Vectors(provider, work, luck);
      ghost var before := index;
      count := 0;
      var n := if |vectors| < |ids| then |vectors| else |ids|;
      for i := 0 to n
        invariant index == Refreshed(provider, docs, before, Written(ids[..i], luck))
        invariant count == |Positions(luck, i)|
      {
        WrittenOneMore(ids, luck, i);
        RefreshOneMore(provider, docs, before, Written(ids[..i], luck), ids[i]);
        if i !in luck.failed {
          index := index[ids[i] := Stored(hashes[i], vectors[i])];
          count := count + 1;
        }
      }
      WrittenAll(ids, luck, n);
    }

    /** Both phases.  `remaining` is 0 exactly when no entry lacks an embedding. */
    method Backfill(limit: nat, first: Luck, second: Luck) returns (added: nat, refreshed: nat, remaining: nat)
      requires ListsAll(listing, docs)
      modifies this`index
      ensures var mid := Added(provider, listing, docs, old(index), limit, first);
              && index == Restored(provider, listing, docs, mid, limit, second)
              && added == |Positions(first, |Select(listing, Missing(docs, old(index)), limit)|)|
              && refreshed == |Positions(second, |StalePage(provider, listing, docs, mid, limit)|)|
      ensures remaining == 0 <==>
              forall id :: id in docs && docs[id].live && !docs[id].suppression ==> id in index
    {
      var missing := Select(listing, Missing(docs, index), limit);
      SelectFacts(listing, Missing(docs, index), limit);
      assert forall id :: id in missing ==> Missing(docs, index)(id);
      added := EmbedRows(missing, first);
      var stale := GetStale(limit);
      refreshed := EmbedRows(stale, second);
      remaining := |Select(listing, Missing(docs, index), 1)|;
      FirstSelected(listing, Missing(docs, index));
      assert remaining == 0 <==> forall id :: id in listing ==> !Missing(docs, index)(id);
    }
  }

  predicate ListsAll(listing: seq<Id>, docs: Docs) {
    forall id :: id in docs ==> id in listing
  }

  /** The vectors the provider returns: those of the first texts. */
  function Vectors(p: Provider, work: seq<Snapshot>, luck: Luck): (vs: seq<Vector>)
    ensures Answers(p, work, vs)
    ensures |vs| == if luck.vectors < |work| then luck.vectors else |work|
  {
    seq(if luck.vectors < |work| then luck.vectors else |work|, i requires 0 <= i < |work| => p.embed(work[i].text))
  }

  lemma WrittenOneMore(ids: seq<Id>, luck: Luck, i: nat)
    requires i < |ids|
    ensures Written(ids[..i + 1], luck) == Written(ids[..i], luck) + if Succeeds(luck, i) then {ids[i]} else {}
    ensures |Positions(luck, i + 1)| == |Positions(luck, i)| + if Succeeds(luck, i) then 1 else 0
  {
    assert Positions(luck, i + 1) == Positions(luck, i) + if Succeeds(luck, i) then {i} else {};
    var more := Written(ids[..i + 1], luck);
    if Succeeds(luck, i) {
      assert ids[..i + 1][i] in more;
    }
    forall k: nat | k < i && Succeeds(luck, k)
      ensures ids[k] in more
    {
      assert ids[..i + 1][k] == ids[k];
    }
  }

  lemma WrittenAll(ids: seq<Id>, luck: Luck, n: nat)
    requires n <= |ids| && (n < |ids| ==> n == luck.vectors)
    ensures Written(ids[..n], luck) == Written(ids, luck)
    ensures Positions(luck, n) == Positions(luck, |ids|)
  {
    forall k: nat | k < |ids| && Succeeds(luck, k)
      ensures ids[k] in Written(ids[..n], luck)
    {
      assert ids[..n][k] == ids[k];
    }
  }

  lemma RefreshOneMore(p: Provider, docs: Docs, index: Index, ids: set<Id>, id: Id)
    requires id in docs
    ensures Refreshed(p, docs, index, ids + {id}) ==
            Refreshed(p, docs, index, ids)[id := Stored(p.hash(docs[id].text), p.embed(docs[id].text))]
    ensures Refreshed(p, docs, index, ids + {}) == Refreshed(p, docs, index, ids)
  {
    assert ids + {} == ids;
  }

  lemma {:induction false} CountIsSize(listing: seq<Id>, test: Id -> bool)
    ensures Count(listing, test) == |Satisfying(listing, test)|
  {
    if listing != [] {
      CountIsSize(listing[1..], test);
      SatisfyingFirst(listing, test);
    }
  }

  /** The first phase embeds exactly the live entries without an embedding, suppressions excepted,
      that have fewer than `limit` such entries before them in the listing. */
  lemma FirstPhaseRows(listing: seq<Id>, docs: Docs, index: Index, limit: nat, i: nat, before: set<nat>)
    requires ListsOnce(listing, docs) && i < |listing|
    requires before == set j: nat | && j < i && docs[listing[j]].live && !docs[listing[j]].suppression
                                    && listing[j] !in index
    ensures listing[i] in Select(listing, Missing(docs, index), limit) <==>
              && docs[listing[i]].live && !docs[listing[i]].suppression && listing[i] !in index
              && |before| < limit
  {
    SelectedIff(listing, Missing(docs, index), limit, i);
    CountIsSize(listing[..i], Missing(docs, index));
    assert before == Satisfying(listing[..i], Missing(docs, index));
  }

  /** The second phase re-embeds exactly the live entries whose stored hash is not that of their
      text and that have fewer than `limit` live embedded entries before them. */
  lemma SecondPhaseRows(p: Provider, listing: seq<Id>, docs: Docs, index: Index, limit: nat, i: nat, before: set<nat>)
    requires ListsOnce(listing, docs) && i < |listing|
    requires before == set j: nat | j < i && docs[listing[j]].live && listing[j] in index
    ensures listing[i] in StalePage(p, listing, docs, index, limit) <==>
              && docs[listing[i]].live && listing[i] in index
              && index[listing[i]].hash != p.hash(docs[listing[i]].text)
              && |before| < limit
  {
    SelectedIff(listing, Embedded(docs, index), limit, i);
    CountIsSize(listing[..i], Embedded(docs, index));
    assert before == Satisfying(listing[..i], Embedded(docs, index));
    StaleAmongIff(p, docs, index, Select(listing, Embedded(docs, index), limit));
  }

  /** The listing is that of the entries, each once. */
  predicate ListsOnce(listing: seq<Id>, docs: Docs) {
    Distinct(listing) && forall id :: id in listing ==> id in docs
  }

  /** Storing the embeddings of some rows: the row at a position gets the hash and the vector of
      its own text exactly if the vector came and the write succeeded, and no other row changes. */
  lemma RowsByPosition(p: Provider, docs: Docs, index: Index, ids: seq<Id>, luck: Luck, k: nat, id: Id)
    requires ListsOnce(ids, docs) && k < |ids|
    ensures var after := Refreshed(p, docs, index, Written(ids, luck));
            && (k < luck.vectors && k !in luck.failed ==>
                  ids[k] in after && after[ids[k]] == Stored(p.hash(docs[ids[k]].text), p.embed(docs[ids[k]].text)))
            && (k >= luck.vectors || k in luck.failed ==>
                  (ids[k] in after <==> ids[k] in index) && (ids[k] in index ==> after[ids[k]] == index[ids[k]]))
            && (id !in ids ==> (id in after <==> id in index) && (id in index ==> after[id] == index[id]))
    ensures |Positions(luck, |ids|)| == |set n: nat | n < |ids| && n < luck.vectors && n !in luck.failed|
  {
    assert Succeeds(luck, k) <==> ids[k] in Written(ids, luck);
    assert Positions(luck, |ids|) == set n: nat | n < |ids| && n < luck.vectors && n !in luck.failed;
  }

  // ---------------------------------------------------------------- a phase is a job

  /** The state after `n` writes of job `j`, with nothing in between. */
  function StoreAll(p: Provider, s: State, j: nat, luck: Luck, n: nat): State {
    if n == 0 then s else Next(p, StoreAll(p, s, j, luck, n - 1), Store(j, n - 1 !in luck.failed))
  }

  /** The job of a phase after `n` writes. */
  function Ready(p: Provider, docs: Docs, ids: seq<Id>, luck: Luck, n: nat): Job
    requires forall id :: id in ids ==> id in docs
  {
    var work := Snapshots(docs, ids);
    Storing(work, Hashes(p, work), Vectors(p, work, luck), n)
  }

  lemma StoreOneMore(p: Provider, s: State, j: nat, ids: seq<Id>, luck: Luck, n: nat)
    requires n < |ids| && n < luck.vectors && forall id :: id in ids ==> id in s.docs
    requires j in s.jobs && s.jobs[j] == Ready(p, s.docs, ids, luck, n)
    ensures var text := s.docs[ids[n]].text;
            Next(p, s, Store(j, n !in luck.failed)) ==
            State(s.docs, if n in luck.failed then s.index else s.index[ids[n] := Stored(p.hash(text), p.embed(text))],
                  s.jobs[j := Ready(p, s.docs, ids, luck, n + 1)])
  {
  }

  lemma WrittenRefreshes(p: Provider, docs: Docs, index: Index, ids: seq<Id>, luck: Luck, n: nat)
    requires n < |ids| && forall id :: id in ids ==> id in docs
    ensures var text, before := docs[ids[n]].text, Refreshed(p, docs, index, Written(ids[..n], luck));
            Refreshed(p, docs, index, Written(ids[..n + 1], luck)) ==
            if Succeeds(luck, n) then before[ids[n] := Stored(p.hash(text), p.embed(text))] else before
  {
    WrittenOneMore(ids, luck, n);
    RefreshOneMore(p, docs, index, Written(ids[..n], luck), ids[n]);
  }

  lemma {:induction false} StoreAllRefreshes(p: Provider, s: State, j: nat, ids: seq<Id>, luck: Luck, n: nat)
    requires n <= |ids| && n <= luck.vectors && forall id :: id in ids ==> id in s.docs
    requires j in s.jobs && s.jobs[j] == Ready(p, s.docs, ids, luck, 0)
    ensures StoreAll(p, s, j, luck, n) == State(s.docs, Refreshed(p, s.docs, s.index, Written(ids[..n], luck)),
                                                s.jobs[j := Ready(p, s.docs, ids, luck, n)])
  {
    if n == 0 {
      assert s.jobs[j := s.jobs[j]] == s.jobs;
    } else {
      var before := StoreAll(p, s, j, luck, n - 1);
      StoreAllRefreshes(p, s, j, ids, luck, n - 1);
      StoreOneMore(p, before, j, ids, luck, n - 1);
      WrittenRefreshes(p, s.docs, s.index, ids, luck, n - 1);
      assert before.jobs[j := Ready(p, s.docs, ids, luck, n)] == s.jobs[j := Ready(p, s.docs, ids, luck, n)];
    }
  }

  /** The steps of a phase up to the first write. */
  function Prepared(p: Provider, s: State, j: nat, ids: seq<Id>, luck: Luck): State
    requires forall id :: id in ids ==> id in s.docs
  {
    var hashed := Next(p, Next(p, s, Fetch(j, ids)), HashTexts(j));
    Next(p, hashed, Answer(j, Vectors(p, Snapshots(s.docs, ids), luck)))
  }

  /** A phase of the backfill, step by step and undisturbed. */
  function Phase(p: Provider, s: State, j: nat, ids: seq<Id>, luck: Luck): State
    requires forall id :: id in ids ==> id in s.docs
  {
    var n := if luck.vectors < |ids| then luck.vectors else |ids|;
    Next(p, StoreAll(p, Prepared(p, s, j, ids, luck), j, luck, n), End(j))
  }

  lemma PreparedJob(p: Provider, s: State, j: nat, ids: seq<Id>, luck: Luck)
    requires j !in s.jobs && forall id :: id in ids ==> id in s.docs
    ensures Prepared(p, s, j, ids, luck) == s.(jobs := s.jobs[j := Ready(p, s.docs, ids, luck, 0)])
  {
    var work := Snapshots(s.docs, ids);
    var s1 := Next(p, s, Fetch(j, ids));
    assert s1 == s.(jobs := s.jobs[j := Composed(work)]);
    var s2 := Next(p, s1, HashTexts(j));
    assert s2 == s.(jobs := s.jobs[j := Hashed(work, Hashes(p, work))]);
  }

  /** An undisturbed job leaves the index that `EmbedRows` leaves. */
  lemma PhaseRefreshes(p: Provider, s: State, j: nat, ids: seq<Id>, luck: Luck)
    requires j !in s.jobs && forall id :: id in ids ==> id in s.docs
    ensures Phase(p, s, j, ids, luck) == s.(index := Refreshed(p, s.docs, s.index, Written(ids, luck)))
  {
    var n := if luck.vectors < |ids| then luck.vectors else |ids|;
    PreparedJob(p, s, j, ids, luck);
    var ready := Prepared(p, s, j, ids, luck);
    StoreAllRefreshes(p, ready, j, ids, luck, n);
    WrittenAll(ids, luck, n);
    assert ready.jobs[j := Ready(p, s.docs, ids, luck, n)] - {j} == s.jobs;
  }

  // ---------------------------------------------------------------- what a backfill repairs

  /** Both phases with every vector and every write succeeding. */
  ghost function Backfilled(p: Provider, listing: seq<Id>, docs: Docs, index: Index, limit: nat): Index {
    Restored(p, listing, docs, Added(p, listing, docs, index, limit, Full(limit)), limit, Full(limit))
  }

  lemma FullWritesAll(ids: seq<Id>, limit: nat)
    requires |ids| <= limit
    ensures forall id :: id in Written(ids, Full(limit)) <==> id in ids
  {
    forall id | id in ids
      ensures id in Written(ids, Full(limit))
    {
      var k :| 0 <= k < |ids| && ids[k] == id;
      assert Succeeds(Full(limit), k);
    }
  }

  lemma AddedWhich(p: Provider, listing: seq<Id>, docs: Docs, index: Index, limit: nat)
    ensures forall id :: id in Written(Select(listing, Missing(docs, index), limit), Full(limit)) <==>
              id in Select(listing, Missing(docs, index), limit)
  {
    SelectFacts(listing, Missing(docs, index), limit);
    FullWritesAll(Select(listing, Missing(docs, index), limit), limit);
  }

  lemma RestoredWhich(p: Provider, listing: seq<Id>, docs: Docs, index: Index, limit: nat)
    ensures forall id :: id in Written(StalePage(p, listing, docs, index, limit), Full(limit)) <==>
              id in Select(listing, Embedded(docs, index), limit) && Stale(p, docs, index, id)
  {
    SelectFacts(listing, Embedded(docs, index), limit);
    StaleAmongIff(p, docs, index, Select(listing, Embedded(docs, index), limit));
    FullWritesAll(StalePage(p, listing, docs, index, limit), limit);
  }

  /** The live entries that have an embedding already, or are among the first `limit` that miss one. */
  predicate IsCompeting(listing: seq<Id>, docs: Docs, index: Index, limit: nat, id: Id) {
    Embedded(docs, index)(id) || id in Select(listing, Missing(docs, index), limit)
  }

  function Competes(listing: seq<Id>, docs: Docs, index: Index, limit: nat): Id -> bool {
    id => IsCompeting(listing, docs, index, limit, id)
  }

  /** What re-embedding the rows `ids` leaves at `id`. */
  lemma RefreshedAt(p: Provider, docs: Docs, index: Index, ids: set<Id>, id: Id)
    ensures var after := Refreshed(p, docs, index, ids);
            if id in ids && id in docs then Current(p, docs, after, id)
            else (id in after <==> id in index) && (id in index ==> after[id] == index[id])
  {
  }

  lemma AddedEmbeds(p: Provider, listing: seq<Id>, docs: Docs, index: Index, limit: nat, id: Id)
    ensures Embedded(docs, Added(p, listing, docs, index, limit, Full(limit)))(id) <==>
            Competes(listing, docs, index, limit)(id)
  {
    AddedWhich(p, listing, docs, index, limit);
    SelectFacts(listing, Missing(docs, index), limit);
    var page := Select(listing, Missing(docs, index), limit);
    var mid := Added(p, listing, docs, index, limit, Full(limit));
    RefreshedAt(p, docs, index, Written(page, Full(limit)), id);
    if id in page {
      assert Missing(docs, index)(id);
      assert id in mid;
    } else {
      assert id in mid <==> id in index;
    }
  }

  /** An entry that has an embedding keeps one, and the first phase leaves it alone. */
  lemma EmbeddingStays(p: Provider, listing: seq<Id>, docs: Docs, index: Index, limit: nat, id: Id)
    requires id in index
    ensures var mid := Added(p, listing, docs, index, limit, Full(limit)); id in mid && mid[id] == index[id]
    ensures id in Restored(p, listing, docs, index, limit, Full(limit))
  {
    AddedWhich(p, listing, docs, index, limit);
    SelectFacts(listing, Missing(docs, index), limit);
    assert !Missing(docs, index)(id);
    RefreshedAt(p, docs, index, Written(Select(listing, Missing(docs, index), limit), Full(limit)), id);
    RefreshedAt(p, docs, index, Written(StalePage(p, listing, docs, index, limit), Full(limit)), id);
  }

  lemma {:induction false} CountSame(listing: seq<Id>, test: Id -> bool, other: Id -> bool)
    requires forall id :: id in listing ==> test(id) == other(id)
    ensures Count(listing, test) == Count(listing, other)
  {
    CountFewer(listing, test, other);
    CountFewer(listing, other, test);
  }

  /** Which embedded rows the second phase examines. */
  lemma ExaminedIff(p: Provider, listing: seq<Id>, docs: Docs, index: Index, limit: nat, i: nat)
    requires Distinct(listing) && i < |listing| && listing[i] in index
    ensures var mid := Added(p, listing, docs, index, limit, Full(limit));
            listing[i] in Select(listing, Embedded(docs, mid), limit) <==>
            Embedded(docs, index)(listing[i]) && WithinReach(listing, docs, index, limit, i)
  {
    var mid := Added(p, listing, docs, index, limit, Full(limit));
    EmbeddingStays(p, listing, docs, index, limit, listing[i]);
    SelectedIff(listing, Embedded(docs, mid), limit, i);
    forall x
      ensures Embedded(docs, mid)(x) == Competes(listing, docs, index, limit)(x)
    {
      AddedEmbeds(p, listing, docs, index, limit, x);
    }
    CountSame(listing[..i], Embedded(docs, mid), Competes(listing, docs, index, limit));
  }

  /** Whether fewer than `limit` rows that compete for the second phase come before row `i`. */
  predicate WithinReach(listing: seq<Id>, docs: Docs, index: Index, limit: nat, i: nat)
    requires i < |listing|
  {
    Count(listing[..i], Competes(listing, docs, index, limit)) < limit
  }

  /** A backfill in which everything succeeds makes a stale entry current exactly when it is live
      and fewer than `limit` live entries before it in the listing have an embedding or get one
      in the first phase: staleness further down is never looked at. */
  lemma RepairedIff(p: Provider, listing: seq<Id>, docs: Docs, index: Index, limit: nat, i: nat)
    requires Distinct(listing) && i < |listing| && Stale(p, docs, index, listing[i])
    ensures var after := Backfilled(p, listing, docs, index, limit);
            && (Current(p, docs, after, listing[i]) <==>
                  docs[listing[i]].live && WithinReach(listing, docs, index, limit, i))
            && (!Current(p, docs, after, listing[i]) ==> after[listing[i]] == index[listing[i]])
  {
    var mid := Added(p, listing, docs, index, limit, Full(limit));
    EmbeddingStays(p, listing, docs, index, limit, listing[i]);
    ExaminedIff(p, listing, docs, index, limit, i);
    RestoredWhich(p, listing, docs, mid, limit);
    RefreshedAt(p, docs, mid, Written(StalePage(p, listing, docs, mid, limit), Full(limit)), listing[i]);
  }

  /** The index after `k` such backfills, no entry changing in between. */
  ghost function Repeated(p: Provider, listing: seq<Id>, docs: Docs, index: Index, limit: nat, k: nat): Index {
    if k == 0 then index
    else Backfilled(p, listing, docs, Repeated(p, listing, docs, index, limit, k - 1), limit)
  }

  /** Nothing that competes ever stops competing. */
  lemma CompetesStays(p: Provider, listing: seq<Id>, docs: Docs, index: Index, limit: nat, id: Id)
    requires Competes(listing, docs, index, limit)(id)
    ensures Embedded(docs, Backfilled(p, listing, docs, index, limit))(id)
  {
    AddedEmbeds(p, listing, docs, index, limit, id);
    EmbeddingStays(p, listing, docs, Added(p, listing, docs, index, limit, Full(limit)), limit, id);
  }

  /** A stale entry that no number of backfills repairs. */
  ghost predicate OutOfReach(p: Provider, listing: seq<Id>, docs: Docs, index: Index, limit: nat, i: nat)
    requires i < |listing|
  {
    Stale(p, docs, index, listing[i]) && !(docs[listing[i]].live && WithinReach(listing, docs, index, limit, i))
  }

  lemma BackfillLeavesOutOfReach(p: Provider, listing: seq<Id>, docs: Docs, index: Index, limit: nat, i: nat)
    requires Distinct(listing) && i < |listing| && OutOfReach(p, listing, docs, index, limit, i)
    ensures OutOfReach(p, listing, docs, Backfilled(p, listing, docs, index, limit), limit, i)
  {
    var later := Backfilled(p, listing, docs, index, limit);
    RepairedIff(p, listing, docs, index, limit, i);
    EmbeddingStays(p, listing, docs, index, limit, listing[i]);
    EmbeddingStays(p, listing, docs, Added(p, listing, docs, index, limit, Full(limit)), limit, listing[i]);
    forall id | Competes(listing, docs, index, limit)(id)
      ensures Competes(listing, docs, later, limit)(id)
    {
      CompetesStays(p, listing, docs, index, limit, id);
    }
    CountFewer(listing[..i], Competes(listing, docs, index, limit), Competes(listing, docs, later, limit));
  }

  lemma {:induction false} StaysOutOfReach(p: Provider, listing: seq<Id>, docs: Docs, index: Index, limit: nat, i: nat,
                                           k: nat)
    requires Distinct(listing) && i < |listing| && OutOfReach(p, listing, docs, index, limit, i)
    ensures OutOfReach(p, listing, docs, Repeated(p, listing, docs, index, limit, k), limit, i)
  {
    if k > 0 {
      StaysOutOfReach(p, listing, docs, index, limit, i, k - 1);
      BackfillLeavesOutOfReach(p, listing, docs, Repeated(p, listing, docs, index, limit, k - 1), limit, i);
    }
  }

  /** So the first backfill repairs a stale entry, or no number of them ever does. */
  lemma RepairedAtOnceOrNever(p: Provider, listing: seq<Id>, docs: Docs, index: Index, limit: nat, i: nat)
    requires Distinct(listing) && i < |listing| && Stale(p, docs, index, listing[i])
    ensures (exists k :: Current(p, docs, Repeated(p, listing, docs, index, limit, k), listing[i])) <==>
            docs[listing[i]].live && WithinReach(listing, docs, index, limit, i)
  {
    if OutOfReach(p, listing, docs, index, limit, i) {
      forall k
        ensures !Current(p, docs, Repeated(p, listing, docs, index, limit, k), listing[i])
      {
        StaysOutOfReach(p, listing, docs, index, limit, i, k);
      }
    } else {
      RepairedIff(p, listing, docs, index, limit, i);
      RepeatedOnce(p, listing, docs, index, limit);
      assert Current(p, docs, Repeated(p, listing, docs, index, limit, 1), listing[i]);
    }
  }

  lemma RepeatedOnce(p: Provider, listing: seq<Id>, docs: Docs, index: Index, limit: nat)
    ensures Repeated(p, listing, docs, index, limit, 1) == Backfilled(p, listing, docs, index, limit)
  {
    assert Repeated(p, listing, docs, index, limit, 0) == index;
  }

  ghost function Members(ids: seq<Id>): set<Id> {
    set id | id in ids
  }

  /** `n` different ids. */
  ghost function Crowd(n: nat): seq<Id> {
    seq(n, k requires 0 <= k => Id(seq(k, _ => 'x')))
  }

  lemma CrowdIsDistinct(n: nat)
    ensures Distinct(Crowd(n))
  {
    forall i, j | 0 <= i < j < n
      ensures Crowd(n)[i] != Crowd(n)[j]
    {
      assert |Crowd(n)[i].text| != |Crowd(n)[j].text|;
    }
  }

  /** However often everything succeeds, `id` stays stale. */
  ghost predicate Starves(p: Provider, listing: seq<Id>, docs: Docs, index: Index, limit: nat, id: Id) {
    forall k :: Stale(p, docs, Repeated(p, listing, docs, index, limit, k), id)
  }

  /** Behind `limit` live entries with embeddings a stale entry stays stale for ever. */
  lemma CrowdedOutStarves(p: Provider, listing: seq<Id>, docs: Docs, index: Index, limit: nat)
    requires Distinct(listing) && |listing| > limit && Stale(p, docs, index, listing[limit])
    requires forall x :: x in listing ==> Embedded(docs, index)(x)
    ensures Starves(p, listing, docs, index, limit, listing[limit])
  {
    CountAll(listing[..limit], Competes(listing, docs, index, limit));
    assert OutOfReach(p, listing, docs, index, limit, limit);
    forall k
      ensures Stale(p, docs, Repeated(p, listing, docs, index, limit, k), listing[limit])
    {
      StaysOutOfReach(p, listing, docs, index, limit, limit, k);
    }
  }

  /** The failing case, for every limit: one stale entry that starves while all others are current. */
  lemma StarvedForever(p: Provider, limit: nat, was: Text, present: Text)
    returns (listing: seq<Id>, docs: Docs, index: Index)
    requires p.hash(was) != p.hash(present)
    ensures |listing| == limit + 1 && docs.Keys == Members(listing) && docs[listing[limit]].live
    ensures forall x :: x in listing && x != listing[limit] ==> Current(p, docs, index, x)
    ensures Starves(p, listing, docs, index, limit, listing[limit])
  {
    listing := Crowd(limit + 1);
    CrowdIsDistinct(limit + 1);
    var id := listing[limit];
    docs := map x | x in listing :: Doc(present, false, true);
    index := map x | x in listing ::
      Stored(p.hash(if x == id then was else present), p.embed(if x == id then was else present));
    CrowdedOutStarves(p, listing, docs, index, limit);
  }

  lemma {:induction false} CountAll(listing: seq<Id>, test: Id -> bool)
    requires forall id :: id in listing ==> test(id)
    ensures Count(listing, test) == |listing|
  {
    if listing != [] {
      CountAll(listing[1..], test);
    }
  }

  function Live(docs: Docs): Id -> bool {
    id => id in docs && docs[id].live
  }

  /** After any run a backfill in which everything succeeds and whose limit covers the live
      entries makes every one of them current, suppressions excepted. */
  lemma BackfillRepairs(p: Provider, evs: seq<Event>, listing: seq<Id>, limit: nat, i: nat)
    requires p.CollisionFree() && Distinct(listing) && i < |listing|
    requires Count(listing, Live(Run(p, evs).docs)) <= limit
    ensures var s := Run(p, evs);
            var id := listing[i];
            id in s.docs && s.docs[id].live && !s.docs[id].suppression ==>
              Current(p, s.docs, Backfilled(p, listing, s.docs, s.index, limit), id)
  {
    var s, id := Run(p, evs), listing[i];
    if id in s.docs && s.docs[id].live && !s.docs[id].suppression {
      var mid := Added(p, listing, s.docs, s.index, limit, Full(limit));
      CountPrefix(listing, Live(s.docs), i);
      AddedWhich(p, listing, s.docs, s.index, limit);
      RestoredWhich(p, listing, s.docs, mid, limit);
      IndexIsLastStored(p, evs, id);
      if id in s.index {
        SelectFacts(listing, Missing(s.docs, s.index), limit);
        CountFewer(listing[..i], Embedded(s.docs, mid), Live(s.docs));
        SelectedIff(listing, Embedded(s.docs, mid), limit, i);
      } else {
        CountFewer(listing[..i], Missing(s.docs, s.index), Live(s.docs));
        SelectedIff(listing, Missing(s.docs, s.index), limit, i);
      }
    }
  }

  // ---------------------------------------------------------------- a backfill among the other jobs

  /** The state some events lead to from `s`. */
  function From(p: Provider, s: State, evs: seq<Event>): State {
    if evs == [] then s else Next(p, From(p, s, evs[..|evs| - 1]), evs[|evs| - 1])
  }

  lemma {:induction false} RunFrom(p: Provider, evs: seq<Event>, more: seq<Event>)
    ensures Run(p, evs + more) == From(p, Run(p, evs), more)
    decreases |more|
  {
    if more == [] {
      assert evs + more == evs;
    } else {
      RunFrom(p, evs, more[..|more| - 1]);
      assert (evs + more)[..|evs + more| - 1] == evs + more[..|more| - 1];
    }
  }

  lemma {:induction false} FromConcat(p: Provider, s: State, evs: seq<Event>, more: seq<Event>)
    ensures From(p, s, evs + more) == From(p, From(p, s, evs), more)
    decreases |more|
  {
    if more == [] {
      assert evs + more == evs;
    } else {
      FromConcat(p, s, evs, more[..|more| - 1]);
      assert (evs + more)[..|evs + more| - 1] == evs + more[..|more| - 1];
    }
  }

  function StoreEvents(j: nat, luck: Luck, n: nat): seq<Event> {
    if n == 0 then [] else StoreEvents(j, luck, n - 1) + [Store(j, n - 1 !in luck.failed)]
  }

  /** The events of one phase. */
  function PhaseEvents(p: Provider, docs: Docs, j: nat, ids: seq<Id>, luck: Luck): seq<Event>
    requires forall id :: id in ids ==> id in docs
  {
    var n := if luck.vectors < |ids| then luck.vectors else |ids|;
    [Fetch(j, ids), HashTexts(j), Answer(j, Vectors(p, Snapshots(docs, ids), luck))]
    + StoreEvents(j, luck, n) + [End(j)]
  }

  lemma {:induction false} StoreEventsStore(p: Provider, s: State, j: nat, luck: Luck, n: nat)
    ensures From(p, s, StoreEvents(j, luck, n)) == StoreAll(p, s, j, luck, n)
  {
    if n > 0 {
      StoreEventsStore(p, s, j, luck, n - 1);
      assert StoreEvents(j, luck, n)[..|StoreEvents(j, luck, n)| - 1] == StoreEvents(j, luck, n - 1);
    }
  }

  lemma FromOne(p: Provider, s: State, ev: Event)
    ensures From(p, s, [ev]) == Next(p, s, ev)
  {
    assert [ev][..0] == [];
  }

  lemma PhaseEventsPrepare(p: Provider, s: State, j: nat, ids: seq<Id>, luck: Luck)
    requires forall id :: id in ids ==> id in s.docs
    ensures From(p, s, [Fetch(j, ids), HashTexts(j), Answer(j, Vectors(p, Snapshots(s.docs, ids), luck))])
            == Prepared(p, s, j, ids, luck)
  {
    var e1, e2 := Fetch(j, ids), HashTexts(j);
    var e3 := Answer(j, Vectors(p, Snapshots(s.docs, ids), luck));
    FromOne(p, s, e1);
    assert [e1, e2][..1] == [e1] && [e1, e2, e3][..2] == [e1, e2];
  }

  /** The events of a phase, undisturbed, re-embed its rows. */
  lemma PhaseEventsRefresh(p: Provider, s: State, j: nat, ids: seq<Id>, luck: Luck)
    requires j !in s.jobs && forall id :: id in ids ==> id in s.docs
    ensures From(p, s, PhaseEvents(p, s.docs, j, ids, luck))
            == s.(index := Refreshed(p, s.docs, s.index, Written(ids, luck)))
  {
    var n := if luck.vectors < |ids| then luck.vectors else |ids|;
    var front := [Fetch(j, ids), HashTexts(j), Answer(j, Vectors(p, Snapshots(s.docs, ids), luck))];
    var stores := StoreEvents(j, luck, n);
    PhaseEventsPrepare(p, s, j, ids, luck);
    FromConcat(p, s, front, stores);
    StoreEventsStore(p, Prepared(p, s, j, ids, luck), j, luck, n);
    FromConcat(p, s, front + stores, [End(j)]);
    FromOne(p, From(p, s, front + stores), End(j));
    PhaseRefreshes(p, s, j, ids, luck);
  }

  /** The events of a whole backfill in which everything succeeds. */
  ghost function BackfillEvents(p: Provider, s: State, j: nat, listing: seq<Id>, limit: nat): seq<Event> {
    var mid := Added(p, listing, s.docs, s.index, limit, Full(limit));
    PagesExist(p, listing, s.docs, s.index, limit);
    PagesExist(p, listing, s.docs, mid, limit);
    PhaseEvents(p, s.docs, j, Select(listing, Missing(s.docs, s.index), limit), Full(limit))
    + PhaseEvents(p, s.docs, j, StalePage(p, listing, s.docs, mid, limit), Full(limit))
  }

  lemma PagesExist(p: Provider, listing: seq<Id>, docs: Docs, index: Index, limit: nat)
    ensures forall id :: id in Select(listing, Missing(docs, index), limit) ==> id in docs
    ensures forall id :: id in StalePage(p, listing, docs, index, limit) ==> id in docs
  {
    SelectFacts(listing, Missing(docs, index), limit);
    StaleAmongIff(p, docs, index, Select(listing, Embedded(docs, index), limit));
    assert forall id :: id in Select(listing, Missing(docs, index), limit) ==> Missing(docs, index)(id);
  }

  lemma BackfillEventsRepair(p: Provider, s: State, j: nat, listing: seq<Id>, limit: nat)
    requires j !in s.jobs
    ensures From(p, s, BackfillEvents(p, s, j, listing, limit))
            == s.(index := Backfilled(p, listing, s.docs, s.index, limit))
  {
    var mid := Added(p, listing, s.docs, s.index, limit, Full(limit));
    var missing, stale := Select(listing, Missing(s.docs, s.index), limit), StalePage(p, listing, s.docs, mid, limit);
    PagesExist(p, listing, s.docs, s.index, limit);
    PagesExist(p, listing, s.docs, mid, limit);
    PhaseEventsRefresh(p, s, j, missing, Full(limit));
    PhaseEventsRefresh(p, s.(index := mid), j, stale, Full(limit));
    FromConcat(p, s, PhaseEvents(p, s.docs, j, missing, Full(limit)), PhaseEvents(p, s.docs, j, stale, Full(limit)));
  }

  /** After any run, once no job holds another text of a live entry, an undisturbed backfill in
      which everything succeeds and whose limit covers the live entries makes the entry current
      for good: it stays current however the run goes on, until its text changes. */
  lemma BackfillSettles(p: Provider, evs: seq<Event>, j: nat, listing: seq<Id>, limit: nat, i: nat, more: seq<Event>)
    requires p.CollisionFree() && Distinct(listing) && i < |listing| && j !in Run(p, evs).jobs
    requires Count(listing, Live(Run(p, evs).docs)) <= limit
    requires listing[i] in Run(p, evs).docs
    requires Run(p, evs).docs[listing[i]].live && !Run(p, evs).docs[listing[i]].suppression
    requires NothingElsePending(Run(p, evs), listing[i], Run(p, evs).docs[listing[i]].text)
    requires forall ev :: ev in more ==> LeavesAlone(ev, listing[i], Run(p, evs).docs[listing[i]].text)
    ensures Settled(p, Run(p, evs + BackfillEvents(p, Run(p, evs), j, listing, limit) + more), listing[i],
                    Run(p, evs).docs[listing[i]].text)
  {
    var s := Run(p, evs);
    var backfill := BackfillEvents(p, s, j, listing, limit);
    BackfillRepairs(p, evs, listing, limit, i);
    BackfillEventsRepair(p, s, j, listing, limit);
    RunFrom(p, evs, backfill);
    StaysCurrent(p, evs + backfill, more, listing[i], s.docs[listing[i]].text);
  }
}
