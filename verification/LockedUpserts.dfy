/**
 Concurrent upserts of alerts and preferences: every transaction takes an advisory lock on a
 hash of its logical key, reads the committed rows, merges or inserts privately, and becomes
 visible when it commits and releases the lock.

 Any number of transactions interleave, and the hash is an arbitrary function.  The table is
 a map from row ids, so nothing in its type keeps two rows from having one logical key.
 */
module LockedUpserts {
  import opened Options
  import opened Entries

  datatype LogicalKey =
    | AlertKey(owner: string, source: string, alertId: string)
    | PreferenceKey(owner: string, name: string, scope: string)

  /** The logical key under which the select statements find a row. */
  function KeyOf(row: Entry): Option<LogicalKey> {
    if row.kind.Alert? then
      match TextOf(Get(row.data, AlertId))
      case Some(a) => Some(AlertKey(row.owner, row.source, a))
      case None => None
    else if row.kind.Preference? then
      match (TextOf(Get(row.data, PreferenceName)), TextOf(Get(row.data, PreferenceScope)))
      case (Some(n), Some(s)) => Some(PreferenceKey(row.owner, n, s))
      case _ => None
    else None
  }

  /** One call of `upsert_alert` or `upsert_preference`; `id` is the id it would insert under. */
  datatype Upsert = Upsert(key: LogicalKey, tags: seq<string>, data: Data, now: int, id: Id)

  /** The data repeats the call's own key, as both tools see to. */
  predicate CarriesKey(op: Upsert) {
    match op.key
    case AlertKey(_, _, a) => TextOf(Get(op.data, AlertId)) == Some(a)
    case PreferenceKey(_, n, s) =>
      TextOf(Get(op.data, PreferenceName)) == Some(n) && TextOf(Get(op.data, PreferenceScope)) == Some(s)
  }

  function Inserted(op: Upsert): Entry {
    match op.key
    case AlertKey(owner, source, _) =>
      Entry(op.id, owner, Alert, source, op.tags, op.now, None, op.data, [], None, "simple")
    case PreferenceKey(owner, _, scope) =>
      Entry(op.id, owner, Preference, scope, op.tags, op.now, None, op.data, [], None, "simple")
  }

  function Merged(row: Entry, op: Upsert): Entry {
    row.(updated := Some(op.now), tags := op.tags, data := row.data + op.data)
  }

  /** An inserted row is found again under its key exactly when the data repeats that key:
      without it, the next upsert of the same key inserts a second row. */
  lemma FoundAgainIff(op: Upsert)
    ensures KeyOf(Inserted(op)) == Some(op.key) <==> CarriesKey(op)
  {
  }

  lemma RowsKeepKey(row: Entry, op: Upsert)
    requires CarriesKey(op)
    ensures KeyOf(Inserted(op)) == Some(op.key)
    ensures KeyOf(row) == Some(op.key) ==> KeyOf(Merged(row, op)) == Some(op.key)
  {
  }

  // ---------------------------------------------------------------- the sequential meaning

  type Keyed = map<LogicalKey, Entry>

  function RowOf(m: Keyed, key: LogicalKey): Option<Entry> {
    if key in m then Some(m[key]) else None
  }

  /** The row an upsert leaves under its key. */
  function Result(m: Keyed, op: Upsert): Entry {
    if op.key in m then Merged(m[op.key], op) else Inserted(op)
  }

  function Apply(m: Keyed, op: Upsert): Keyed {
    m[op.key := Result(m, op)]
  }

  type Jobs = map<nat, Upsert>

  /** The upserts of `history`, one after the other. */
  function Replay(m: Keyed, jobs: Jobs, history: seq<nat>): Keyed
    requires forall t :: t in history ==> t in jobs
  {
    if history == [] then m
    else Apply(Replay(m, jobs, history[..|history| - 1]), jobs[history[|history| - 1]])
  }

  // ---------------------------------------------------------------- transactions

  datatype Txn =
    | Waiting                         // before the advisory lock
    | Locked                          // lock taken
    | Saw(found: Option<Entry>)       // SELECT ... FOR UPDATE answered
    | Wrote(row: Entry)               // private UPDATE or INSERT
    | Committed(row: Entry)
    | Aborted

  /** `rows` is what is committed; `holder` says which transaction holds which lock. */
  datatype Db = Db(rows: map<Id, Entry>, holder: map<int, nat>, txns: map<nat, Txn>, history: seq<nat>)

  datatype Event = Lock(t: nat) | Read(t: nat, found: Option<Id>) | Write(t: nat) | Commit(t: nat) | Abort(t: nat)

  predicate Critical(x: Txn) {
    x.Locked? || x.Saw? || x.Wrote?
  }

  ghost predicate Enabled(jobs: Jobs, hash: LogicalKey -> int, s: Db, ev: Event) {
    && ev.t in s.txns && ev.t in jobs
    && var x, key := s.txns[ev.t], jobs[ev.t].key;
    match ev
    case Lock(_) => x.Waiting? && hash(key) !in s.holder
    case Read(_, Some(id)) => x.Locked? && id in s.rows && KeyOf(s.rows[id]) == Some(key)
    case Read(_, None) => x.Locked? && forall id :: id in s.rows ==> KeyOf(s.rows[id]) != Some(key)
    case Write(_) => x.Saw?
    case Commit(_) => x.Wrote?
    case Abort(_) => Critical(x)
  }

  ghost function Next(jobs: Jobs, hash: LogicalKey -> int, s: Db, ev: Event): Db
    requires Enabled(jobs, hash, s, ev)
  {
    var t, op := ev.t, jobs[ev.t];
    match ev
    case Lock(_) => s.(holder := s.holder[hash(op.key) := t], txns := s.txns[t := Locked])
    case Read(_, found) =>
      s.(txns := s.txns[t := Saw(if found.Some? then Some(s.rows[found.value]) else None)])
    case Write(_) =>
      var found := s.txns[t].found;
      s.(txns := s.txns[t := Wrote(if found.Some? then Merged(found.value, op) else Inserted(op))])
    case Commit(_) =>
      var row := s.txns[t].row;
      Db(s.rows[row.id := row], s.holder - {hash(op.key)}, s.txns[t := Committed(row)], s.history + [t])
    case Abort(_) => s.(holder := s.holder - {hash(op.key)}, txns := s.txns[t := Aborted])
  }

  // ---------------------------------------------------------------- the invariant

  /** The rows that have a key are exactly the values of `m`, each under its own id and its own
      key.  Other rows, such as notes and statuses, are of no concern. */
  ghost predicate Represents(rows: map<Id, Entry>, m: Keyed) {
    && (forall k :: k in m ==> KeyOf(m[k]) == Some(k) && m[k].id in rows && rows[m[k].id] == m[k])
    && (forall id :: id in rows && KeyOf(rows[id]).Some? ==>
          && rows[id].id == id
          && KeyOf(rows[id]).value in m && m[KeyOf(rows[id]).value] == rows[id])
  }

  /** The rows no upsert is about. */
  ghost function Keyless(rows: map<Id, Entry>): map<Id, Entry> {
    map id | id in rows && KeyOf(rows[id]).None? :: rows[id]
  }

  /** The premises: data carries its key, insert ids are new and distinct. */
  ghost predicate Premises(jobs: Jobs, rows: map<Id, Entry>, m: Keyed) {
    && Represents(rows, m)
    && (forall t :: t in jobs ==> CarriesKey(jobs[t]) && jobs[t].id !in rows)
    && (forall t, u :: t in jobs && u in jobs && t != u ==> jobs[t].id != jobs[u].id)
  }

  /** What a transaction has seen or written agrees with the committed state `m`. */
  ghost predicate TxnOk(jobs: Jobs, hash: LogicalKey -> int, s: Db, m: Keyed, t: nat)
    requires t in s.txns && t in jobs
  {
    var x, op := s.txns[t], jobs[t];
    && (Critical(x) <==> hash(op.key) in s.holder && s.holder[hash(op.key)] == t)
    && (x.Saw? ==> x.found == RowOf(m, op.key))
    && (x.Wrote? ==> x.row == Result(m, op))
    && (x.Committed? <==> t in s.history)
  }

  ghost predicate Inv(jobs: Jobs, hash: LogicalKey -> int, m0: Keyed, s: Db) {
    && (forall t :: t in s.history ==> t in jobs)
    && (forall t :: t in s.txns ==> t in jobs)
    && var m := Replay(m0, jobs, s.history);
    && Represents(s.rows, m)
    && (forall t :: t in s.txns ==> TxnOk(jobs, hash, s, m, t))
  }

  /** No id that a transaction may still insert under is in use. */
  ghost predicate IdsFree(jobs: Jobs, s: Db) {
    forall t :: t in jobs && t !in s.history ==> jobs[t].id !in s.rows
  }

  lemma ApplyRepresents(rows: map<Id, Entry>, m: Keyed, op: Upsert)
    requires Represents(rows, m) && CarriesKey(op) && op.id !in rows
    ensures var rows' := rows[Result(m, op).id := Result(m, op)];
            Represents(rows', Apply(m, op)) && Keyless(rows') == Keyless(rows)
  {
    var row := Result(m, op);
    assert KeyOf(row) == Some(op.key) by {
      RowsKeepKey(if op.key in m then m[op.key] else row, op);
    }
    OneRowChanges(rows, m, op.key, row);
  }

  /** Storing a row under the id its key already has, or under a new id, keeps the correspondence. */
  lemma OneRowChanges(rows: map<Id, Entry>, m: Keyed, key: LogicalKey, row: Entry)
    requires Represents(rows, m) && KeyOf(row) == Some(key)
    requires if key in m then m[key].id == row.id else row.id !in rows
    ensures Represents(rows[row.id := row], m[key := row])
    ensures Keyless(rows[row.id := row]) == Keyless(rows)
  {
    var rows', m' := rows[row.id := row], m[key := row];
    forall k | k in m'
      ensures KeyOf(m'[k]) == Some(k) && m'[k].id in rows' && rows'[m'[k].id] == m'[k]
    {
      if k != key {
        assert rows[m[k].id] == m[k];
      }
    }
    forall id | id in rows' && KeyOf(rows'[id]).Some?
      ensures rows'[id].id == id
      ensures KeyOf(rows'[id]).value in m' && m'[KeyOf(rows'[id]).value] == rows'[id]
    {
      if id != row.id {
        assert m[KeyOf(rows[id]).value] == rows[id];
      }
    }
  }

  /** Only one row can have a key, and it is the one `m` names. */
  lemma RowOfKey(rows: map<Id, Entry>, m: Keyed, id: Id, key: LogicalKey)
    requires Represents(rows, m) && id in rows && KeyOf(rows[id]) == Some(key)
    ensures key in m && m[key] == rows[id]
  {
  }

  lemma NoRowOfKey(rows: map<Id, Entry>, m: Keyed, key: LogicalKey)
    requires Represents(rows, m) && forall id :: id in rows ==> KeyOf(rows[id]) != Some(key)
    ensures key !in m
  {
  }

  /** A commit changes only the row of its key, which no other transaction can have read. */
  lemma CommitSparesOthers(jobs: Jobs, hash: LogicalKey -> int, s: Db, m: Keyed, ev: Event, t: nat)
    requires ev.Commit? && Enabled(jobs, hash, s, ev) && t in s.txns && t in jobs && t != ev.t
    requires TxnOk(jobs, hash, s, m, t) && TxnOk(jobs, hash, s, m, ev.t)
    ensures TxnOk(jobs, hash, Next(jobs, hash, s, ev), Apply(m, jobs[ev.t]), t)
  {
    if jobs[t].key == jobs[ev.t].key {
      assert !Critical(s.txns[t]);
    }
  }

  /** A transaction that does not move is not disturbed by one that does. */
  lemma BystanderOk(jobs: Jobs, hash: LogicalKey -> int, m0: Keyed, s: Db, ev: Event, t: nat)
    requires Inv(jobs, hash, m0, s) && Enabled(jobs, hash, s, ev) && t in s.txns && t != ev.t
    ensures var s' := Next(jobs, hash, s, ev);
            && (forall u :: u in s'.history ==> u in jobs)
            && TxnOk(jobs, hash, s', Replay(m0, jobs, s'.history), t)
  {
    var s' := Next(jobs, hash, s, ev);
    var m := Replay(m0, jobs, s.history);
    assert TxnOk(jobs, hash, s, m, t) && TxnOk(jobs, hash, s, m, ev.t);
    if ev.Commit? {
      assert s'.history[..|s'.history| - 1] == s.history;
      CommitSparesOthers(jobs, hash, s, m, ev, t);
    }
  }

  /** What the reading transaction finds is the row of its key. */
  lemma ReadFinds(jobs: Jobs, hash: LogicalKey -> int, s: Db, m: Keyed, ev: Event)
    requires Represents(s.rows, m) && ev.Read? && Enabled(jobs, hash, s, ev)
    ensures Next(jobs, hash, s, ev).txns[ev.t] == Saw(RowOf(m, jobs[ev.t].key))
  {
    match ev.found {
      case Some(id) => RowOfKey(s.rows, m, id, jobs[ev.t].key);
      case None => NoRowOfKey(s.rows, m, jobs[ev.t].key);
    }
  }

  lemma MoverOk(jobs: Jobs, hash: LogicalKey -> int, m0: Keyed, s: Db, ev: Event)
    requires Inv(jobs, hash, m0, s) && Enabled(jobs, hash, s, ev)
    ensures var s' := Next(jobs, hash, s, ev);
            && (forall u :: u in s'.history ==> u in jobs)
            && TxnOk(jobs, hash, s', Replay(m0, jobs, s'.history), ev.t)
  {
    var s' := Next(jobs, hash, s, ev);
    var m := Replay(m0, jobs, s.history);
    assert TxnOk(jobs, hash, s, m, ev.t);
    if ev.Read? {
      ReadFinds(jobs, hash, s, m, ev);
    } else if ev.Commit? {
      assert s'.history[..|s'.history| - 1] == s.history;
    }
  }

  lemma NextKeepsInv(jobs: Jobs, hash: LogicalKey -> int, m0: Keyed, s: Db, ev: Event)
    requires Inv(jobs, hash, m0, s) && IdsFree(jobs, s) && Enabled(jobs, hash, s, ev)
    requires forall t :: t in jobs ==> CarriesKey(jobs[t])
    ensures Inv(jobs, hash, m0, Next(jobs, hash, s, ev))
    ensures Keyless(Next(jobs, hash, s, ev).rows) == Keyless(s.rows)
  {
    var s' := Next(jobs, hash, s, ev);
    MoverOk(jobs, hash, m0, s, ev);
    forall t | t in s'.txns
      ensures TxnOk(jobs, hash, s', Replay(m0, jobs, s'.history), t)
    {
      if t != ev.t {
        BystanderOk(jobs, hash, m0, s, ev, t);
      }
    }
    if ev.Commit? {
      var m := Replay(m0, jobs, s.history);
      assert TxnOk(jobs, hash, s, m, ev.t);
      assert s'.history[..|s'.history| - 1] == s.history;
      ApplyRepresents(s.rows, m, jobs[ev.t]);
    }
  }

  lemma NextKeepsIdsFree(jobs: Jobs, hash: LogicalKey -> int, m0: Keyed, s: Db, ev: Event)
    requires Inv(jobs, hash, m0, s) && IdsFree(jobs, s) && Enabled(jobs, hash, s, ev)
    requires forall t, u :: t in jobs && u in jobs && t != u ==> jobs[t].id != jobs[u].id
    ensures IdsFree(jobs, Next(jobs, hash, s, ev))
  {
    var m := Replay(m0, jobs, s.history);
    assert TxnOk(jobs, hash, s, m, ev.t);
    if ev.Commit? && jobs[ev.t].key in m {
      assert m[jobs[ev.t].key].id in s.rows;
    }
  }

  /** What each committed transaction returned: the sequential result at its own commit. */
  ghost predicate Returned(jobs: Jobs, m0: Keyed, s: Db)
    requires forall t :: t in s.history ==> t in jobs
  {
    && (forall i, j :: 0 <= i < j < |s.history| ==> s.history[i] != s.history[j])
    && forall i :: 0 <= i < |s.history| ==> ReturnedAt(jobs, m0, s, i)
  }

  ghost predicate ReturnedAt(jobs: Jobs, m0: Keyed, s: Db, i: nat)
    requires i < |s.history| && forall t :: t in s.history ==> t in jobs
  {
    var t := s.history[i];
    t in s.txns && s.txns[t] == Committed(Result(Replay(m0, jobs, s.history[..i]), jobs[t]))
  }

  lemma NextKeepsReturned(jobs: Jobs, hash: LogicalKey -> int, m0: Keyed, s: Db, ev: Event)
    requires Inv(jobs, hash, m0, s) && Returned(jobs, m0, s) && Enabled(jobs, hash, s, ev)
    ensures forall t :: t in Next(jobs, hash, s, ev).history ==> t in jobs
    ensures Returned(jobs, m0, Next(jobs, hash, s, ev))
  {
    var s' := Next(jobs, hash, s, ev);
    var m := Replay(m0, jobs, s.history);
    assert TxnOk(jobs, hash, s, m, ev.t);
    assert ev.t !in s.history;
    forall i | 0 <= i < |s'.history|
      ensures ReturnedAt(jobs, m0, s', i)
    {
      if i < |s.history| {
        assert ReturnedAt(jobs, m0, s, i);
        assert s'.history[..i] == s.history[..i];
      } else {
        assert s'.history[..i] == s.history;
      }
    }
  }

  // ---------------------------------------------------------------- runs

  ghost predicate Possible(jobs: Jobs, hash: LogicalKey -> int, s: Db, evs: seq<Event>)
    decreases |evs|
  {
    evs == [] || (Enabled(jobs, hash, s, evs[0]) && Possible(jobs, hash, Next(jobs, hash, s, evs[0]), evs[1..]))
  }

  ghost function After(jobs: Jobs, hash: LogicalKey -> int, s: Db, evs: seq<Event>): Db
    requires Possible(jobs, hash, s, evs)
    decreases |evs|
  {
    if evs == [] then s else After(jobs, hash, Next(jobs, hash, s, evs[0]), evs[1..])
  }

  ghost function Start(jobs: Jobs, rows: map<Id, Entry>): Db {
    Db(rows, map[], map t | t in jobs :: Waiting, [])
  }

  lemma {:induction false} RunKeeps(jobs: Jobs, hash: LogicalKey -> int, m0: Keyed, s: Db, evs: seq<Event>)
    requires Inv(jobs, hash, m0, s) && IdsFree(jobs, s) && Returned(jobs, m0, s) && Possible(jobs, hash, s, evs)
    requires forall t :: t in jobs ==> CarriesKey(jobs[t])
    requires forall t, u :: t in jobs && u in jobs && t != u ==> jobs[t].id != jobs[u].id
    ensures Inv(jobs, hash, m0, After(jobs, hash, s, evs)) && Returned(jobs, m0, After(jobs, hash, s, evs))
    ensures Keyless(After(jobs, hash, s, evs).rows) == Keyless(s.rows)
    decreases |evs|
  {
    if evs != [] {
      NextKeepsInv(jobs, hash, m0, s, evs[0]);
      NextKeepsIdsFree(jobs, hash, m0, s, evs[0]);
      NextKeepsReturned(jobs, hash, m0, s, evs[0]);
      RunKeeps(jobs, hash, m0, Next(jobs, hash, s, evs[0]), evs[1..]);
    }
  }

  // ---------------------------------------------------------------- what one key's row holds

  /** The committed upserts of one key, in commit order. */
  function OpsOn(jobs: Jobs, history: seq<nat>, key: LogicalKey): seq<Upsert>
    requires forall t :: t in history ==> t in jobs
  {
    if history == [] then []
    else
      var t := history[|history| - 1];
      OpsOn(jobs, history[..|history| - 1], key) + if jobs[t].key == key then [jobs[t]] else []
  }

  /** The left fold of the data of some upserts. */
  function MergedData(ops: seq<Upsert>): Data {
    if ops == [] then map[] else MergedData(ops[..|ops| - 1]) + ops[|ops| - 1].data
  }

  /** The row `ops` leave under their key, where the row `first` was or none: the last upsert's
      tags, the data of all of them merged in order, and all else of `first` or of a new row. */
  ghost predicate IsFold(first: Option<Entry>, row: Entry, ops: seq<Upsert>)
    requires first.Some? || ops != []
  {
    && (first.Some? ==> SameOrigin(row, first.value))
    && (first.None? ==> IsNewRow(row, ops[0]))
    && row.tags == (if ops == [] then first.value.tags else ops[|ops| - 1].tags)
    && row.updated == (if first.None? && |ops| == 1 then None
                       else if ops == [] then first.value.updated
                       else Some(ops[|ops| - 1].now))
    && row.data == (if first.Some? then first.value.data else map[]) + MergedData(ops)
  }

  /** Everything an upsert never changes. */
  ghost predicate SameOrigin(row: Entry, first: Entry) {
    && row.id == first.id && row.owner == first.owner && row.kind == first.kind && row.source == first.source
    && row.created == first.created && row.changelog == first.changelog && row.logicalKey == first.logicalKey
    && row.language == first.language
  }

  /** What the first upsert of a key stores besides tags and data: its own id and time, the
      alert's source or the preference's scope as the source, and no more. */
  ghost predicate IsNewRow(row: Entry, op: Upsert) {
    && row.id == op.id && row.created == op.now && row.changelog == [] && row.logicalKey == None
    && row.language == "simple"
    && (op.key.AlertKey? ==> row.kind == Alert && row.owner == op.key.owner && row.source == op.key.source)
    && (op.key.PreferenceKey? ==> row.kind == Preference && row.owner == op.key.owner && row.source == op.key.scope)
  }

  /** The rows a key finds: the owner's alert of that source and id, or the owner's preference of
      that name and scope, both as their data say. */
  lemma KeyOfSays(row: Entry, key: LogicalKey)
    ensures KeyOf(row) == Some(key) <==>
            match key
            case AlertKey(owner, source, a) =>
              && row.kind == Alert && row.owner == owner && row.source == source
              && AlertId in row.data && row.data[AlertId] != Null && row.data[AlertId].text == a
            case PreferenceKey(owner, name, scope) =>
              && row.kind == Preference && row.owner == owner
              && PreferenceName in row.data && row.data[PreferenceName] != Null && row.data[PreferenceName].text == name
              && PreferenceScope in row.data && row.data[PreferenceScope] != Null
              && row.data[PreferenceScope].text == scope
  {
  }

  lemma MergeExtendsFold(first: Option<Entry>, row: Entry, ops: seq<Upsert>, op: Upsert)
    requires (first.Some? || ops != []) && IsFold(first, row, ops)
    ensures IsFold(first, Merged(row, op), ops + [op])
  {
    assert (ops + [op])[..|ops|] == ops;
    var d := if first.Some? then first.value.data else map[];
    assert d + (MergedData(ops) + op.data) == (d + MergedData(ops)) + op.data;
    assert ops == [] ==> d + map[] == d;
  }

  lemma InsertIsFold(op: Upsert)
    ensures IsFold(None, Inserted(op), [op])
  {
    assert MergedData([op]) == MergedData([op][..0]) + op.data;
    assert map[] + op.data == op.data;
    assert map[] + MergedData([op]) == op.data;
  }

  lemma MergeIsFold(row: Entry, op: Upsert)
    ensures IsFold(Some(row), Merged(row, op), [op])
  {
    assert row.data + MergedData([]) == row.data;
    MergeExtendsFold(Some(row), row, [], op);
    assert [] + [op] == [op];
  }

  /** A key has a row exactly when it had one before or some upsert of it committed, and the row
      is the fold of those upserts in commit order over what was there. */
  lemma {:induction false} RowIsFold(m0: Keyed, jobs: Jobs, history: seq<nat>, key: LogicalKey)
    requires forall t :: t in history ==> t in jobs
    ensures var m, ops := Replay(m0, jobs, history), OpsOn(jobs, history, key);
            && (key in m <==> key in m0 || ops != [])
            && (key in m ==> IsFold(RowOf(m0, key), m[key], ops))
    decreases |history|
  {
    if history != [] {
      var t := history[|history| - 1];
      var m := Replay(m0, jobs, history[..|history| - 1]);
      var before := OpsOn(jobs, history[..|history| - 1], key);
      RowIsFold(m0, jobs, history[..|history| - 1], key);
      if jobs[t].key != key {
        assert OpsOn(jobs, history, key) == before;
      } else if key in m {
        MergeExtendsFold(RowOf(m0, key), m[key], before, jobs[t]);
      } else {
        InsertIsFold(jobs[t]);
      }
    }
  }

  /** No update is lost: a field holds what the last upsert that wrote it put there. */
  lemma {:induction false} LastWriterStays(ops: seq<Upsert>, i: nat, f: Field)
    requires i < |ops| && f in ops[i].data
    requires forall j :: i < j < |ops| ==> f !in ops[j].data
    ensures f in MergedData(ops) && MergedData(ops)[f] == ops[i].data[f]
    decreases |ops|
  {
    if i < |ops| - 1 {
      LastWriterStays(ops[..|ops| - 1], i, f);
    }
  }

  // ---------------------------------------------------------------- linearizability

  /** The row of `key` in a table is the fold of its committed upserts over the row it had. */
  ghost predicate HoldsFold(rows: map<Id, Entry>, m0: Keyed, jobs: Jobs, history: seq<nat>, key: LogicalKey)
    requires forall t :: t in history ==> t in jobs
  {
    if key in m0 || OpsOn(jobs, history, key) != [] then
      exists id :: id in rows && KeyOf(rows[id]) == Some(key) &&
        IsFold(RowOf(m0, key), rows[id], OpsOn(jobs, history, key))
    else
      forall id :: id in rows ==> KeyOf(rows[id]) != Some(key)
  }

  lemma CommittedIsFold(rows: map<Id, Entry>, m0: Keyed, jobs: Jobs, history: seq<nat>, key: LogicalKey)
    requires forall t :: t in history ==> t in jobs
    requires Represents(rows, Replay(m0, jobs, history))
    ensures HoldsFold(rows, m0, jobs, history, key)
  {
    var m := Replay(m0, jobs, history);
    RowIsFold(m0, jobs, history, key);
    if key in m {
      assert rows[m[key].id] == m[key];
    }
  }

  predicate SameKey(a: Entry, b: Entry) {
    KeyOf(a).Some? && KeyOf(a) == KeyOf(b)
  }

  /** Every interleaving is equivalent to running the committed upserts one after the other in
      commit order: the table holds exactly their result and all rows without a key unchanged, each
      key has at most one row and that is the fold of its upserts, and each transaction returned
      what the sequential run returns at its place. */
  lemma Linearizable(jobs: Jobs, hash: LogicalKey -> int, rows: map<Id, Entry>, m0: Keyed, evs: seq<Event>)
    requires Premises(jobs, rows, m0) && Possible(jobs, hash, Start(jobs, rows), evs)
    ensures var s := After(jobs, hash, Start(jobs, rows), evs);
            && (forall t :: t in s.history ==> t in jobs)
            && Represents(s.rows, Replay(m0, jobs, s.history))
            && Returned(jobs, m0, s)
            && (forall t :: t in s.txns && s.txns[t].Committed? ==> t in s.history)
            && (forall id, other :: id in s.rows && other in s.rows && SameKey(s.rows[id], s.rows[other]) ==>
                  id == other)
            && Keyless(s.rows) == Keyless(rows)
            && (forall key :: HoldsFold(s.rows, m0, jobs, s.history, key))
  {
    RunKeeps(jobs, hash, m0, Start(jobs, rows), evs);
    var s := After(jobs, hash, Start(jobs, rows), evs);
    forall t | t in s.txns && s.txns[t].Committed?
      ensures t in s.history
    {
      assert TxnOk(jobs, hash, s, Replay(m0, jobs, s.history), t);
    }
    forall key
      ensures HoldsFold(s.rows, m0, jobs, s.history, key)
    {
      CommittedIsFold(s.rows, m0, jobs, s.history, key);
    }
  }

  // ---------------------------------------------------------------- one transaction by itself

  /** The table as one transaction sees it while it holds the lock. */
  class EntryTable {
    var rows: map<Id, Entry>

    constructor ()
      ensures rows == map[]
    {
      rows := map[];
    }

    /** The body of `upsert_alert` and `upsert_preference`; `m` is what the rows stand for. */
    method UpsertRow(op: Upsert, ghost m: Keyed) returns (row: Entry)
      requires Represents(rows, m) && CarriesKey(op) && op.id !in rows
      modifies this
      ensures row == Result(m, op)
      ensures (forall id :: id in old(rows) ==> KeyOf(old(rows)[id]) != Some(op.key)) ==> IsFold(None, row, [op])
      ensures forall id :: id in old(rows) && KeyOf(old(rows)[id]) == Some(op.key) ==>
                IsFold(Some(old(rows)[id]), row, [op])
      ensures rows == old(rows)[row.id := row] && Represents(rows, Apply(m, op)) && Keyless(rows) == Keyless(old(rows))
    {
      ApplyRepresents(rows, m, op);
      if id :| id in rows && KeyOf(rows[id]) == Some(op.key) {
        RowOfKey(rows, m, id, op.key);
        row := Merged(rows[id], op);
        MergeIsFold(rows[id], op);
      } else {
        NoRowOfKey(rows, m, op.key);
        row := Inserted(op);
        InsertIsFold(op);
      }
      rows := rows[row.id := row];
    }
  }
}
