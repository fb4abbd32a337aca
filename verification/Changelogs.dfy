/**
 In-place updates of knowledge entries with a changelog of previous values, and the upsert
 by logical key that repeats the same rule.
 */
module Changelogs {
  import opened Options
  import opened Entries

  /** What a caller asks to change.  `data` may name the three tracked fields. */
  datatype Updates = Updates(source: Option<string>, tags: Option<seq<string>>, language: Option<string>, data: Data)

  const TRACKED: seq<Field> := [Description, Content, ContentType]

  predicate IsTracked(f: Field) {
    f.Description? || f.Content? || f.ContentType?
  }

  /** The requested fields whose value differs from the stored one. */
  function Differing(data: Data, wanted: Data): Data {
    map f | f in wanted && IsTracked(f) && wanted[f] != Get(data, f) :: wanted[f]
  }

  /** The old values among them that were not null. */
  function OldValues(data: Data, wanted: Data): Data {
    map f | f in Differing(data, wanted) && !Get(data, f).Null? :: Get(data, f)
  }

  function Recorded<T(==)>(wanted: Option<T>, current: T): Option<T> {
    if wanted.Some? && wanted.value != current then Some(current) else None
  }

  /** The changelog record of an update. */
  function ChangeOf(e: Entry, u: Updates, now: int): Change {
    Change(now, Recorded(u.tags, e.tags), Recorded(u.source, e.source), Recorded(u.language, e.language),
           OldValues(e.data, u.data))
  }

  predicate RecordsNothing(c: Change) {
    c.tags.None? && c.source.None? && c.language.None? && c.data == map[]
  }

  /** The entry with the new values; `regconfig` is the language validation. */
  function Assigned(e: Entry, u: Updates, regconfig: string -> string): Entry {
    e.(source := if u.source.Some? then u.source.value else e.source,
       tags := if u.tags.Some? then u.tags.value else e.tags,
       language := if Recorded(u.language, e.language).Some? then regconfig(u.language.value) else e.language,
       data := e.data + Differing(e.data, u.data))
  }

  /** What `update_entry` returns. */
  function Returned(e: Entry, u: Updates, now: int, regconfig: string -> string): Entry {
    if RecordsNothing(ChangeOf(e, u, now)) then Assigned(e, u, regconfig)
    else Assigned(e, u, regconfig).(changelog := e.changelog + [ChangeOf(e, u, now)], updated := Some(now))
  }

  /** What it leaves in the table: nothing recorded, nothing written. */
  function Stored(e: Entry, u: Updates, now: int, regconfig: string -> string): Entry {
    if RecordsNothing(ChangeOf(e, u, now)) then e else Returned(e, u, now, regconfig)
  }

  predicate Immutable(kind: EntryType) {
    kind.Status? || kind.Alert? || kind.Suppression?
  }

  /** The differences an upsert asks for: other tags, and non-null values that differ. */
  function UpsertUpdates(e: Entry, given: Entry): Updates {
    Updates(None, if given.tags != e.tags then Some(given.tags) else None, None,
            map f | f in given.data && IsTracked(f) && !given.data[f].Null? && given.data[f] != Get(e.data, f)
              :: given.data[f])
  }

  // ---------------------------------------------------------------- the operations

  /** The part of the data that belongs to the fields in `done`. */
  ghost function Among(data: Data, done: set<Field>): Data {
    map f | f in data && f in done :: data[f]
  }

  lemma AmongOneMore(data: Data, done: set<Field>, f: Field)
    ensures Among(data, done + {f}) == if f in data then Among(data, done)[f := data[f]] else Among(data, done)
  {
  }

  /** The loop over the tracked fields, shared by both operations. */
  method AssignFields(data: Data, wanted: Data) returns (newData: Data, changed: Data)
    ensures newData == data + Differing(data, wanted)
    ensures changed == OldValues(data, wanted)
  {
    ghost var differing, olds, done: set<Field> := Differing(data, wanted), OldValues(data, wanted), {};
    newData, changed := data, map[];
    for i := 0 to |TRACKED|
      invariant forall j :: 0 <= j < |TRACKED| ==> (TRACKED[j] in done <==> j < i)
      invariant newData == data + Among(differing, done)
      invariant changed == Among(olds, done)
    {
      var field := TRACKED[i];
      AmongOneMore(differing, done, field);
      AmongOneMore(olds, done, field);
      done := done + {field};
      if field in wanted && wanted[field] != Get(newData, field) {
        var oldVal := Get(newData, field);
        if !oldVal.Null? {
          changed := changed[field := oldVal];
        }
        newData := newData[field := wanted[field]];
      }
    }
    assert TRACKED[0] in done && TRACKED[1] in done && TRACKED[2] in done;
    assert Among(differing, done) == differing;
    assert Among(olds, done) == olds;
  }

  /** The entry with its new values, and the record of the old ones. */
  method Diff(before: Entry, updates: Updates, now: int, regconfig: string -> string)
    returns (entry: Entry, changed: Change)
    ensures entry == Assigned(before, updates, regconfig)
    ensures changed == ChangeOf(before, updates, now)
  {
    entry, changed := before, Change(now, None, None, None, map[]);
    if updates.source.Some? && updates.source.value != entry.source {
      changed := changed.(source := Some(entry.source));
      entry := entry.(source := updates.source.value);
    }
    if updates.tags.Some? && updates.tags.value != entry.tags {
      changed := changed.(tags := Some(entry.tags));
      entry := entry.(tags := updates.tags.value);
    }
    if updates.language.Some? && updates.language.value != entry.language {
      changed := changed.(language := Some(entry.language));
      entry := entry.(language := regconfig(updates.language.value));
    }
    var data, olds := AssignFields(entry.data, updates.data);
    entry, changed := entry.(data := data), changed.(data := olds);
  }

  /** The loop of the upsert that collects the non-null values that differ from the stored row. */
  method CollectUpdates(e: Entry, given: Entry) returns (updates: Data)
    ensures updates == UpsertUpdates(e, given).data
  {
    ghost var all, done: set<Field> := UpsertUpdates(e, given).data, {};
    updates := map[];
    for i := 0 to |TRACKED|
      invariant forall j :: 0 <= j < |TRACKED| ==> (TRACKED[j] in done <==> j < i)
      invariant updates == Among(all, done)
    {
      var field := TRACKED[i];
      AmongOneMore(all, done, field);
      done := done + {field};
      var newVal, oldVal := Get(given.data, field), Get(e.data, field);
      if !newVal.Null? && newVal != oldVal {
        updates := updates[field := newVal];
      }
    }
    assert TRACKED[0] in done && TRACKED[1] in done && TRACKED[2] in done;
    assert Among(all, done) == all;
  }

  /** The part of the upsert that applies the collected updates to the row in place. */
  method ApplyUpdates(e: Entry, tags: Option<seq<string>>, data: Data, now: int)
    returns (row: Entry, changed: Change)
    requires tags.Some? ==> tags.value != e.tags
    ensures changed == Change(now, if tags.Some? then Some(e.tags) else None, None, None, OldValues(e.data, data))
    ensures row == e.(tags := if tags.Some? then tags.value else e.tags, data := e.data + Differing(e.data, data))
  {
    row, changed := e, Change(now, None, None, None, map[]);
    if tags.Some? && tags.value != row.tags {
      changed := changed.(tags := Some(row.tags));
      row := row.(tags := tags.value);
    }
    var newData, olds := AssignFields(row.data, data);
    row, changed := row.(data := newData), changed.(data := olds);
  }

  type Rows = map<Id, Entry>

  /** The unique index over owner, source and logical key. */
  predicate SameSlot(a: Entry, b: Entry) {
    a.logicalKey.Some? && a.logicalKey == b.logicalKey && a.owner == b.owner && a.source == b.source
  }

  /** Writing `e` would give its slot to a second row. */
  predicate Collides(rows: Rows, e: Entry) {
    exists i :: i in rows && i != e.id && SameSlot(e, rows[i])
  }

  ghost predicate Consistent(rows: Rows) {
    && (forall i :: i in rows ==> rows[i].id == i)
    && (forall i, j :: i in rows && j in rows && SameSlot(rows[i], rows[j]) ==> i == j)
  }

  datatype Outcome = NotUpdatable | Violation | Ok(entry: Entry)

  /** The outcome and the table after `update_entry`. */
  function UpdateOutcome(rows: Rows, owner: string, id: Id, u: Updates, now: int, rc: string -> string): Outcome {
    if id !in rows || rows[id].owner != owner || Immutable(rows[id].kind) then NotUpdatable
    else if Collides(rows, Stored(rows[id], u, now, rc)) then Violation
    else Ok(Returned(rows[id], u, now, rc))
  }

  function UpdatedRows(rows: Rows, owner: string, id: Id, u: Updates, now: int, rc: string -> string): Rows {
    if UpdateOutcome(rows, owner, id, u, now, rc).Ok? then rows[id := Stored(rows[id], u, now, rc)] else rows
  }

  class EntryStore {
    const regconfig: string -> string
    var rows: Rows

    constructor (regconfig: string -> string)
      ensures this.regconfig == regconfig && rows == map[] && Consistent(rows)
    {
      this.regconfig, rows := regconfig, map[];
    }

    method UpdateEntry(owner: string, id: Id, updates: Updates, now: int) returns (out: Outcome)
      requires Consistent(rows)
      modifies this
      ensures out == UpdateOutcome(old(rows), owner, id, updates, now, regconfig)
      ensures rows == UpdatedRows(old(rows), owner, id, updates, now, regconfig) && Consistent(rows)
    {
      if id !in rows || rows[id].owner != owner || Immutable(rows[id].kind) {
        return NotUpdatable;
      }
      var entry, changed := Diff(rows[id], updates, now, regconfig);
      if RecordsNothing(changed) {
        assert rows[id := rows[id]] == rows;
        return Ok(entry);
      }
      entry := entry.(changelog := entry.changelog + [changed], updated := Some(now));
      if Collides(rows, entry) {
        return Violation;
      }
      rows := rows[id := entry];
      return Ok(entry);
    }

    /** Inserts, or updates the row that has the slot by code of its own.  For an existing row of
        a mutable type the table is the one `UpdateEntry` leaves, given the differing tags and
        the differing non-null fields. */
    method UpsertByLogicalKey(given: Entry, now: int) returns (row: Entry, created: bool)
      requires Consistent(rows) && given.logicalKey.Some? && given.id !in rows
      modifies this
      ensures Consistent(rows)
      ensures created <==> forall i :: i in old(rows) ==>
                old(rows)[i].owner != given.owner || old(rows)[i].source != given.source
                || old(rows)[i].logicalKey != given.logicalKey
      ensures created ==> row == given.(language := regconfig(given.language)) && rows == old(rows)[given.id := row]
      ensures !created ==> row.id in old(rows) && row.owner == given.owner && row.source == given.source
                           && row.logicalKey == given.logicalKey
      ensures !created ==>
                var e := old(rows)[row.id];
                && row == Returned(e, UpsertUpdates(e, given), now, regconfig)
                && rows == old(rows)[row.id := Stored(e, UpsertUpdates(e, given), now, regconfig)]
                && (!Immutable(e.kind) ==>
                      var u := UpsertUpdates(e, given);
                      && rows == UpdatedRows(old(rows), given.owner, row.id, u, now, regconfig)
                      && UpdateOutcome(old(rows), given.owner, row.id, u, now, regconfig) == Ok(row))
    {
      if id :| id in rows && SameSlot(given, rows[id]) {
        created := false;
        UpsertIsUpdate(rows, rows[id], given, now, regconfig);
        row := UpdateInPlace(rows[id], given, now);
      } else {
        created := true;
        row := given.(language := regconfig(given.language));
        rows := rows[row.id := row];
      }
    }

    /** The part of the upsert for an existing row: collect, return if nothing differs, apply. */
    method UpdateInPlace(e: Entry, given: Entry, now: int) returns (row: Entry)
      requires Consistent(rows) && e.id in rows && rows[e.id] == e
      modifies this
      ensures row == Returned(e, UpsertUpdates(e, given), now, regconfig)
      ensures rows == old(rows)[e.id := Stored(e, UpsertUpdates(e, given), now, regconfig)] && Consistent(rows)
    {
      assert rows[e.id := e] == rows;
      var tags := if given.tags != e.tags then Some(given.tags) else None;
      var updates := CollectUpdates(e, given);
      if tags.None? && updates == map[] {
        NoUpdates(e, given, now, regconfig);
        return e;
      }
      var changed: Change;
      row, changed := ApplyUpdates(e, tags, updates, now);
      if changed.tags.Some? || changed.data != map[] {
        row := row.(changelog := row.changelog + [changed], updated := Some(now));
        rows := rows[e.id := row];
      }
    }
  }

  // ---------------------------------------------------------------- what an update does, field by field

  /** Some old value is recorded: the update changes the source, tags or language, or a description,
      content or content type that was there. */
  ghost predicate Records(e: Entry, u: Updates) {
    || (u.source.Some? && u.source.value != e.source)
    || (u.tags.Some? && u.tags.value != e.tags)
    || (u.language.Some? && u.language.value != e.language)
    || exists f :: f in {Description, Content, ContentType} && f in u.data && f in e.data
                   && e.data[f] != Null && u.data[f] != e.data[f]
  }

  lemma RecordsSays(e: Entry, u: Updates, now: int)
    ensures !RecordsNothing(ChangeOf(e, u, now)) <==> Records(e, u)
  {
    var olds := OldValues(e.data, u.data);
    forall f
      ensures f in olds <==> f in {Description, Content, ContentType} && f in u.data && f in e.data
                             && e.data[f] != Null && u.data[f] != e.data[f]
    {
    }
    assert olds != map[] <==> exists f :: f in olds;
  }

  /** Redo: the returned entry has every requested value, the language as validated if it is
      another one, and everything that was not requested is as before. */
  lemma UpdateFieldsSay(e: Entry, u: Updates, now: int, rc: string -> string)
    ensures var r := Returned(e, u, now, rc);
            && r.source == (if u.source.Some? then u.source.value else e.source)
            && r.tags == (if u.tags.Some? then u.tags.value else e.tags)
            && r.language == (if u.language.Some? && u.language.value != e.language then rc(u.language.value)
                              else e.language)
            && (forall f :: f in {Description, Content, ContentType} && f in u.data ==>
                  (if f in r.data then r.data[f] else Null) == u.data[f])
            && (forall f :: f !in {Description, Content, ContentType} || f !in u.data ==>
                  (f in r.data <==> f in e.data) && (f in e.data ==> r.data[f] == e.data[f]))
            && r.id == e.id && r.owner == e.owner && r.kind == e.kind && r.created == e.created
            && r.logicalKey == e.logicalKey
            && r.updated == if Records(e, u) then Some(now) else e.updated
  {
    RecordsSays(e, u, now);
  }

  /** The record of an update: the time, and the old value of exactly what changed and was there. */
  lemma UpdateRecordSays(e: Entry, u: Updates, now: int, rc: string -> string)
    ensures Records(e, u) ==>
              var log := Returned(e, u, now, rc).changelog;
              && |log| == |e.changelog| + 1 && log[..|e.changelog|] == e.changelog
              && var c := log[|e.changelog|];
              && c.updated == now
              && c.source == (if u.source.Some? && u.source.value != e.source then Some(e.source) else None)
              && c.tags == (if u.tags.Some? && u.tags.value != e.tags then Some(e.tags) else None)
              && c.language == (if u.language.Some? && u.language.value != e.language then Some(e.language) else None)
              && (forall f :: f in c.data <==> f in {Description, Content, ContentType} && f in u.data && f in e.data
                                               && e.data[f] != Null && u.data[f] != e.data[f])
              && forall f :: f in c.data ==> c.data[f] == e.data[f]
    ensures !Records(e, u) ==> Returned(e, u, now, rc).changelog == e.changelog
  {
    RecordsSays(e, u, now);
  }

  /** When an update is refused, and what it leaves in the table otherwise: the returned entry if
      something is recorded, and else nothing new. */
  lemma UpdateSays(rows: Rows, owner: string, id: Id, u: Updates, now: int, rc: string -> string)
    requires Consistent(rows)
    ensures var out, rows' := UpdateOutcome(rows, owner, id, u, now, rc), UpdatedRows(rows, owner, id, u, now, rc);
            && (out.NotUpdatable? <==>
                  id !in rows || rows[id].owner != owner || rows[id].kind in {Status, Alert, Suppression})
            && (out.Violation? <==>
                  && !out.NotUpdatable? && Records(rows[id], u)
                  && rows[id].logicalKey != None && u.source != None
                  && exists i :: i in rows && i != id && rows[i].owner == owner && rows[i].source == u.source.value
                                 && rows[i].logicalKey == rows[id].logicalKey)
            && (!out.Ok? ==> rows' == rows)
            && (out.Ok? ==> out.entry == Returned(rows[id], u, now, rc)
                            && rows' == if Records(rows[id], u) then rows[id := out.entry] else rows)
  {
    if id in rows && rows[id].owner == owner && !Immutable(rows[id].kind) {
      var e, stored := rows[id], Stored(rows[id], u, now, rc);
      RecordsSays(e, u, now);
      UpdateFieldsSay(e, u, now, rc);
      assert rows[id := e] == rows;
      if Collides(rows, stored) {
        var i :| i in rows && i != stored.id && SameSlot(stored, rows[i]);
        assert u.source != None && rows[i].source == u.source.value;
      }
      forall i | i in rows && i != id && rows[i].owner == owner && rows[i].logicalKey == e.logicalKey
                 && e.logicalKey.Some? && Records(e, u) && u.source.Some? && rows[i].source == u.source.value
        ensures Collides(rows, stored)
      {
        assert SameSlot(stored, rows[i]);
      }
    }
  }

  /** Redo, for the table: if something is recorded, the entry returned is the row stored and it
      has every requested value; everything that was not requested is as before. */
  lemma UpdateRedoes(rows: Rows, owner: string, id: Id, u: Updates, now: int, rc: string -> string)
    requires Consistent(rows) && UpdateOutcome(rows, owner, id, u, now, rc).Ok? && Records(rows[id], u)
    ensures id in rows
            && var e, r := rows[id], UpdateOutcome(rows, owner, id, u, now, rc).entry;
            && UpdatedRows(rows, owner, id, u, now, rc) == rows[id := r]
            && r.source == (if u.source.Some? then u.source.value else e.source)
            && r.tags == (if u.tags.Some? then u.tags.value else e.tags)
            && r.language == (if u.language.Some? && u.language.value != e.language then rc(u.language.value)
                              else e.language)
            && (forall f :: f in {Description, Content, ContentType} && f in u.data ==>
                  (if f in r.data then r.data[f] else Null) == u.data[f])
            && (forall f :: f !in {Description, Content, ContentType} || f !in u.data ==>
                  (f in r.data <==> f in e.data) && (f in e.data ==> r.data[f] == e.data[f]))
            && r.id == e.id && r.owner == e.owner && r.kind == e.kind && r.created == e.created
            && r.logicalKey == e.logicalKey && r.updated == Some(now)
            && |r.changelog| == |e.changelog| + 1 && r.changelog[..|e.changelog|] == e.changelog
  {
    UpdateSays(rows, owner, id, u, now, rc);
    UpdateFieldsSay(rows[id], u, now, rc);
    UpdateRecordSays(rows[id], u, now, rc);
  }

  /** What an upsert of an existing row leaves: the given tags, every given value that is not
      null, and everything else as before. */
  lemma UpsertFieldsSay(e: Entry, given: Entry, now: int, rc: string -> string)
    ensures var r := Returned(e, UpsertUpdates(e, given), now, rc);
            && r.tags == given.tags && r.source == e.source && r.language == e.language
            && (forall f :: f in {Description, Content, ContentType} && f in given.data && given.data[f] != Null ==>
                  f in r.data && r.data[f] == given.data[f])
            && (forall f :: f !in {Description, Content, ContentType} || f !in given.data || given.data[f] == Null ==>
                  (f in r.data <==> f in e.data) && (f in e.data ==> r.data[f] == e.data[f]))
            && r.id == e.id && r.owner == e.owner && r.kind == e.kind && r.created == e.created
            && r.logicalKey == e.logicalKey
  {
    var u := UpsertUpdates(e, given);
    UpdateFieldsSay(e, u, now, rc);
    forall f | f in {Description, Content, ContentType} && f in given.data && given.data[f] != Null
      ensures f in Returned(e, u, now, rc).data && Returned(e, u, now, rc).data[f] == given.data[f]
    {
      if f !in u.data {
        assert given.data[f] == Get(e.data, f);
      }
    }
  }

  // ---------------------------------------------------------------- what is recorded, stored, returned

  /** Nothing recorded, nothing stored: even when the returned entry shows new values. */
  lemma UnrecordedIsUnstored(e: Entry, u: Updates, now: int, rc: string -> string)
    ensures RecordsNothing(ChangeOf(e, u, now)) <==> Stored(e, u, now, rc).changelog == e.changelog
    ensures RecordsNothing(ChangeOf(e, u, now)) ==> Stored(e, u, now, rc) == e
  {
    assert |e.changelog + [ChangeOf(e, u, now)]| == |e.changelog| + 1;
  }

  /** The caller is shown something other than what is stored exactly when every requested
      change is a first value for an empty field. */
  lemma ShownButNotStoredIff(e: Entry, u: Updates, now: int, rc: string -> string)
    ensures Returned(e, u, now, rc) != Stored(e, u, now, rc) <==>
            RecordsNothing(ChangeOf(e, u, now)) &&
            exists f :: f in u.data && IsTracked(f) && u.data[f] != Get(e.data, f)
  {
    if RecordsNothing(ChangeOf(e, u, now)) {
      if f :| f in u.data && IsTracked(f) && u.data[f] != Get(e.data, f) {
        assert f in Differing(e.data, u.data);
        assert Get(Assigned(e, u, rc).data, f) != Get(e.data, f);
      } else {
        assert Differing(e.data, u.data) == map[];
        assert e.data + map[] == e.data;
      }
    }
  }

  /** The failing case: a first description for an entry that has none is returned, not stored. */
  lemma FirstDescriptionIsLost(e: Entry, text: string, now: int, rc: string -> string)
    requires Description !in e.data
    ensures var u := Updates(None, None, None, map[Description := Str(text)]);
            && Get(Returned(e, u, now, rc).data, Description) == Str(text)
            && Stored(e, u, now, rc) == e && Get(e.data, Description) == Null
  {
    var wanted: Data := map[Description := Str(text)];
    assert Description in Differing(e.data, wanted);
    assert OldValues(e.data, wanted) == map[];
  }

  /** `update_entry`, given the differences an upsert asks for, never violates the slot; it goes
      through exactly when the row's type is mutable. */
  lemma UpsertIsUpdate(rows: Rows, e: Entry, given: Entry, now: int, rc: string -> string)
    requires Consistent(rows) && e.id in rows && rows[e.id] == e
    ensures var u := UpsertUpdates(e, given);
            && UpdateOutcome(rows, e.owner, e.id, u, now, rc) ==
               (if Immutable(e.kind) then NotUpdatable else Ok(Returned(e, u, now, rc)))
            && UpdatedRows(rows, e.owner, e.id, u, now, rc) ==
               (if Immutable(e.kind) then rows else rows[e.id := Stored(e, u, now, rc)])
  {
    var stored := Stored(e, UpsertUpdates(e, given), now, rc);
    assert stored.source == e.source && stored.owner == e.owner && stored.logicalKey == e.logicalKey;
    assert forall i :: i in rows && i != e.id ==> !SameSlot(stored, rows[i]);
  }

  /** With nothing collected the row is returned and stored as it was. */
  lemma NoUpdates(e: Entry, given: Entry, now: int, rc: string -> string)
    requires UpsertUpdates(e, given).tags.None? && UpsertUpdates(e, given).data == map[]
    ensures Returned(e, UpsertUpdates(e, given), now, rc) == e && Stored(e, UpsertUpdates(e, given), now, rc) == e
  {
    var wanted := UpsertUpdates(e, given).data;
    assert Differing(e.data, wanted) == map[] && OldValues(e.data, wanted) == map[];
    assert e.data + map[] == e.data;
  }

  /** Repeating an upsert at once leaves the stored row as the first one left it. */
  lemma UpsertTwice(e: Entry, given: Entry, now: int, later: int, rc: string -> string)
    ensures var once := Stored(e, UpsertUpdates(e, given), now, rc);
            Stored(once, UpsertUpdates(once, given), later, rc) == once
  {
    var u := UpsertUpdates(e, given);
    var once := Stored(e, u, now, rc);
    if once != e {
      var again := UpsertUpdates(once, given);
      assert again.data == map[];
      assert OldValues(once.data, again.data) == map[];
    }
  }

  // ---------------------------------------------------------------- the changelog undoes updates

  /** Puts the recorded old values back. */
  function Undo(e: Entry, c: Change): Entry {
    e.(source := if c.source.Some? then c.source.value else e.source,
       tags := if c.tags.Some? then c.tags.value else e.tags,
       language := if c.language.Some? then c.language.value else e.language,
       data := e.data + c.data)
  }

  /** Undoes the newest records until `n` are left. */
  function UndoTo(e: Entry, n: nat): Entry
    decreases |e.changelog|
  {
    if |e.changelog| <= n then e
    else UndoTo(Undo(e, e.changelog[|e.changelog| - 1]).(changelog := e.changelog[..|e.changelog| - 1]), n)
  }

  datatype Request = Request(updates: Updates, now: int)

  /** The stored row after some updates, one after the other. */
  function StoredAfter(e: Entry, rs: seq<Request>, rc: string -> string): Entry
    decreases |rs|
  {
    if rs == [] then e else StoredAfter(Stored(e, rs[0].updates, rs[0].now, rc), rs[1..], rc)
  }

  predicate NonNull(rs: seq<Request>) {
    forall i, f :: 0 <= i < |rs| && f in rs[i].updates.data ==> !rs[i].updates.data[f].Null?
  }

  /** Undoing to `n` passes through undoing to `n + 1`. */
  lemma {:induction false} UndoOneMore(e: Entry, n: nat)
    ensures UndoTo(e, n) == UndoTo(UndoTo(e, n + 1), n)
    decreases |e.changelog|
  {
    if |e.changelog| > n + 1 {
      UndoOneMore(Undo(e, e.changelog[|e.changelog| - 1]).(changelog := e.changelog[..|e.changelog| - 1]), n);
    }
  }

  /** `back` agrees with `e` where undo can tell: everywhere except tracked fields that were
      empty in `e` and are filled in `last`. */
  ghost predicate Restores(back: Entry, e: Entry, last: Entry) {
    && back.source == e.source && back.tags == e.tags && back.language == e.language
    && back.changelog == e.changelog
    && back.id == e.id && back.owner == e.owner && back.kind == e.kind && back.created == e.created
    && back.logicalKey == e.logicalKey
    && (forall f :: IsTracked(f) ==> (Get(back.data, f) == Get(e.data, f) <==> RestorableField(e, last, f)))
    && (forall f :: !IsTracked(f) ==> Get(back.data, f) == Get(e.data, f))
    && (forall f :: Get(last.data, f).Null? ==> Get(e.data, f).Null?)
  }

  predicate RestorableField(e: Entry, last: Entry, f: Field) {
    !Get(e.data, f).Null? || Get(last.data, f).Null?
  }

  /** Undoing one recorded update. */
  lemma UndoOneUpdate(e: Entry, u: Updates, now: int, rc: string -> string, back: Entry, last: Entry)
    requires forall f :: f in u.data ==> !u.data[f].Null?
    requires !RecordsNothing(ChangeOf(e, u, now)) && Restores(back, Stored(e, u, now, rc), last)
    ensures Restores(Undo(back, ChangeOf(e, u, now)).(changelog := e.changelog), e, last)
  {
    var e1, c := Stored(e, u, now, rc), ChangeOf(e, u, now);
    var r := Undo(back, c).(changelog := e.changelog);
    forall f
      ensures IsTracked(f) ==> (Get(r.data, f) == Get(e.data, f) <==> RestorableField(e, last, f))
      ensures !IsTracked(f) ==> Get(r.data, f) == Get(e.data, f)
      ensures Get(last.data, f).Null? ==> Get(e.data, f).Null?
    {
      UndoOneField(e, u, now, rc, back, last, f);
    }
  }

  lemma UndoOneField(e: Entry, u: Updates, now: int, rc: string -> string, back: Entry, last: Entry, f: Field)
    requires forall f :: f in u.data ==> !u.data[f].Null?
    requires !RecordsNothing(ChangeOf(e, u, now)) && Restores(back, Stored(e, u, now, rc), last)
    ensures var r := Undo(back, ChangeOf(e, u, now));
            && (IsTracked(f) ==> (Get(r.data, f) == Get(e.data, f) <==> RestorableField(e, last, f)))
            && (!IsTracked(f) ==> Get(r.data, f) == Get(e.data, f))
            && (Get(last.data, f).Null? ==> Get(e.data, f).Null?)
  {
    var e1 := Stored(e, u, now, rc);
    if f in Differing(e.data, u.data) {
      assert Get(e1.data, f) == u.data[f];
      if Get(e.data, f).Null? {
        assert f !in ChangeOf(e, u, now).data;
      }
    } else {
      assert Get(e1.data, f) == Get(e.data, f);
    }
  }

  /** Undoing every record written since, newest first, restores exactly the tracked fields that
      were present at the start or are still empty at the end, and everything else but the time
      of the last update, which no record keeps. */
  lemma {:induction false} ChangelogUndoes(e: Entry, rs: seq<Request>, rc: string -> string)
    requires NonNull(rs)
    ensures Restores(UndoTo(StoredAfter(e, rs, rc), |e.changelog|), e, StoredAfter(e, rs, rc))
    decreases |rs|
  {
    if rs != [] {
      var u, now := rs[0].updates, rs[0].now;
      var e1, last := Stored(e, u, now, rc), StoredAfter(e, rs, rc);
      ChangelogUndoes(e1, rs[1..], rc);
      if e1 != e {
        assert e1.changelog == e.changelog + [ChangeOf(e, u, now)];
        var back := UndoTo(last, |e.changelog| + 1);
        UndoOneUpdate(e, u, now, rc, back, last);
        UndoOneMore(last, |e.changelog|);
        assert back.changelog[..|e.changelog|] == e.changelog;
      }
    }
  }
}
