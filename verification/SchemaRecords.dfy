/**
 Schemas, and the records pinned to them.  A schema's logical key is composed of a family and
 a version; deleting a schema splits the key again to look for records pinned to it.
 */
module SchemaRecords {
  import opened Options

  // ---------------------------------------------------------------- composite keys

  function Compose(family: string, version: string): string {
    family + ":" + version
  }

  predicate ColonFree(s: string) {
    ':' !in s
  }

  datatype Pin = Pin(schemaRef: string, version: string)

  /** `rpartition(":")`: the parts around the last colon, if there is one. */
  function Split(key: string): Option<Pin> {
    if key == "" then None
    else
      var front, last := key[..|key| - 1], key[|key| - 1];
      if last == ':' then Some(Pin(front, ""))
      else
        match Split(front)
        case None => None
        case Some(p) => Some(Pin(p.schemaRef, p.version + [last]))
  }

  /** Whatever is split off is colon-free and composes back to the key. */
  lemma {:induction false} SplitComposes(key: string)
    ensures Split(key).None? <==> ColonFree(key)
    ensures Split(key).Some? ==>
              && ColonFree(Split(key).value.version)
              && Compose(Split(key).value.schemaRef, Split(key).value.version) == key
  {
    if key != "" {
      var front := key[..|key| - 1];
      SplitComposes(front);
      assert key == front + [key[|key| - 1]];
      if Split(front).Some? {
        var p := Split(front).value;
        assert (p.schemaRef + ":") + p.version + [key[|key| - 1]] == Compose(p.schemaRef, p.version + [key[|key| - 1]]);
      }
    }
  }

  lemma {:induction false} SplitOfColonFree(family: string, version: string)
    requires ColonFree(version)
    ensures Split(Compose(family, version)) == Some(Pin(family, version))
  {
    var key := Compose(family, version);
    if version == "" {
      assert key[..|key| - 1] == family;
    } else {
      var v := version[..|version| - 1];
      assert key[..|key| - 1] == Compose(family, v);
      assert version == v + [version[|version| - 1]];
      SplitOfColonFree(family, v);
    }
  }

  /** Splitting recovers what was composed exactly when the version has no colon. */
  lemma RoundTripIff(family: string, version: string)
    ensures Split(Compose(family, version)) == Some(Pin(family, version)) <==> ColonFree(version)
  {
    if ColonFree(version) {
      SplitOfColonFree(family, version);
    } else {
      SplitComposes(Compose(family, version));
    }
  }

  // ---------------------------------------------------------------- the store

  datatype Owner = System | User(name: string)

  datatype Id = Id(text: string)

  datatype Json = Null | Value(text: string)

  /** JSON Schema validation: of schema bodies, and of content against a body. */
  datatype Validator = Validator(isSchema: Json -> bool, conforms: (Json, Json) -> bool)

  /** `Other` covers the remaining types; status, alert and suppression entries are not mutable. */
  datatype Kind = Schema | Record(pin: Pin) | Other(isMutable: bool)

  /** `data` is the body of a schema, and the content of any other row. */
  datatype Row = Row(owner: Owner, kind: Kind, source: string, key: Option<string>, live: bool, data: Json)

  type Rows = map<Id, Row>

  predicate IsSchemaFor(row: Row, owner: Owner, key: string) {
    row.live && row.kind.Schema? && row.key == Some(key) && (row.owner == owner || row.owner == System)
  }

  function KeyOf(pin: Pin): string {
    Compose(pin.schemaRef, pin.version)
  }

  /** Some live schema of the caller, or of the system, has this key. */
  predicate Resolves(rows: Rows, owner: Owner, pin: Pin) {
    exists id :: id in rows && IsSchemaFor(rows[id], owner, KeyOf(pin))
  }

  predicate HasOwn(rows: Rows, owner: Owner, key: string) {
    exists id :: id in rows && IsSchemaFor(rows[id], owner, key) && rows[id].owner == owner
  }

  /** A row `find_schema` may return: the caller's own schemas come before the system's. */
  predicate Candidate(rows: Rows, owner: Owner, key: string, id: Id) {
    id in rows && IsSchemaFor(rows[id], owner, key) && (rows[id].owner == owner || !HasOwn(rows, owner, key))
  }

  /** `find_schema` returned `found`; which of several own schemas it picks is open. */
  predicate Found(rows: Rows, owner: Owner, pin: Pin, found: Option<Id>) {
    if Resolves(rows, owner, pin) then found.Some? && Candidate(rows, owner, KeyOf(pin), found.value) else found.None?
  }

  /** Live row `id` has this slot of the unique index. */
  predicate HasSlot(rows: Rows, id: Id, owner: Owner, source: string, key: string) {
    id in rows && rows[id].live && rows[id].owner == owner && rows[id].source == source && rows[id].key == Some(key)
  }

  predicate Taken(rows: Rows, owner: Owner, source: string, key: Option<string>, except: Option<Id>) {
    key.Some? && exists id :: id in rows && HasSlot(rows, id, owner, source, key.value) && Some(id) != except
  }

  ghost function SlotOf(rows: Rows, owner: Owner, source: string, key: string): (id: Id)
    requires Taken(rows, owner, source, Some(key), None)
    ensures HasSlot(rows, id, owner, source, key)
  {
    var id :| HasSlot(rows, id, owner, source, key);
    id
  }

  /** The unique index over live rows with a key. */
  ghost predicate Unique(rows: Rows) {
    forall a, b, owner, source, key ::
      HasSlot(rows, a, owner, source, key) && HasSlot(rows, b, owner, source, key) ==> a == b
  }

  /** The live records of an owner pinned to exactly this pair. */
  function Referencing(rows: Rows, owner: Owner, pin: Pin): set<Id> {
    set id | id in rows && rows[id].live && rows[id].owner == owner && rows[id].kind == Record(pin)
  }

  /** `assert_schema_deletable`: a key without a colon, or with an empty part, fails an
      assertion; any referencing record raises an error. */
  predicate Deletable(rows: Rows, owner: Owner, key: string) {
    match Split(key)
    case None => false
    case Some(pin) => pin.schemaRef != "" && pin.version != "" && |Referencing(rows, owner, pin)| == 0
  }

  /** The tool calls.  `found` is the schema that was looked up, and `others` says whether the
      call records a change of some field not modelled here, such as the tags. */
  datatype Op =
    | RegisterSchema(owner: Owner, id: Id, source: string, family: string, version: string, body: Json)
    | CreateRecord(owner: Owner, id: Id, source: string, key: string, pin: Pin, content: Json,
                   found: Option<Id>, others: bool)
    | UpdateEntry(owner: Owner, id: Id, newSource: Option<string>, newContent: Option<Json>,
                  found: Option<Id>, others: bool)
    | DeleteById(owner: Owner, id: Id)

  predicate Passes(v: Validator, rows: Rows, found: Option<Id>, content: Json) {
    found.Some? && found.value in rows && v.conforms(rows[found.value].data, content)
  }

  /** Whether the call goes through; a refused call changes nothing. */
  predicate Accepted(v: Validator, rows: Rows, op: Op) {
    match op
    case RegisterSchema(owner, id, source, family, version, body) =>
      && family != "" && version != "" && v.isSchema(body)
      && !Taken(rows, owner, source, Some(Compose(family, version)), None)
    case CreateRecord(owner, id, source, key, pin, content, found, _) => Passes(v, rows, found, content)
    case UpdateEntry(owner, id, source, content, found, _) =>
      && Visible(rows, owner, id) && !rows[id].kind.Schema? && rows[id].kind != Other(false)
      && (rows[id].kind.Record? && content.Some? ==> Passes(v, rows, found, content.value))
      && (source.Some? ==> !Taken(rows, owner, source.value, rows[id].key, Some(id)))
    case DeleteById(owner, id) =>
      && Visible(rows, owner, id)
      && (rows[id].kind.Schema? && rows[id].key.Some? ==> Deletable(rows, owner, rows[id].key.value))
  }

  predicate Visible(rows: Rows, owner: Owner, id: Id) {
    id in rows && rows[id].owner == owner && rows[id].live
  }

  /** What is stored for new content: a first value for empty content is stored only together
      with some recorded change. */
  function Stored(before: Json, content: Json, recorded: bool): Json {
    if before.Null? && !recorded then before else content
  }

  /** The row in a taken slot after a record was created there: its pin stays, null content is
      ignored, and a schema's body is no content. */
  function Overwritten(row: Row, content: Json, others: bool): Row {
    if row.kind.Schema? || content.Null? then row else row.(data := Stored(row.data, content, others))
  }

  function Updated(row: Row, source: Option<string>, content: Option<Json>, others: bool): Row {
    var recorded := others || (source.Some? && source.value != row.source);
    row.(source := if source.Some? then source.value else row.source,
         data := if content.Some? then Stored(row.data, content.value, recorded) else row.data)
  }

  /** The table after an accepted call. */
  ghost function Effect(v: Validator, rows: Rows, op: Op): Rows
    requires Accepted(v, rows, op)
  {
    match op
    case RegisterSchema(owner, id, source, family, version, body) =>
      rows[id := Row(owner, Schema, source, Some(Compose(family, version)), true, body)]
    case CreateRecord(owner, id, source, key, pin, content, _, others) =>
      if Taken(rows, owner, source, Some(key), None) then
        var slot := SlotOf(rows, owner, source, key);
        rows[slot := Overwritten(rows[slot], content, others)]
      else rows[id := Row(owner, Record(pin), source, Some(key), true, content)]
    case UpdateEntry(owner, id, source, content, _, others) => rows[id := Updated(rows[id], source, content, others)]
    case DeleteById(owner, id) => rows[id := rows[id].(live := false)]
  }

  ghost function After(v: Validator, rows: Rows, op: Op): Rows {
    if Accepted(v, rows, op) then Effect(v, rows, op) else rows
  }

  ghost function AfterAll(v: Validator, rows: Rows, ops: seq<Op>): Rows
    decreases |ops|
  {
    if ops == [] then rows else AfterAll(v, After(v, rows, ops[0]), ops[1..])
  }

  /** Writing a row whose slot no other row has keeps the index unique. */
  lemma OneRowUnique(rows: Rows, id: Id, row: Row)
    requires Unique(rows) && (row.live ==> !Taken(rows, row.owner, row.source, row.key, Some(id)))
    ensures Unique(rows[id := row])
  {
    var rows' := rows[id := row];
    forall a, b, owner, source, key | HasSlot(rows', a, owner, source, key) && HasSlot(rows', b, owner, source, key)
      ensures a == b
    {
      if a != id && b != id {
        assert HasSlot(rows, a, owner, source, key) && HasSlot(rows, b, owner, source, key);
      } else {
        var other := if a == id then b else a;
        assert other != id ==> HasSlot(rows, other, owner, source, key);
      }
    }
  }

  /** A row that keeps its slot, or leaves it, is in nobody's way. */
  lemma OwnSlotFree(rows: Rows, id: Id)
    requires Unique(rows) && id in rows && rows[id].live
    ensures !Taken(rows, rows[id].owner, rows[id].source, rows[id].key, Some(id))
  {
    if rows[id].key.Some? {
      assert HasSlot(rows, id, rows[id].owner, rows[id].source, rows[id].key.value);
    }
  }

  /** Every call keeps the index unique. */
  lemma AfterUnique(v: Validator, rows: Rows, op: Op)
    requires Unique(rows) && (op.RegisterSchema? || op.CreateRecord? ==> op.id !in rows)
    ensures Unique(After(v, rows, op))
  {
    if Accepted(v, rows, op) {
      match op {
        case RegisterSchema(owner, id, source, family, version, body) =>
          OneRowUnique(rows, id, Row(owner, Schema, source, Some(Compose(family, version)), true, body));
        case CreateRecord(owner, id, source, key, pin, content, _, others) =>
          if Taken(rows, owner, source, Some(key), None) {
            var slot := SlotOf(rows, owner, source, key);
            OwnSlotFree(rows, slot);
            OneRowUnique(rows, slot, Overwritten(rows[slot], content, others));
          } else {
            OneRowUnique(rows, id, Row(owner, Record(pin), source, Some(key), true, content));
          }
        case UpdateEntry(owner, id, source, content, _, others) =>
          OwnSlotFree(rows, id);
          OneRowUnique(rows, id, Updated(rows[id], source, content, others));
        case DeleteById(_, id) =>
          OneRowUnique(rows, id, rows[id].(live := false));
      }
    }
  }

  // ---------------------------------------------------------------- the operations

  class SchemaStore {
    const v: Validator
    var rows: Rows

    constructor (v: Validator)
      ensures this.v == v && rows == map[] && Unique(rows)
    {
      this.v, rows := v, map[];
    }

    /** The caller's own live schema under this key, or else the system's. */
    method FindSchema(owner: Owner, pin: Pin) returns (found: Option<Id>)
      ensures Found(rows, owner, pin, found)
    {
      if id :| id in rows && IsSchemaFor(rows[id], owner, KeyOf(pin)) && rows[id].owner == owner {
        return Some(id);
      }
      if id :| id in rows && IsSchemaFor(rows[id], owner, KeyOf(pin)) {
        return Some(id);
      }
      return None;
    }

    method RegisterSchema(owner: Owner, id: Id, source: string, family: string, version: string, body: Json)
      returns (ok: bool)
      requires id !in rows && Unique(rows)
      modifies this
      ensures var op := Op.RegisterSchema(owner, id, source, family, version, body);
              ok == Accepted(v, old(rows), op) && rows == After(v, old(rows), op) && Unique(rows)
    {
      AfterUnique(v, rows, Op.RegisterSchema(owner, id, source, family, version, body));
      if family == "" || version == "" || !v.isSchema(body) {
        return false;
      }
      var key := Compose(family, version);
      if Taken(rows, owner, source, Some(key), None) {
        return false;
      }
      rows := rows[id := Row(owner, Schema, source, Some(key), true, body)];
      return true;
    }

    method CreateRecord(owner: Owner, id: Id, source: string, key: string, pin: Pin, content: Json, others: bool)
      returns (ok: bool, found: Option<Id>)
      requires id !in rows && Unique(rows)
      modifies this
      ensures Found(old(rows), owner, pin, found)
      ensures ok <==> exists s :: s in old(rows) && found == Some(s) && v.conforms(old(rows)[s].data, content)
      ensures var op := Op.CreateRecord(owner, id, source, key, pin, content, found, others);
              ok == Accepted(v, old(rows), op) && rows == After(v, old(rows), op) && Unique(rows)
    {
      found := FindSchema(owner, pin);
      AfterUnique(v, rows, Op.CreateRecord(owner, id, source, key, pin, content, found, others));
      if found.None? || !v.conforms(rows[found.value].data, content) {
        return false, found;
      }
      if slot :| slot in rows && HasSlot(rows, slot, owner, source, key) {
        rows := rows[slot := Overwritten(rows[slot], content, others)];
      } else {
        rows := rows[id := Row(owner, Record(pin), source, Some(key), true, content)];
      }
      return true, found;
    }

    method UpdateEntry(owner: Owner, id: Id, source: Option<string>, content: Option<Json>, others: bool)
      returns (ok: bool, found: Option<Id>)
      requires Unique(rows)
      modifies this
      ensures id in old(rows) && old(rows)[id].kind.Record? && content.Some? && ok ==>
                Found(old(rows), owner, old(rows)[id].kind.pin, found)
      ensures var op := Op.UpdateEntry(owner, id, source, content, found, others);
              ok == Accepted(v, old(rows), op) && rows == After(v, old(rows), op) && Unique(rows)
    {
      found := None;
      if !Visible(rows, owner, id) || rows[id].kind.Schema? || rows[id].kind == Other(false) {
        return false, found;
      }
      if rows[id].kind.Record? && content.Some? {
        found := FindSchema(owner, rows[id].kind.pin);
        if found.None? || !v.conforms(rows[found.value].data, content.value) {
          return false, found;
        }
      }
      if source.Some? && Taken(rows, owner, source.value, rows[id].key, Some(id)) {
        return false, found;
      }
      AfterUnique(v, rows, Op.UpdateEntry(owner, id, source, content, found, others));
      rows := rows[id := Updated(rows[id], source, content, others)];
      return true, found;
    }

    method DeleteById(owner: Owner, id: Id) returns (ok: bool)
      requires Unique(rows)
      modifies this
      ensures var op := Op.DeleteById(owner, id);
              ok == Accepted(v, old(rows), op) && rows == After(v, old(rows), op) && Unique(rows)
    {
      AfterUnique(v, rows, Op.DeleteById(owner, id));
      if !Visible(rows, owner, id) {
        return false;
      }
      if rows[id].kind.Schema? && rows[id].key.Some? && !Deletable(rows, owner, rows[id].key.value) {
        return false;
      }
      rows := rows[id := rows[id].(live := false)];
      return true;
    }
  }

  // ---------------------------------------------------------------- what the calls do, condition by condition

  /** The schema found is live, has the composed key, and is the caller's own, or the system's if
      the caller has none; nothing is found exactly if there is neither. */
  lemma FoundSays(rows: Rows, owner: Owner, pin: Pin, found: Option<Id>, key: string)
    requires Found(rows, owner, pin, found) && key == pin.schemaRef + ":" + pin.version
    ensures found.Some? ==>
              && found.value in rows
              && var s := rows[found.value];
              && s.live && s.kind == Schema && s.key == Some(key)
              && (s.owner == owner
                  || (s.owner == System && forall x :: x in rows && rows[x].live && rows[x].kind == Schema ==>
                                                         !(rows[x].key == Some(key) && rows[x].owner == owner)))
    ensures found.None? ==>
              forall x :: x in rows && rows[x].live && rows[x].kind == Schema && rows[x].key == Some(key) ==>
                rows[x].owner != owner && rows[x].owner != System
  {
    if found.Some? && rows[found.value].owner != owner {
      forall x | x in rows && rows[x].live && rows[x].kind == Schema && rows[x].key == Some(key)
        ensures rows[x].owner != owner
      {
        assert rows[x].owner == owner ==> IsSchemaFor(rows[x], owner, key);
      }
    }
    if found.None? {
      forall x | x in rows && rows[x].live && rows[x].kind == Schema && rows[x].key == Some(key)
        ensures rows[x].owner != owner && rows[x].owner != System
      {
        assert rows[x].owner == owner || rows[x].owner == System ==> IsSchemaFor(rows[x], owner, key);
      }
    }
  }

  /** A schema is registered exactly if both parts are non-empty, the body is a schema, and no
      live row of the owner has this source and key; it is then one new live row. */
  lemma RegisterSays(v: Validator, rows: Rows, owner: Owner, id: Id, source: string, family: string, version: string,
                     body: Json, key: string)
    requires key == family + ":" + version
    ensures var op := RegisterSchema(owner, id, source, family, version, body);
            var free := (forall x :: x in rows && rows[x].live && rows[x].owner == owner ==>
                           !(rows[x].source == source && rows[x].key == Some(key)));
            && (Accepted(v, rows, op) <==> family != "" && version != "" && v.isSchema(body) && free)
            && After(v, rows, op) == if Accepted(v, rows, op)
                                     then rows[id := Row(owner, Schema, source, Some(key), true, body)] else rows
  {
    forall x | x in rows && rows[x].live && rows[x].owner == owner && rows[x].source == source
               && rows[x].key == Some(key)
      ensures Taken(rows, owner, source, Some(key), None)
    {
      assert HasSlot(rows, x, owner, source, key);
    }
  }

  /** A record is created exactly if a schema was found and the content conforms to it. */
  lemma CreateSays(v: Validator, rows: Rows, owner: Owner, id: Id, source: string, key: string, pin: Pin,
                   content: Json, found: Option<Id>, others: bool)
    requires Found(rows, owner, pin, found)
    ensures var op := CreateRecord(owner, id, source, key, pin, content, found, others);
            && (Accepted(v, rows, op) <==>
                  exists s :: s in rows && found == Some(s) && v.conforms(rows[s].data, content))
            && (!Accepted(v, rows, op) ==> After(v, rows, op) == rows)
            && (Accepted(v, rows, op) && (forall x :: x in rows && rows[x].live && rows[x].owner == owner ==>
                                            !(rows[x].source == source && rows[x].key == Some(key))) ==>
                  After(v, rows, op) == rows[id := Row(owner, Record(pin), source, Some(key), true, content)])
  {
  }

  /** In a taken slot only the content changes: not if it is null, not of a schema, and not if it
      is the first content and nothing else changes. */
  lemma CreateInTakenSlotSays(v: Validator, rows: Rows, owner: Owner, id: Id, source: string, key: string, pin: Pin,
                              content: Json, found: Option<Id>, others: bool, slot: Id)
    requires Unique(rows) && Accepted(v, rows, CreateRecord(owner, id, source, key, pin, content, found, others))
    requires slot in rows && rows[slot].live && rows[slot].owner == owner && rows[slot].source == source
    requires rows[slot].key == Some(key)
    ensures var op := CreateRecord(owner, id, source, key, pin, content, found, others);
            After(v, rows, op) ==
            if rows[slot].kind == Schema || content == Null || (rows[slot].data == Null && !others) then rows
            else rows[slot := rows[slot].(data := content)]
  {
    assert HasSlot(rows, slot, owner, source, key);
    assert SlotOf(rows, owner, source, key) == slot;
    assert rows[slot := rows[slot]] == rows;
  }

  /** An update goes through exactly for the owner's live row of a mutable type, if content given
      for a record conforms to the schema found, and no other live row has the new slot. */
  lemma UpdateSays(v: Validator, rows: Rows, owner: Owner, id: Id, source: Option<string>, content: Option<Json>,
                   found: Option<Id>, others: bool)
    requires id in rows && rows[id].kind.Record? && content.Some? ==> Found(rows, owner, rows[id].kind.pin, found)
    ensures var op := UpdateEntry(owner, id, source, content, found, others);
            && (Accepted(v, rows, op) <==>
                  && id in rows && rows[id].live && rows[id].owner == owner
                  && rows[id].kind != Schema && rows[id].kind != Other(false)
                  && (rows[id].kind.Record? && content.Some? ==>
                        exists s :: s in rows && found == Some(s) && v.conforms(rows[s].data, content.value))
                  && (source.Some? && rows[id].key.Some? ==>
                        forall x :: x in rows && x != id && rows[x].live && rows[x].owner == owner ==>
                          !(rows[x].source == source.value && rows[x].key == rows[id].key)))
            && (!Accepted(v, rows, op) ==> After(v, rows, op) == rows)
            && (Accepted(v, rows, op) ==>
                  var row := rows[id];
                  var recorded := others || (source.Some? && source.value != row.source);
                  After(v, rows, op) ==
                  rows[id := row.(source := if source.Some? then source.value else row.source,
                                  data := if content.None? || (row.data == Null && !recorded) then row.data
                                          else content.value)])
  {
    if id in rows && source.Some? && rows[id].key.Some? {
      forall x | x in rows && x != id && rows[x].live && rows[x].owner == owner && rows[x].source == source.value
                 && rows[x].key == rows[id].key
        ensures Taken(rows, owner, source.value, rows[id].key, Some(id))
      {
        assert HasSlot(rows, x, owner, source.value, rows[id].key.value);
      }
    }
  }

  /** A delete goes through exactly for the owner's live row, and for a keyed schema only if its
      key splits at the last colon into two non-empty parts that no live record of the owner is
      pinned to; the row is then no longer live. */
  lemma DeleteSays(v: Validator, rows: Rows, owner: Owner, id: Id)
    ensures var op := DeleteById(owner, id);
            && (Accepted(v, rows, op) <==>
                  && id in rows && rows[id].live && rows[id].owner == owner
                  && (rows[id].kind == Schema && rows[id].key.Some? ==>
                        exists pin: Pin ::
                          && rows[id].key.value == pin.schemaRef + ":" + pin.version && ':' !in pin.version
                          && pin.schemaRef != "" && pin.version != ""
                          && forall x :: x in rows && rows[x].live && rows[x].owner == owner ==>
                               rows[x].kind != Record(pin)))
            && After(v, rows, op) == if Accepted(v, rows, op) then rows[id := rows[id].(live := false)] else rows
  {
    if id in rows && rows[id].key.Some? {
      DeletableSays(rows, owner, rows[id].key.value);
    }
  }

  lemma DeletableSays(rows: Rows, owner: Owner, key: string)
    ensures Deletable(rows, owner, key) <==>
            exists pin: Pin ::
              && key == pin.schemaRef + ":" + pin.version && ':' !in pin.version
              && pin.schemaRef != "" && pin.version != ""
              && forall x :: x in rows && rows[x].live && rows[x].owner == owner ==> rows[x].kind != Record(pin)
  {
    SplitComposes(key);
    if Deletable(rows, owner, key) {
      var pin := Split(key).value;
      forall x | x in rows && rows[x].live && rows[x].owner == owner
        ensures rows[x].kind != Record(pin)
      {
        assert x !in Referencing(rows, owner, pin);
      }
    }
    forall pin: Pin | key == pin.schemaRef + ":" + pin.version && ':' !in pin.version
      ensures Split(key) == Some(pin)
    {
      SplitOfColonFree(pin.schemaRef, pin.version);
      assert Compose(pin.schemaRef, pin.version) == key;
    }
    forall pin: Pin | (forall x :: x in rows && rows[x].live && rows[x].owner == owner ==> rows[x].kind != Record(pin))
      ensures Referencing(rows, owner, pin) == {}
    {
    }
  }

  // ---------------------------------------------------------------- referential integrity

  /** Every live record's pinned pair resolves for its owner. */
  ghost predicate Intact(rows: Rows) {
    forall id :: id in rows && rows[id].live && rows[id].kind.Record? ==>
      Resolves(rows, rows[id].owner, rows[id].kind.pin)
  }

  /** The delete guard protects records pinned to this version. */
  predicate Guarded(version: string) {
    ColonFree(version) || version[|version| - 1] == ':'
  }

  ghost predicate PinsAllowed(rows: Rows, allowed: string -> bool) {
    forall id :: id in rows && rows[id].live && rows[id].kind.Record? ==> allowed(rows[id].kind.pin.version)
  }

  /** System schemas are fixed, ids are new, schemas are looked up, and records are pinned to
      allowed versions. */
  predicate Regular(rows: Rows, op: Op, allowed: string -> bool) {
    && op.owner != System
    && (op.RegisterSchema? || op.CreateRecord? ==> op.id !in rows)
    && (op.CreateRecord? ==> Found(rows, op.owner, op.pin, op.found) && allowed(op.pin.version))
    && (op.UpdateEntry? && op.newContent.Some? && op.id in rows && rows[op.id].kind.Record? ==>
          Found(rows, op.owner, rows[op.id].kind.pin, op.found))
  }

  ghost predicate AllRegular(v: Validator, rows: Rows, ops: seq<Op>, allowed: string -> bool)
    decreases |ops|
  {
    ops != [] ==> Regular(rows, ops[0], allowed) && AllRegular(v, After(v, rows, ops[0]), ops[1..], allowed)
  }

  /** A key composed with a guarded version never goes through the guard while a live record of
      the owner is pinned to the pair: the guard sees the record, or fails an assertion. */
  lemma GuardStops(rows: Rows, owner: Owner, r: Id, pin: Pin)
    requires r in Referencing(rows, owner, pin) && Guarded(pin.version)
    ensures !Deletable(rows, owner, KeyOf(pin))
  {
    var key := KeyOf(pin);
    if ColonFree(pin.version) {
      SplitOfColonFree(pin.schemaRef, pin.version);
    } else {
      assert key[|key| - 1] == ':';
    }
  }

  /** A live record of the owner that only schema `id` keeps resolving, with an unguarded pin. */
  ghost predicate Strands(rows: Rows, id: Id, r: Id)
    requires id in rows && r in rows
  {
    && rows[id].kind.Schema? && rows[r].live && rows[r].kind.Record? && rows[r].owner == rows[id].owner
    && var pin := rows[r].kind.pin;
    && rows[id].key == Some(KeyOf(pin)) && !Guarded(pin.version)
    && forall s :: s in rows && s != id ==> !IsSchemaFor(rows[s], rows[r].owner, KeyOf(pin))
  }

  lemma DeleteKeepsResolving(v: Validator, rows: Rows, owner: Owner, id: Id, r: Id)
    requires Intact(rows) && owner != System && Accepted(v, rows, DeleteById(owner, id)) && r in rows && r != id
    requires rows[r].live && rows[r].kind.Record? && !Strands(rows, id, r)
    ensures Resolves(After(v, rows, DeleteById(owner, id)), rows[r].owner, rows[r].kind.pin)
  {
    var rows' := After(v, rows, DeleteById(owner, id));
    var pin := rows[r].kind.pin;
    var key := KeyOf(pin);
    var s :| s in rows && IsSchemaFor(rows[s], rows[r].owner, key);
    if s == id {
      if Guarded(pin.version) {
        assert r in Referencing(rows, owner, pin);
        GuardStops(rows, owner, r, pin);
        assert false;
      }
      s :| s in rows && s != id && IsSchemaFor(rows[s], rows[r].owner, key);
    }
    assert IsSchemaFor(rows'[s], rows[r].owner, key);
  }

  /** An accepted delete leaves every record resolving exactly when it strands none. */
  lemma DeleteIntactIff(v: Validator, rows: Rows, owner: Owner, id: Id)
    requires Intact(rows) && owner != System && Accepted(v, rows, DeleteById(owner, id))
    ensures Intact(After(v, rows, DeleteById(owner, id))) <==> forall r :: r in rows ==> !Strands(rows, id, r)
  {
    var rows' := After(v, rows, DeleteById(owner, id));
    forall r | r in rows && r != id && rows[r].live && rows[r].kind.Record? && !Strands(rows, id, r)
      ensures Resolves(rows', rows[r].owner, rows[r].kind.pin)
    {
      DeleteKeepsResolving(v, rows, owner, id, r);
    }
    forall r | r in rows && Strands(rows, id, r)
      ensures r in rows' && rows'[r].live && rows'[r].kind.Record?
      ensures !Resolves(rows', rows'[r].owner, rows'[r].kind.pin)
    {
    }
  }

  lemma AddingKeepsIntact(v: Validator, rows: Rows, op: Op)
    requires Intact(rows) && Regular(rows, op, _ => true) && Accepted(v, rows, op) && !op.DeleteById?
    ensures Intact(After(v, rows, op))
  {
    var rows' := After(v, rows, op);
    forall r | r in rows' && rows'[r].live && rows'[r].kind.Record?
      ensures Resolves(rows', rows'[r].owner, rows'[r].kind.pin)
    {
      var pin := rows'[r].kind.pin;
      var key := KeyOf(pin);
      var s :| s in rows && IsSchemaFor(rows[s], rows'[r].owner, key);
      assert IsSchemaFor(rows'[s], rows'[r].owner, key);
    }
  }

  /** In every run of the tool calls every live record keeps resolving, provided records are
      pinned to guarded versions. */
  lemma {:induction false} IntegrityOfRuns(v: Validator, rows: Rows, ops: seq<Op>, allowed: string -> bool)
    requires forall version :: allowed(version) ==> Guarded(version)
    requires Intact(rows) && PinsAllowed(rows, allowed) && AllRegular(v, rows, ops, allowed)
    ensures Intact(AfterAll(v, rows, ops)) && PinsAllowed(AfterAll(v, rows, ops), allowed)
    decreases |ops|
  {
    if ops != [] {
      var op := ops[0];
      if Accepted(v, rows, op) {
        if op.DeleteById? {
          DeleteIntactIff(v, rows, op.owner, op.id);
        } else {
          AddingKeepsIntact(v, rows, op);
        }
      }
      IntegrityOfRuns(v, After(v, rows, op), ops[1..], allowed);
    }
  }

  /** Registering a schema, pinning a record to it and deleting the schema leaves the record
      resolving exactly when the version has no colon (the guard then sees the record) or ends
      in one (the guard then fails an assertion).  With any other version the guard looks for
      records pinned to a different pair and lets the delete through. */
  lemma GuardWorksIff(v: Validator, owner: Owner, schema: Id, record: Id, source: string, key: string, pin: Pin,
                      body: Json, content: Json)
    requires owner != System && schema != record && pin.schemaRef != "" && pin.version != ""
    requires key != KeyOf(pin) && v.isSchema(body) && v.conforms(body, content)
    ensures var registered := After(v, map[], RegisterSchema(owner, schema, source, pin.schemaRef, pin.version, body));
            var create := CreateRecord(owner, record, source, key, pin, content, Some(schema), false);
            var pinned := After(v, registered, create);
            && Found(registered, owner, pin, Some(schema))
            && record in pinned && pinned[record].kind == Record(pin)
            && (Intact(After(v, pinned, DeleteById(owner, schema))) <==> Guarded(pin.version))
  {
    var composed := KeyOf(pin);
    var registered := After(v, map[], RegisterSchema(owner, schema, source, pin.schemaRef, pin.version, body));
    assert registered == map[schema := Row(owner, Schema, source, Some(composed), true, body)];
    assert IsSchemaFor(registered[schema], owner, composed);
    var create := CreateRecord(owner, record, source, key, pin, content, Some(schema), false);
    var pinned := After(v, registered, create);
    assert pinned == registered[record := Row(owner, Record(pin), source, Some(key), true, content)];
    RoundTripIff(pin.schemaRef, pin.version);
    SplitComposes(composed);
    assert composed[|composed| - 1] == pin.version[|pin.version| - 1];
    if Guarded(pin.version) {
      assert record in Referencing(pinned, owner, pin);
      assert !Deletable(pinned, owner, composed);
      assert IsSchemaFor(pinned[schema], owner, composed);
    } else {
      SplitKeepsFamily(pin.schemaRef, pin.version);
      UnguardedDelete(v, pinned, owner, schema, record, pin, Split(composed).value);
    }
  }

  /** No regular run from any intact store breaks integrity exactly when every version that
      records may be pinned to is guarded, given that the validation accepts anything at all. */
  lemma IntegrityIff(v: Validator, allowed: string -> bool, body: Json, content: Json)
    requires v.isSchema(body) && v.conforms(body, content)
    ensures (forall rows, ops :: Intact(rows) && PinsAllowed(rows, allowed) && AllRegular(v, rows, ops, allowed) ==>
               Intact(AfterAll(v, rows, ops))) <==>
            forall version :: allowed(version) ==> Guarded(version)
  {
    if forall version :: allowed(version) ==> Guarded(version) {
      forall rows, ops | Intact(rows) && PinsAllowed(rows, allowed) && AllRegular(v, rows, ops, allowed)
        ensures Intact(AfterAll(v, rows, ops))
      {
        IntegrityOfRuns(v, rows, ops, allowed);
      }
    } else {
      var version :| allowed(version) && !Guarded(version);
      var ops := UnguardedRun(v, version, allowed, body, content);
    }
  }

  /** Three calls that break an empty store, for any unguarded version. */
  lemma UnguardedRun(v: Validator, version: string, allowed: string -> bool, body: Json, content: Json)
    returns (ops: seq<Op>)
    requires allowed(version) && !Guarded(version) && v.isSchema(body) && v.conforms(body, content)
    ensures AllRegular(v, map[], ops, allowed) && Intact(map[]) && PinsAllowed(map[], allowed)
    ensures !Intact(AfterAll(v, map[], ops))
  {
    var me, schema, record, pin := User("me"), Id("s"), Id("r"), Pin("f", version);
    var op0 := RegisterSchema(me, schema, "src", pin.schemaRef, version, body);
    var op1 := CreateRecord(me, record, "src", "", pin, content, Some(schema), false);
    var op2 := DeleteById(me, schema);
    GuardWorksIff(v, me, schema, record, "src", "", pin, body, content);
    ops := [op0, op1, op2];
    var rows := After(v, map[], op0);
    var pinned := After(v, rows, op1);
    assert ops[1..] == [op1, op2] && [op1, op2][1..] == [op2] && [op2][1..] == [];
    assert AllRegular(v, After(v, pinned, op2), [], allowed);
    assert AllRegular(v, pinned, [op2], allowed);
    assert record !in rows && Found(rows, me, pin, Some(schema));
    assert AllRegular(v, rows, [op1, op2], allowed);
    assert AfterAll(v, pinned, [op2]) == After(v, pinned, op2);
    assert AfterAll(v, rows, [op1, op2]) == After(v, pinned, op2);
  }

  /** A version with an inner colon: the split part still starts with the whole family. */
  lemma {:induction false} SplitKeepsFamily(family: string, version: string)
    requires version != "" && !ColonFree(version)
    ensures Split(Compose(family, version)).Some?
    ensures |Split(Compose(family, version)).value.schemaRef| > |family|
    ensures version[|version| - 1] != ':' ==> Split(Compose(family, version)).value.version != ""
  {
    var v := version[..|version| - 1];
    assert Compose(family, version)[..|Compose(family, version)| - 1] == Compose(family, v);
    assert version == v + [version[|version| - 1]];
    if version[|version| - 1] != ':' {
      SplitKeepsFamily(family, v);
    }
  }

  lemma UnguardedDelete(v: Validator, pinned: Rows, owner: Owner, schema: Id, record: Id, pin: Pin, other: Pin)
    requires pinned.Keys == {schema, record} && schema != record && owner != System && other != pin
    requires pinned[schema].kind.Schema? && pinned[schema].key == Some(KeyOf(pin))
    requires pinned[schema].owner == owner && pinned[schema].live
    requires pinned[record].owner == owner && pinned[record].live && pinned[record].kind == Record(pin)
    requires Split(KeyOf(pin)) == Some(other)
    requires other.schemaRef != "" && other.version != ""
    ensures !Intact(After(v, pinned, DeleteById(owner, schema)))
  {
    assert Referencing(pinned, owner, other) == {};
    var rows := After(v, pinned, DeleteById(owner, schema));
    assert rows == pinned[schema := pinned[schema].(live := false)];
    assert !Resolves(rows, owner, pin);
    assert rows[record].live && rows[record].kind == Record(pin) && rows[record].owner == owner;
  }

  // ---------------------------------------------------------------- the content of records

  predicate IsRecord(row: Row, owner: Owner, key: string) {
    row.live && row.kind.Record? && row.owner == owner && KeyOf(row.kind.pin) == key
  }

  /** The content is valid under every schema that `find_schema` may return for the key. */
  ghost predicate ValidUnder(v: Validator, rows: Rows, owner: Owner, key: string, content: Json) {
    forall s :: Candidate(rows, owner, key, s) ==> v.conforms(rows[s].data, content)
  }

  /** Every live record's content is valid under whatever schema its own pin resolves to. */
  ghost predicate AllValid(v: Validator, rows: Rows) {
    forall r :: r in rows && rows[r].live && rows[r].kind.Record? ==>
      ValidUnder(v, rows, rows[r].owner, KeyOf(rows[r].kind.pin), rows[r].data)
  }

  /** The record the call writes: the row it leaves, if that is a record. */
  ghost function RowWritten(rows: Rows, op: Op): Option<Row> {
    match op
    case CreateRecord(owner, id, source, key, pin, content, _, others) =>
      if Taken(rows, owner, source, Some(key), None) then
        var slot := SlotOf(rows, owner, source, key);
        Some(Overwritten(rows[slot], content, others))
      else Some(Row(owner, Record(pin), source, Some(key), true, content))
    case UpdateEntry(owner, id, source, content, _, others) =>
      if id in rows then Some(Updated(rows[id], source, content, others)) else None
    case _ => None
  }

  /** Which calls make some content invalid, as can be told before the call.
      A new schema does if it comes to be preferred for a record it does not accept; a record
      call if the row it leaves is not valid under that row's own pin; a delete if it makes the
      system's schema preferred for a record that one does not accept. */
  ghost predicate Spoils(v: Validator, rows: Rows, op: Op) {
    match op
    case RegisterSchema(owner, _, _, family, version, body) =>
      exists r :: r in rows && IsRecord(rows[r], owner, Compose(family, version)) && !v.conforms(body, rows[r].data)
    case DeleteById(owner, id) =>
      exists r, s :: r in rows && s in rows && Exposes(rows, owner, id, r, s) && !v.conforms(rows[s].data, rows[r].data)
    case _ =>
      var row := RowWritten(rows, op);
      row.Some? && row.value.kind.Record?
      && !ValidUnder(v, rows, row.value.owner, KeyOf(row.value.kind.pin), row.value.data)
  }

  /** Schema `id` is the only own one for record `r`, and `s` is the system's. */
  ghost predicate Exposes(rows: Rows, owner: Owner, id: Id, r: Id, s: Id)
    requires r in rows && s in rows
  {
    && id in rows && rows[id].kind.Schema? && rows[id].key.Some? && IsRecord(rows[r], owner, rows[id].key.value)
    && IsSchemaFor(rows[s], System, rows[id].key.value)
    && forall x :: x in rows && x != id && rows[x].owner == owner ==> !IsSchemaFor(rows[x], owner, rows[id].key.value)
  }

  /** Writing a row that is no schema leaves the candidates alone. */
  lemma SameCandidates(rows: Rows, id: Id, row: Row, owner: Owner, key: string)
    requires !row.kind.Schema? && (id in rows ==> !rows[id].kind.Schema?)
    ensures forall s :: Candidate(rows[id := row], owner, key, s) <==> Candidate(rows, owner, key, s)
    ensures forall s :: Candidate(rows, owner, key, s) ==> s != id
  {
    var rows' := rows[id := row];
    if HasOwn(rows, owner, key) {
      var x :| x in rows && IsSchemaFor(rows[x], owner, key) && rows[x].owner == owner;
      assert x in rows' && IsSchemaFor(rows'[x], owner, key) && rows'[x].owner == owner;
    }
  }

  lemma SameValidity(v: Validator, rows: Rows, id: Id, row: Row, owner: Owner, key: string, content: Json)
    requires !row.kind.Schema? && (id in rows ==> !rows[id].kind.Schema?)
    ensures ValidUnder(v, rows[id := row], owner, key, content) <==> ValidUnder(v, rows, owner, key, content)
  {
    SameCandidates(rows, id, row, owner, key);
    forall s | Candidate(rows, owner, key, s)
      ensures Candidate(rows[id := row], owner, key, s) && rows[id := row][s].data == rows[s].data
    {
    }
    forall s | Candidate(rows[id := row], owner, key, s)
      ensures Candidate(rows, owner, key, s) && rows[id := row][s].data == rows[s].data
    {
    }
  }

  /** Writing a row that is no schema keeps all content valid exactly if its own is. */
  lemma WriteValidIff(v: Validator, rows: Rows, id: Id, row: Row)
    requires AllValid(v, rows) && !row.kind.Schema? && (id in rows ==> !rows[id].kind.Schema?)
    ensures AllValid(v, rows[id := row]) <==>
            (row.live && row.kind.Record? ==> ValidUnder(v, rows, row.owner, KeyOf(row.kind.pin), row.data))
  {
    var rows' := rows[id := row];
    forall r | r in rows' && rows'[r].live && rows'[r].kind.Record?
      ensures ValidUnder(v, rows', rows'[r].owner, KeyOf(rows'[r].kind.pin), rows'[r].data) <==>
              (r != id || ValidUnder(v, rows, row.owner, KeyOf(row.kind.pin), row.data))
    {
      SameValidity(v, rows, id, row, rows'[r].owner, KeyOf(rows'[r].kind.pin), rows'[r].data);
    }
    assert id in rows' && rows'[id] == row;
  }

  /** A new own schema is one more candidate for its key, and the system's are none any more. */
  lemma RegisteredCandidates(rows: Rows, id: Id, row: Row, owner: Owner, key: string, s: Id)
    requires row.kind.Schema? && row.live && row.key.Some? && row.owner != System && id !in rows
    ensures Candidate(rows[id := row], owner, key, s) <==>
            if owner == row.owner && row.key == Some(key)
            then s == id || (Candidate(rows, owner, key, s) && rows[s].owner == owner)
            else Candidate(rows, owner, key, s)
  {
    var rows' := rows[id := row];
    assert forall x :: x in rows ==> x != id && rows'[x] == rows[x];
    assert id in rows' && rows'[id] == row;
    if HasOwn(rows, owner, key) {
      var x :| x in rows && IsSchemaFor(rows[x], owner, key) && rows[x].owner == owner;
      assert x in rows' && IsSchemaFor(rows'[x], owner, key) && rows'[x].owner == owner;
    }
  }

  lemma RegisterValidIff(v: Validator, rows: Rows, id: Id, row: Row)
    requires AllValid(v, rows) && row.kind.Schema? && row.live && row.key.Some? && row.owner != System && id !in rows
    ensures AllValid(v, rows[id := row]) <==>
            forall r :: r in rows && IsRecord(rows[r], row.owner, row.key.value) ==> v.conforms(row.data, rows[r].data)
  {
    var rows' := rows[id := row];
    forall r | r in rows && rows[r].live && rows[r].kind.Record?
      ensures ValidUnder(v, rows', rows[r].owner, KeyOf(rows[r].kind.pin), rows[r].data) <==>
              (IsRecord(rows[r], row.owner, row.key.value) ==> v.conforms(row.data, rows[r].data))
    {
      var owner, key, content := rows[r].owner, KeyOf(rows[r].kind.pin), rows[r].data;
      assert ValidUnder(v, rows, owner, key, content);
      forall s
        ensures Candidate(rows', owner, key, s) <==>
                if owner == row.owner && row.key == Some(key)
                then s == id || (Candidate(rows, owner, key, s) && rows[s].owner == owner)
                else Candidate(rows, owner, key, s)
      {
        RegisteredCandidates(rows, id, row, owner, key, s);
      }
      assert rows'[id] == row;
    }
    assert forall r :: r in rows ==> rows'[r] == rows[r];
  }

  /** Once an own schema is gone, the other own ones are left, or else the system's. */
  lemma DeletedCandidates(rows: Rows, id: Id, owner: Owner, key: string, s: Id)
    requires id in rows && rows[id].owner != System
    ensures var rows' := rows[id := rows[id].(live := false)];
            Candidate(rows', owner, key, s) <==>
            && s in rows && s != id && IsSchemaFor(rows[s], owner, key)
            && (rows[s].owner == owner
                || forall x :: x in rows && x != id && rows[x].owner == owner ==> !IsSchemaFor(rows[x], owner, key))
  {
    var rows' := rows[id := rows[id].(live := false)];
    assert forall x :: x in rows && x != id ==> x in rows' && rows'[x] == rows[x];
    assert !rows'[id].live;
  }

  /** A record that loses a candidate stays valid, unless only the system's schemas are left. */
  lemma DeleteKeepsValid(v: Validator, rows: Rows, id: Id, r: Id)
    requires AllValid(v, rows) && id in rows && rows[id].kind.Schema? && rows[id].owner != System && rows[id].live
    requires r in rows && rows[r].live && rows[r].kind.Record?
    ensures ValidUnder(v, rows[id := rows[id].(live := false)], rows[r].owner, KeyOf(rows[r].kind.pin), rows[r].data)
            <==>
            forall s :: s in rows && Exposes(rows, rows[id].owner, id, r, s) ==> v.conforms(rows[s].data, rows[r].data)
  {
    var rows' := rows[id := rows[id].(live := false)];
    var owner, key, content := rows[r].owner, KeyOf(rows[r].kind.pin), rows[r].data;
    assert ValidUnder(v, rows, owner, key, content);
    forall s | Candidate(rows', owner, key, s)
      ensures s in rows && rows'[s] == rows[s]
      ensures Candidate(rows, owner, key, s) || Exposes(rows, rows[id].owner, id, r, s)
    {
      DeletedCandidates(rows, id, owner, key, s);
    }
    forall s | s in rows && Exposes(rows, rows[id].owner, id, r, s)
      ensures Candidate(rows', owner, key, s) && rows'[s] == rows[s]
    {
      DeletedCandidates(rows, id, owner, key, s);
    }
  }

  lemma DeleteValidIff(v: Validator, rows: Rows, owner: Owner, id: Id)
    requires AllValid(v, rows) && owner != System && Accepted(v, rows, DeleteById(owner, id))
    ensures AllValid(v, After(v, rows, DeleteById(owner, id))) <==> !Spoils(v, rows, DeleteById(owner, id))
  {
    var rows' := rows[id := rows[id].(live := false)];
    if rows[id].kind.Schema? {
      forall r | r in rows && rows[r].live && rows[r].kind.Record?
        ensures r in rows' && rows'[r] == rows[r]
        ensures ValidUnder(v, rows', rows[r].owner, KeyOf(rows[r].kind.pin), rows[r].data) <==>
                forall s :: s in rows && Exposes(rows, owner, id, r, s) ==> v.conforms(rows[s].data, rows[r].data)
      {
        DeleteKeepsValid(v, rows, id, r);
      }
    } else {
      WriteValidIff(v, rows, id, rows[id].(live := false));
    }
  }

  lemma CreateValidIff(v: Validator, rows: Rows, op: Op)
    requires AllValid(v, rows) && Regular(rows, op, _ => true) && Accepted(v, rows, op) && op.CreateRecord?
    ensures AllValid(v, After(v, rows, op)) <==> !Spoils(v, rows, op)
  {
    if Taken(rows, op.owner, op.source, Some(op.key), None) {
      var slot := SlotOf(rows, op.owner, op.source, op.key);
      var row := Overwritten(rows[slot], op.content, op.others);
      if row.kind.Schema? {
        assert rows[slot := row] == rows;
      } else {
        WriteValidIff(v, rows, slot, row);
      }
    } else {
      WriteValidIff(v, rows, op.id, Row(op.owner, Record(op.pin), op.source, Some(op.key), true, op.content));
    }
  }

  /** From any table whose content is valid, an accepted call keeps it so exactly if it does not
      spoil any. */
  lemma StepValidIff(v: Validator, rows: Rows, op: Op)
    requires AllValid(v, rows) && Regular(rows, op, _ => true) && Accepted(v, rows, op)
    ensures AllValid(v, After(v, rows, op)) <==> !Spoils(v, rows, op)
  {
    match op {
      case RegisterSchema(owner, id, source, family, version, body) =>
        RegisterValidIff(v, rows, id, Row(owner, Schema, source, Some(Compose(family, version)), true, body));
      case CreateRecord(_, _, _, _, _, _, _, _) => CreateValidIff(v, rows, op);
      case UpdateEntry(owner, id, source, content, _, others) =>
        WriteValidIff(v, rows, id, Updated(rows[id], source, content, others));
      case DeleteById(owner, id) => DeleteValidIff(v, rows, owner, id);
    }
  }

  /** All schemas that may be returned for one key have one body. */
  ghost predicate CandidatesAgree(rows: Rows) {
    forall owner, key, s, t :: Candidate(rows, owner, key, s) && Candidate(rows, owner, key, t) ==>
      rows[s].data == rows[t].data
  }

  /** Content that passed against one candidate is valid under them all. */
  lemma PassedIsValid(v: Validator, rows: Rows, owner: Owner, pin: Pin, found: Id, content: Json)
    requires CandidatesAgree(rows) && Found(rows, owner, pin, Some(found)) && v.conforms(rows[found].data, content)
    ensures ValidUnder(v, rows, owner, KeyOf(pin), content)
  {
  }

  /** A create into a free slot never spoils content while the candidates agree. */
  lemma FreeCreateNeverSpoils(v: Validator, rows: Rows, op: Op)
    requires op.CreateRecord? && CandidatesAgree(rows) && Regular(rows, op, _ => true) && Accepted(v, rows, op)
    requires forall x :: x in rows && rows[x].live && rows[x].owner == op.owner && rows[x].source == op.source ==>
               rows[x].key != Some(op.key)
    ensures !Spoils(v, rows, op)
  {
    PassedIsValid(v, rows, op.owner, op.pin, op.found.value, op.content);
  }

  /** So while the candidates agree only three things spoil content: a schema that comes to be
      preferred, a delete that makes the system's preferred, and a record created again in the
      slot of one with another pin. */
  lemma SpoilersAre(v: Validator, rows: Rows, op: Op)
    requires CandidatesAgree(rows) && AllValid(v, rows) && Regular(rows, op, _ => true) && Accepted(v, rows, op)
    requires Spoils(v, rows, op)
    ensures || op.RegisterSchema? || op.DeleteById?
            || (op.CreateRecord? && exists x :: x in rows && rows[x].live && rows[x].owner == op.owner
                                                && rows[x].source == op.source && rows[x].key == Some(op.key)
                                                && rows[x].kind.Record? && KeyOf(rows[x].kind.pin) != KeyOf(op.pin))
  {
    if op.CreateRecord? {
      PassedIsValid(v, rows, op.owner, op.pin, op.found.value, op.content);
      if Taken(rows, op.owner, op.source, Some(op.key), None) {
        var slot := SlotOf(rows, op.owner, op.source, op.key);
        assert rows[slot].kind.Record? ==>
            ValidUnder(v, rows, rows[slot].owner, KeyOf(rows[slot].kind.pin), rows[slot].data);
      }
    } else if op.UpdateEntry? && rows[op.id].kind.Record? {
      var pin := rows[op.id].kind.pin;
      assert ValidUnder(v, rows, rows[op.id].owner, KeyOf(pin), rows[op.id].data);
      if op.newContent.Some? {
        PassedIsValid(v, rows, op.owner, pin, op.found.value, op.newContent.value);
      }
    }
  }

  /** The content is valid at every moment of the run. */
  ghost predicate AlwaysValid(v: Validator, rows: Rows, ops: seq<Op>)
    decreases |ops|
  {
    AllValid(v, rows) && (ops != [] ==> AlwaysValid(v, After(v, rows, ops[0]), ops[1..]))
  }

  /** No accepted call of the run spoils content. */
  ghost predicate NoneSpoils(v: Validator, rows: Rows, ops: seq<Op>)
    decreases |ops|
  {
    ops != [] ==>
      && (Accepted(v, rows, ops[0]) ==> !Spoils(v, rows, ops[0]))
      && NoneSpoils(v, After(v, rows, ops[0]), ops[1..])
  }

  /** In every run from any table whose content is valid, it is valid throughout exactly if no
      call spoils any. */
  lemma {:induction false} ContentValidIff(v: Validator, rows: Rows, ops: seq<Op>)
    requires AllValid(v, rows) && AllRegular(v, rows, ops, _ => true)
    ensures AlwaysValid(v, rows, ops) <==> NoneSpoils(v, rows, ops)
    decreases |ops|
  {
    if ops != [] {
      var next := After(v, rows, ops[0]);
      if Accepted(v, rows, ops[0]) {
        StepValidIff(v, rows, ops[0]);
      }
      if AllValid(v, next) {
        ContentValidIff(v, next, ops[1..]);
      } else {
        assert !AlwaysValid(v, next, ops[1..]);
      }
    }
  }

  /** The failing case: created again with another pin, a record keeps its own and gets content
      that was validated against the other one. */
  lemma RecreatedIsInvalid(v: Validator, rows: Rows, owner: Owner, id: Id, r: Id, pin: Pin, found: Id, content: Json)
    requires Unique(rows) && Found(rows, owner, pin, Some(found)) && v.conforms(rows[found].data, content)
    requires r in rows && rows[r].live && rows[r].kind.Record? && rows[r].owner == owner && rows[r].key.Some?
    requires !content.Null? && !rows[r].data.Null? && !ValidUnder(v, rows, owner, KeyOf(rows[r].kind.pin), content)
    ensures var op := CreateRecord(owner, id, rows[r].source, rows[r].key.value, pin, content, Some(found), false);
            Accepted(v, rows, op) && Spoils(v, rows, op) && !AllValid(v, After(v, rows, op))
  {
    assert HasSlot(rows, r, owner, rows[r].source, rows[r].key.value);
    var row := Overwritten(rows[r], content, false);
    SameValidity(v, rows, r, row, owner, KeyOf(row.kind.pin), content);
    assert rows[r := row][r] == row;
  }

  /** The other one: an own schema registered under the key of a system's is preferred from then
      on, whatever the records already pinned to it hold. */
  lemma ShadowedIsInvalid(v: Validator, rows: Rows, owner: Owner, id: Id, r: Id, source: string, pin: Pin, body: Json)
    requires owner != System && id !in rows && v.isSchema(body) && pin.schemaRef != "" && pin.version != ""
    requires r in rows && IsRecord(rows[r], owner, KeyOf(pin)) && !v.conforms(body, rows[r].data)
    requires !Taken(rows, owner, source, Some(KeyOf(pin)), None)
    ensures var op := RegisterSchema(owner, id, source, pin.schemaRef, pin.version, body);
            Accepted(v, rows, op) && Spoils(v, rows, op) && !AllValid(v, After(v, rows, op))
  {
    var rows' := rows[id := Row(owner, Schema, source, Some(KeyOf(pin)), true, body)];
    assert Candidate(rows', owner, KeyOf(pin), id) && rows'[id].data == body;
    assert rows'[r] == rows[r];
  }

  const ME := User("me")
  const ONE := Pin("f", "1")
  const TWO := Pin("f", "2")

  /** Two schemas of one owner, and a record pinned to the first. */
  ghost function TwoSchemas(first: Json, second: Json, content: Json): Rows {
    map[Id("s") := Row(ME, Schema, "src", Some("f:1"), true, first),
        Id("t") := Row(ME, Schema, "src", Some("f:2"), true, second),
        Id("r") := Row(ME, Record(ONE), "src", Some("k"), true, content)]
  }

  lemma {:induction false} OneMoreCall(v: Validator, rows: Rows, ops: seq<Op>, op: Op)
    requires AllRegular(v, rows, ops, _ => true) && Regular(AfterAll(v, rows, ops), op, _ => true)
    ensures AllRegular(v, rows, ops + [op], _ => true)
    ensures AfterAll(v, rows, ops + [op]) == After(v, AfterAll(v, rows, ops), op)
    decreases |ops|
  {
    if ops == [] {
      assert ops + [op] == [op] && [op][1..] == [];
    } else {
      OneMoreCall(v, After(v, rows, ops[0]), ops[1..], op);
      assert (ops + [op])[1..] == ops[1..] + [op];
    }
  }

  lemma TwoSchemasRun(v: Validator, first: Json, second: Json, content: Json) returns (ops: seq<Op>)
    requires v.isSchema(first) && v.isSchema(second) && v.conforms(first, content)
    ensures AllRegular(v, map[], ops, _ => true) && AfterAll(v, map[], ops) == TwoSchemas(first, second, content)
  {
    assert KeyOf(ONE) == "f:1" && KeyOf(TWO) == "f:2";
    var rows0 := map[Id("s") := Row(ME, Schema, "src", Some("f:1"), true, first)];
    var rows1 := rows0[Id("t") := Row(ME, Schema, "src", Some("f:2"), true, second)];
    var op0 := RegisterSchema(ME, Id("s"), "src", "f", "1", first);
    OneMoreCall(v, map[], [], op0);
    assert After(v, map[], op0) == rows0;
    var op1 := RegisterSchema(ME, Id("t"), "src", "f", "2", second);
    OneMoreCall(v, map[], [] + [op0], op1);
    assert After(v, rows0, op1) == rows1;
    var op2 := CreateRecord(ME, Id("r"), "src", "k", ONE, content, Some(Id("s")), false);
    assert Candidate(rows1, ME, KeyOf(ONE), Id("s"));
    OneMoreCall(v, map[], [] + [op0] + [op1], op2);
    assert !Taken(rows1, ME, "src", Some("k"), None);
    assert After(v, rows1, op2) == TwoSchemas(first, second, content);
    ops := [] + [op0] + [op1] + [op2];
  }

  lemma TwoSchemasFacts(v: Validator, first: Json, second: Json, content: Json)
    requires v.conforms(first, content)
    ensures var rows := TwoSchemas(first, second, content);
            && AllValid(v, rows) && Unique(rows)
            && Candidate(rows, ME, KeyOf(ONE), Id("s")) && Found(rows, ME, TWO, Some(Id("t")))
  {
    assert KeyOf(ONE) == "f:1" && KeyOf(TWO) == "f:2";
    var rows := TwoSchemas(first, second, content);
    assert IsSchemaFor(rows[Id("s")], ME, "f:1") && IsSchemaFor(rows[Id("t")], ME, "f:2");
  }

  /** A run from an empty store after which creating the record again, with the other pin, is
      accepted and leaves content that is invalid under the record's own pin. */
  lemma RecreatedRun(v: Validator, first: Json, second: Json, content: Json, other: Json) returns (ops: seq<Op>, op: Op)
    requires v.isSchema(first) && v.isSchema(second) && v.conforms(first, content) && v.conforms(second, other)
    requires !v.conforms(first, other) && !content.Null? && !other.Null?
    ensures AllRegular(v, map[], ops, _ => true)
    ensures var rows := AfterAll(v, map[], ops);
            Accepted(v, rows, op) && AllValid(v, rows) && !AllValid(v, After(v, rows, op))
  {
    ops := TwoSchemasRun(v, first, second, content);
    op := CreateRecord(ME, Id("n"), "src", "k", TWO, other, Some(Id("t")), false);
    TwoSchemasFacts(v, first, second, content);
    RecreatedIsInvalid(v, TwoSchemas(first, second, content), ME, Id("n"), Id("r"), TWO, Id("t"), other);
  }
}
