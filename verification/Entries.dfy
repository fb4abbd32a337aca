/** The rows of the entry table, as far as upserts and updates touch them. */
module Entries {
  import opened Options

  /** A JSON value: null, a string, or anything else by its text. */
  datatype Json = Null | Str(text: string) | Raw(text: string)

  /** The `->>` operator: no text for null. */
  function TextOf(j: Json): Option<string> {
    if j.Null? then None else Some(j.text)
  }

  /** The keys of an entry's data that the code names, and all others. */
  datatype Field =
    | Description | Content | ContentType
    | AlertId | PreferenceName | PreferenceScope
    | Other(name: string)

  type Data = map<Field, Json>

  /** `data.get(field)`: absent and null look the same. */
  function Get(data: Data, f: Field): Json {
    if f in data then data[f] else Null
  }

  datatype EntryType =
    | Status | Alert | Pattern | Suppression | Context
    | Preference | Note | Intention | Schema | Record

  datatype Id = Id(text: string)

  /** One changelog record: when, and the previous values of the fields that changed. */
  datatype Change = Change(updated: int, tags: Option<seq<string>>, source: Option<string>,
                           language: Option<string>, data: map<Field, Json>)

  datatype Entry = Entry(
    id: Id,
    owner: string,
    kind: EntryType,
    source: string,
    tags: seq<string>,
    created: int,
    updated: Option<int>,
    data: Data,
    changelog: seq<Change>,
    logicalKey: Option<string>,
    language: string)
}
