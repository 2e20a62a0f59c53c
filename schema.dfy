/** The schema of the one search index, `idx:all`, that the dashboard keeps:
    nine weighted text fields shared by the three record shapes, and the
    key prefixes that bind stored hashes to the index. */
module Schema {

  /** A text field of the index. The weight is a relevance prior handed to
      the search engine as is; the model does no arithmetic on it. */
  datatype FieldSpec = TextField(name: string, weight: real)

  /** How the index reads its documents: the dashboard indexes hashes. */
  datatype IndexType = Hash

  /** What `create_index` is given: the fields, and the key prefixes whose
      records the index covers. */
  datatype IndexDefinition = IndexDefinition(
    fields: seq<FieldSpec>,
    prefixes: seq<string>,
    indexType: IndexType)

  const INDEX_NAME: string := "idx:all"

  const TWEET_PREFIX: string := "Tweet:"
  const SPACES_PREFIX: string := "Spaces:"
  const DISCORD_PREFIX: string := "discord_message:"

  /** The fields of the index, in declaration order. */
  const FIELDS: seq<FieldSpec> := [
    TextField("username", 5.0),
    TextField("handle", 5.0),
    TextField("content", 3.0),
    TextField("source", 1.0),
    TextField("title", 5.0),
    TextField("channel", 3.0),
    TextField("guild", 3.0),
    TextField("author", 5.0),
    TextField("message_link", 1.0)
  ]

  /** The definition `ensure_index_exists` creates when the index is absent. */
  const ALL_INDEX: IndexDefinition :=
    IndexDefinition(FIELDS, [TWEET_PREFIX, SPACES_PREFIX, DISCORD_PREFIX], Hash)

  /** The field names of a schema, in order. */
  function Names(fields: seq<FieldSpec>): (names: seq<string>)
    ensures |names| == |fields|
    ensures forall i :: 0 <= i < |fields| ==> names[i] == fields[i].name
  {
    seq(|fields|, i requires 0 <= i < |fields| => fields[i].name)
  }

  predicate Distinct(names: seq<string>)
  {
    forall i, j :: 0 <= i < j < |names| ==> names[i] != names[j]
  }

  /** True when `key` starts with one of the index's prefixes: the engine
      indexes exactly the hashes stored under such keys. */
  predicate Covers(def: IndexDefinition, key: string)
  {
    exists i :: 0 <= i < |def.prefixes| && def.prefixes[i] <= key
  }

  /** Every field name is declared once, and every weight is positive. */
  lemma SchemaWellFormed()
    ensures Distinct(Names(FIELDS))
    ensures forall i :: 0 <= i < |FIELDS| ==> FIELDS[i].weight > 0.0
    ensures |FIELDS| == 9
  {
    var names := Names(FIELDS);
    assert names == ["username", "handle", "content", "source", "title",
                     "channel", "guild", "author", "message_link"];
  }

  /** A key is covered by the created index exactly when it starts with one
      of the three shape prefixes. */
  lemma AllIndexCovers(key: string)
    ensures Covers(ALL_INDEX, key) <==>
      TWEET_PREFIX <= key || SPACES_PREFIX <= key || DISCORD_PREFIX <= key
  {
    if TWEET_PREFIX <= key { assert ALL_INDEX.prefixes[0] <= key; }
    if SPACES_PREFIX <= key { assert ALL_INDEX.prefixes[1] <= key; }
    if DISCORD_PREFIX <= key { assert ALL_INDEX.prefixes[2] <= key; }
  }
}
