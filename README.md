# Search-index dashboard: index lifecycle, query compiler and result shapes

The dashboard (`main.py`) lets a user search records held in a Redis store
through one RediSearch index, `idx:all`. The records come in three shapes:
tweets (`Tweet:` keys), audio-room events (`Spaces:` keys) and Discord
messages (`discord_message:` keys). Three parts of it are sequential logic,
and this project models them in Dafny and proves what they do:

- **Start-up** (`ensure_index_exists`, `index_documents`). The store is a
  class `IndexManager.Store` that holds a map from key to hash (field map)
  and a map from index name to index definition. Probing for `idx:all`
  creates it with the nine-field schema only when the probe fails. On both
  paths it then runs the "touch": every key matching `Tweet :*`,
  `Spaces :*` or `discord_message :*` is read with HGETALL and written back
  with HSET, and the touched keys are counted. The model keeps the space
  before the colon in these patterns, as the code has it. A ghost log of
  the keys written by HSET lets `IndexDocuments` state that each enumerated
  key is written back exactly once and that no other key is written. None
  of the written keys starts with `Tweet:`, `Spaces:` or
  `discord_message:`, the prefixes `idx:all` is created with. An existing
  `idx:all` is kept whatever its prefixes, so nothing is claimed about it.
- **Query compiler** (`schema.dfy`, `query.dfy`). For each of the nine
  fields the compiler builds the clause `@field:(text)`, putting the text in
  verbatim, and joins the clauses with ` | `. A non-empty search box issues
  one request with offset 0, 10 results, highlighting and summaries.
- **Result display** (`results.dfy`). The key's prefix alone decides a
  hit's shape. The prefixes are tested in the order `Tweet:`, `Spaces:`,
  `discord_message:`, and a key with none of them is Unknown. The shape
  picks the title, and the field shown as content (`content` for tweets and
  Discord messages, `title` for Spaces), with a placeholder when that field
  is absent.

Files: `schema.dfy` (module `Schema`: fields, weights, prefixes, the index
definition), `glob.dfy` (module `Glob`: the KEYS pattern matcher),
`query.dfy` (module `QueryCompiler`), `results.dfy` (module
`ResultDisplay`), `store.dfy` (module `IndexManager`).

Some things `main.py` does not do, and the model does not either:
- It has no drop-and-recreate path. An existing `idx:all` is kept whatever
  its definition (`Ensured`).
- It does not catch errors during the touch. An error from HGETALL or HSET
  ends start-up (see "## Left out").
- It has one query mode: the OR of field clauses with the text unescaped.
  There is no raw or escaped wildcard mode.
- It fetches one page of ten results and has no pagination.

## Model

| member | source | states |
|---|---|---|
| Schema.SchemaWellFormed | main.py:29-39 | the schema declares nine text fields, each name once, each weight positive |
| Schema.AllIndexCovers | main.py:41-46 | the created index covers a key exactly when it starts with `Tweet:`, `Spaces:` or `discord_message:` |
| Glob.Match | main.py:57 | a KEYS pattern with no special character matches only itself, and a lone `*` matches every key |
| Glob.LiteralStarIsPrefix | main.py:57 | a KEYS pattern made of literal text followed by `*` matches exactly the keys that start with that text |
| QueryCompiler.CompiledClauseAt | main.py:79-81 | the compiled query holds `@f:(text)` for the i-th field at an offset fixed by the earlier fields, with the text verbatim inside; a ` | ` follows each clause but the last, and the last clause ends the string |
| QueryCompiler.Compile | main.py:79-81 | the compiled query is 122 + 9·|text| characters long (nine clauses and eight separators, nothing else) and starts with `@username:(text)` |
| QueryCompiler.CompileInjective | main.py:79 | different search texts give different queries, so the text is never dropped or altered |
| QueryCompiler.QueryFieldsAreSchemaFields | main.py:79-81 | the query searches exactly the nine schema fields, in schema order |
| QueryCompiler.Request | main.py:77-84 | an empty box issues no search; otherwise one search of the compiled query, offset 0, ten results, highlighting and summaries on |
| QueryCompiler.ClauseAt | main.py:79-81 | for any field list, clause i of the joined OR stands at its offset with the text verbatim, followed by ` | ` unless it is the last |
| QueryCompiler.ClauseStart | main.py:79-81 | clause i begins after the earlier field names plus `|text| + 7` characters per earlier clause |
| QueryCompiler.JoinPartAt | main.py:79 | `sep.join(parts)` holds part i unchanged at its offset |
| QueryCompiler.JoinSeparatorAt | main.py:79 | `sep.join(parts)` holds exactly one separator between neighbouring parts |
| QueryCompiler.JoinLength | main.py:79 | for a non-empty list (the query always has nine clauses), `sep.join(parts)` ends right after the last part; its length is the parts' total plus one separator per gap |
| QueryCompiler.ClausesTotalLength | main.py:79-81 | the clauses' total length is the field names' total plus `|text| + 4` per field |
| ResultDisplay.Present | main.py:90-103 | the title names the key's shape; Tweet and Discord hits show `content`, Space hits `title`, each with its placeholder when absent; Unknown hits show "Unknown content" |
| ResultDisplay.PresentAll | main.py:90-107 | every hit is rendered, in search order, with its own key and its own title and content |
| ResultDisplay.PrefixesExclusive | main.py:92-98 | no key starts with two of the shape prefixes, so their test order does not matter |
| ResultDisplay.ShapeOf | main.py:92-103 | each shape holds exactly when its prefix starts the key, and Unknown exactly when none does |
| ResultDisplay.ShapeOfKeyFor | main.py:92-98 | a key built from a shape's prefix and any identifier classifies back to that shape |
| ResultDisplay.TitleIdentifiesShape | main.py:93-102 | different shapes get different titles |
| ResultDisplay.SpaceIgnoresContent | main.py:95-97 | a Space hit shows `title` or "No title" and never depends on `content` |
| ResultDisplay.MessagesShowContent | main.py:92-100 | Tweet and Discord hits show `content`, or "No content" when absent, under their own titles |
| ResultDisplay.UnknownIsPlaceholder | main.py:101-103 | a key with none of the prefixes shows "Unknown" / "Unknown content" whatever its fields |
| IndexManager.Store.Probe | main.py:25-28 | probing the index succeeds exactly when it exists |
| IndexManager.Store.CreateIndex | main.py:41-47 | creating an index adds it under its name, and is refused when the name is taken |
| IndexManager.Store.Keys | main.py:57 | KEYS returns each stored key matching the pattern exactly once, and no other key |
| IndexManager.Store.GetAll | main.py:61 | HGETALL returns the stored hash, or no fields for a missing key |
| IndexManager.Store.SetAll | main.py:64 | HSET writes the mapping over the stored hash and keeps other fields, and logs the key; an empty mapping is refused and writes nothing |
| IndexManager.Store.Touch | main.py:61-64 | reading a stored hash and writing it back leaves the store unchanged and logs one HSET of that key |
| IndexManager.Store.Enumerate | main.py:57 | the three KEYS answers, concatenated, list each key with a spaced prefix exactly once and no other key, and none of them starts with `Tweet:`, `Spaces:` or `discord_message:`, the prefixes `idx:all` is created with |
| IndexManager.Store.IndexDocuments | main.py:56-65 | the touch HSETs each key matching the three spaced patterns exactly once and no other key, none of them starting with a prefix `idx:all` is created with; every hash and index is unchanged; the count is the number of keys written |
| IndexManager.Store.EnsureIndexExists | main.py:24-51 | creates `idx:all` exactly when it was absent and keeps an existing one; on both paths the touch then HSETs each enumerated key exactly once, changes no record, and returns the number written; when it created `idx:all`, no written key is covered by it (an existing `idx:all` is kept whatever its prefixes, so no such claim is made for it) |
| IndexManager.Enumerated | main.py:57 | the keys the touch enumerates are exactly the stored keys starting with `Tweet :`, `Spaces :` or `discord_message :` |
| IndexManager.Ensured | main.py:24-47 | after start-up the index names are the old ones plus `idx:all`; every existing definition is kept; a missing `idx:all` gets the nine-field definition |
| IndexManager.PatternsArePrefixes | main.py:57 | each touch pattern is a prefix test for `Tweet :`, `Spaces :`, `discord_message :` |
| IndexManager.PatternsDisjoint | main.py:57 | no key matches two touch patterns |
| IndexManager.EnumerationIsExact | main.py:57-65 | the three KEYS answers, concatenated, list every enumerated key exactly once, so the count is the number of such keys |
| IndexManager.TouchMissesIndex | main.py:44-57 | no key the touch enumerates is covered by the created index's prefixes |
| IndexManager.EnsuredIdempotent | main.py:24-47 | after start-up `idx:all` exists; a second start-up changes no index; an existing definition is never replaced |
| IndexManager.StartTwice | main.py:24-51 | two start-ups in a row: the second creates nothing, no record changes, both count the same |

## Left out

- Redis connection and environment settings (main.py:9-15): configuration and I/O. The store is a class value.
- Page layout, text box, success, info and JSON displays, and error display (`st.*` calls): presentation only.
- The search itself, with ranking, highlighting and summaries (main.py:84): this is done by the search engine. The model covers only the request handed to it (`QueryCompiler.Request`). The field weights are kept as constants and never used in arithmetic.
- The second `info()` call after the touch (main.py:53-54): its result is only displayed.
- The random-key, `dbsize` and sample-key debug output (main.py:116-122): I/O only.
- Errors the code does not catch: a lost connection, and WRONGTYPE from HGETALL on a key that holds no hash. The store here holds only hashes.
- IndexManager.Store.IndexDocuments: the model has no other client writing to the store. In the real store a key can be deleted or expire between KEYS (main.py:57) and HGETALL (main.py:61). HGETALL then returns no fields, and `hset` with an empty mapping raises redis-py's DataError. Nothing catches it, so start-up ends. In the model every stored hash is non-empty and nothing changes between the two calls, so this crash cannot happen.
- Any probe failure other than "no such index" is treated as "index absent". The code catches every `ResponseError` the same way and goes on to `create_index` (main.py:41). When the probe failed for another reason, such as a server without the search module, `create_index` raises as well. Nothing catches that error, so start-up ends. The model has no such server.
- Glob.Match: KEYS matches bytes, so `?` matches one byte; the model matches one character. The patterns used contain no `?`.
- Glob.Match: bracketed character classes in KEYS patterns are not modelled. The patterns used contain none.
- IndexManager.Store.Keys: KEYS answers in an order the server picks. The model fixes no order and proves nothing that depends on one.
