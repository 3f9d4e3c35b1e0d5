# target-azureblobstorage in Dafny

A Dafny model of the core of `target-azureblobstorage`, a Singer target. The
target reads newline-delimited JSON messages (SCHEMA, RECORD, STATE,
ACTIVATE_VERSION) and keeps a table of schemas, validators and key properties
per stream. It stages each RECORD as a CSV row in a local file named
`<stream>.csv`. When a STATE says no stream is still syncing, it uploads the
staged files to an Azure blob container and deletes them. At the end it
writes the last checkpoint to standard output.

Modules:

- `Wrappers`: `Option`, `Result` and `Outcome` (pass, or fail with an error).
- `Json`: decoded JSON values as the Python code sees them. A dict is its
  entries in insertion order. The module has Python truthiness, `str()` of a
  list, `dict(items)` (`DictOf`: first position, last value) and dict lookup.
- `Flattener`: `flatten`. It proves that the result is flat, that every leaf's
  `__`-joined path is a key of the result, that every entry comes from such a
  leaf, and that `flatten` is idempotent.
- `Messages`: the message datatype, the exceptions that end a run, the
  checkpoint a run returns (`LastCheckpoint`) and `emit_state`.
- `Staging`: the staging directory and the blob container, both as maps from
  file name to CSV rows. It also has the relation an upload loop establishes
  (`Promoted`).
- `Protocol`: `persist_lines` as a pure interpreter. `Next` handles one
  message and `Run` handles a sequence up to the first exception.
- `Properties`: lemmas about `Next` and `Run`. They cover error cases,
  schema overwrite, validation policy, row appends, the flush rule, flush
  idempotence, the returned checkpoint, schema-before-record and row order,
  plus the worked "users" run.
- `Target`: class `Target`, whose fields are the local variables of
  `persist_lines` plus the staging directory and blob container it changes.
  Its `Step` method is proved to act as `Protocol.Next` does. `PersistLines`
  runs the loop and is proved to act as `Protocol.Run` does.

Some of the code's behaviours look unintended; the model follows the code:

- Every `ValidationError` is swallowed. Only one whose text contains
  "is not a multiple of 0.01" is logged. No validation failure ends the run.
  Any other exception from the validator is re-raised.
- Every file a flush uploads goes under the single name in `filename`. That
  name is the `.csv` name of the stream of the last RECORD. So one blob ends
  up holding whichever file was listed last. If no RECORD has bound
  `filename` in this run, a flush over a non-empty directory raises
  `UnboundLocalError` (`FilenameUnbound`).
- A RECORD resets the tracked checkpoint to None.
- The data row follows the record's own key order, not the header's.

Decoded JSON objects are taken to hold each key once, as `json.loads`
guarantees. The validator is a function parameter (`Validate`). It returns
`Conforms`, raises a `ValidationError` with a message, or raises anything
else (`Raised`).

## Model

| member | source | states |
|---|---|---|
| `Json.Truthy` | target_azureblobstorage.py:126 | a value is falsy exactly when it is None, False, 0, 0.0, the empty string, the empty list or the empty dict |
| `Json.KeysOf` | target_azureblobstorage.py:107 | the header has one column per key; its columns are exactly the record's keys, and no column repeats when the keys are distinct |
| `Json.ValuesOf` | target_azureblobstorage.py:112 | the data row has one cell per key, and cell `i` is what `record[key]` gives for the record's `i`-th key |
| `Json.LookupEntries` | target_azureblobstorage.py:112 | in a dict with distinct keys, subscripting by the key of an entry gives that entry's value |
| `Json.Lookup` | target_azureblobstorage.py:126 | a dict subscript finds a value exactly when the key is present, and the value is the one stored under that key |
| `Json.Put` | target_azureblobstorage.py:43 | storing a key adds exactly that key and keeps keys distinct; every entry is either the new one or an old one |
| `Json.PutLookup` | target_azureblobstorage.py:43 | after `d[k] = v`, `d[k]` is `v` and every other key reads as it did before |
| `Json.PutExisting` | target_azureblobstorage.py:43 | overwriting a key that is present keeps every key at its position |
| `Json.PutFresh` | target_azureblobstorage.py:43 | storing a key that is not present appends it at the end |
| `Json.DictOf` | target_azureblobstorage.py:43 | `dict(items)` has distinct keys, exactly the keys of `items`, and only entries drawn from `items` |
| `Json.DictOfLookup` | target_azureblobstorage.py:43 | in `dict(items)` every key reads as the value of its last occurrence in `items` |
| `Json.DictOfOrder` | target_azureblobstorage.py:43 | `dict(items)` lists each key once, in the order of its first occurrence in `items` |
| `Json.DictOfDistinct` | target_azureblobstorage.py:43 | `dict(items)` of entries with distinct keys returns them unchanged, in order |
| `Json.Repr` | target_azureblobstorage.py:42 | a string renders as its own text between single quotes; a list renders between brackets; a dict renders between braces |
| `Flattener.JoinKey` | target_azureblobstorage.py:38 | under an empty parent the key is kept as it is; otherwise the new key is the parent key, then `__`, then the key |
| `Flattener.Leaf` | target_azureblobstorage.py:42 | a non-mapping value is kept as it is, except that a list becomes a string (its `Repr`); the stored value is never a mapping or a list |
| `Flattener.Flatten` | target_azureblobstorage.py:35-43 | the result has no mapping and no list values |
| `Flattener.Items` | target_azureblobstorage.py:36-42 | the accumulated `items` list has no mapping and no list values |
| `Flattener.Chunk` | target_azureblobstorage.py:38-42 | what one loop iteration contributes (a recursive flatten or one entry) has no mapping and no list values |
| `Flattener.LeafKeyFlattened` | target_azureblobstorage.py:37-42 | the joined path of every non-mapping value reached by a key path is a key of the result |
| `Flattener.FlattenedEntrySource` | target_azureblobstorage.py:37-43 | every entry of the result is some leaf of the input, under its joined path, with a list turned into text |
| `Flattener.TopLevelKeyKept` | target_azureblobstorage.py:38 | a top-level key whose value is not a mapping keeps its own name |
| `Flattener.NestedKeyJoined` | target_azureblobstorage.py:38-40 | a key one level down appears as `parent__child` |
| `Flattener.FlattenShallow` | target_azureblobstorage.py:41-43 | on a dict with no nested dicts, `flatten` only turns lists into text, keeping keys and order |
| `Flattener.FlattenFlatIdentity` | target_azureblobstorage.py:35-43 | flattening an already flat dict returns it unchanged |
| `Flattener.FlattenIdempotent` | target_azureblobstorage.py:35-43 | flattening the output of `flatten` again changes nothing |
| `Flattener.FlattenCollision` | target_azureblobstorage.py:38-43 | `{'a__b': 1, 'a': {'b': 2}}` flattens to `{'a__b': 2}`: two paths that join to one key keep the first position and the last value |
| `Messages.LastStateIsReturned` | target_azureblobstorage.py:120-157 | if no RECORD and no other STATE follows a STATE, the run returns that STATE's value |
| `Messages.ReturnedIsLastState` | target_azureblobstorage.py:120-157 | a returned checkpoint is the value of a STATE that no RECORD and no other STATE follows |
| `Messages.RecordAfterStatesReturnsNone` | target_azureblobstorage.py:120-157 | if a RECORD follows every STATE, or there is no STATE, the run returns None |
| `Messages.LastCheckpoint` | target_azureblobstorage.py:120-157 | the returned checkpoint starts as None; a last RECORD makes it None, a last STATE makes it that STATE's value, and any other last message leaves it as it was |
| `Messages.StateWithoutLaterRecord` | target_azureblobstorage.py:120-123 | when every STATE carries a value, a STATE that no RECORD follows leaves a checkpoint |
| `Messages.EmitState` | target_azureblobstorage.py:27-32 | at most one document is written: nothing for None (JSON null included), otherwise the checkpoint itself |
| `Protocol.ContainsOccurs` | target_azureblobstorage.py:84 | `sub in s` holds exactly when `sub` occurs in `s` at some position |
| `Protocol.CurrentlySyncingOf` | target_azureblobstorage.py:126 | `state['currently_syncing']` succeeds exactly on a dict holding that key, with the stored value; otherwise it raises KeyError on a dict and TypeError on anything else |
| `Staging.AppendRecord` | target_azureblobstorage.py:99-113 | writing a RECORD adds its file to the directory and changes no other file; an existing file keeps its rows and gains one; a new file gets the header of the record's keys and one row; the last row is the record's values |
| `Protocol.CsvName` | target_azureblobstorage.py:95 | the staging file of a stream is the stream's name followed by `.csv` |
| `Staging.Promoted` | target_azureblobstorage.py:127-138 | uploading a non-empty directory adds or overwrites only the blob `filename`, which ends up holding one of the staged files |
| `Protocol.Initial` | target_azureblobstorage.py:47-50 | the run starts with empty tables, which satisfy the table invariant |
| `Protocol.Next` | target_azureblobstorage.py:55-155 | one message keeps the invariant: every stream with a schema has the Draft4 validator built from it, and key properties only for such streams |
| `Protocol.NextRecord` | target_azureblobstorage.py:69-120 | a RECORD keeps the table invariant |
| `Protocol.NextState` | target_azureblobstorage.py:121-138 | a STATE keeps the table invariant |
| `Protocol.NextSchema` | target_azureblobstorage.py:140-149 | a SCHEMA keeps the table invariant while storing schema and validator together; a schema that is not a dict raises, since building the Draft 4 validator calls `.get` on it |
| `Protocol.Run` | target_azureblobstorage.py:55-157 | the loop keeps the table invariant up to the first exception |
| `Properties.MalformedLinesAbort` | target_azureblobstorage.py:56-155 | undecodable lines, a missing `type`, an unknown type, a RECORD or SCHEMA without `stream`, a SCHEMA without `schema`, a SCHEMA whose schema is not a dict, and a SCHEMA without `key_properties` each raise their own error |
| `Properties.RecordBeforeSchemaAborts` | target_azureblobstorage.py:73-75 | a RECORD for a stream without a stored schema raises, whatever it holds, and changes nothing |
| `Properties.SchemaOverwrites` | target_azureblobstorage.py:144-149 | a SCHEMA with a dict schema and key properties stores or overwrites the schema, validator and key properties of its stream and changes nothing else |
| `Properties.ValidationErrorsSwallowed` | target_azureblobstorage.py:81-87 | a ValidationError stages the same row as a conforming record and is logged only for the precision message; any other exception raises, and only then |
| `Properties.RecordAppendsOneRow` | target_azureblobstorage.py:95-120 | a RECORD appends exactly one data row to `<stream>.csv`, with a header first only if the file is new; other files are unchanged; `filename` is set and the checkpoint forgotten; schemas, validators and key properties are unchanged |
| `Properties.StateFlushRule` | target_azureblobstorage.py:123-138 | a STATE becomes the checkpoint; staging is unchanged when a stream is still syncing or the directory is missing, and emptied otherwise; the tables, `filename` and the error log are unchanged |
| `Properties.SecondStateIsNoOp` | target_azureblobstorage.py:126-138 | repeating a STATE right after it went through changes nothing and uploads nothing |
| `Properties.NextFilename` | target_azureblobstorage.py:95 | only a RECORD changes `filename`, to its own stream's `.csv` name |
| `Properties.NextSchemas` | target_azureblobstorage.py:145 | only a SCHEMA adds a stream to the schema table, and only its own stream |
| `Properties.RecordNeedsSchema` | target_azureblobstorage.py:73-75 | a RECORD that goes through has a stream whose schema is stored |
| `Properties.NextKeepsStaging` | target_azureblobstorage.py:121-155 | SCHEMA, ACTIVATE_VERSION and a STATE that does not ask for a flush leave the staging directory alone |
| `Properties.RunCheckpoint` | target_azureblobstorage.py:120-157 | a run that goes through ends with the checkpoint its messages determine |
| `Properties.RunReturnsLastCheckpoint` | target_azureblobstorage.py:47-157 | a successful run returns the last STATE's value when no RECORD follows it, and None otherwise |
| `Properties.RecordsFollowSchemas` | target_azureblobstorage.py:73-75 | in a run that goes through, every RECORD's stream was declared by an earlier SCHEMA or was already known |
| `Properties.StatesAreMappings` | target_azureblobstorage.py:126 | in a run that goes through, every STATE's value is a mapping |
| `Properties.EmittedCheckpoint` | target_azureblobstorage.py:27-32 | after a run that goes through, `emit_state` writes nothing exactly when a RECORD follows every STATE, and otherwise writes the value of the STATE that no RECORD and no other STATE follows |
| `Properties.RecordWithoutSchemaFails` | target_azureblobstorage.py:73-75 | a run with a RECORD whose stream no earlier SCHEMA declared fails |
| `Properties.RowsInArrivalOrder` | target_azureblobstorage.py:102-113 | between flushes a staging file holds its old rows, or the first record's header, followed by one data row per RECORD in arrival order; a file no RECORD wrote to does not appear |
| `Properties.UsersExample` | target_azureblobstorage.py:69-120 | SCHEMA users and two RECORDs leave `users.csv` with header `id,name` and the two rows in order, and a None checkpoint |
| `Target.Target.constructor` | target_azureblobstorage.py:47-50 | a new run has empty tables, no checkpoint, unbound `filename` and the given directory and container |
| `Target.Target.Step` | target_azureblobstorage.py:55-155 | the object's new state and the outcome are those of `Next`; the blobs change only on an upload, and then as `Promoted` says |
| `Target.Target.Record` | target_azureblobstorage.py:69-120 | in-place RECORD handling matches `NextRecord` and uploads nothing |
| `Target.Target.WriteRow` | target_azureblobstorage.py:99-113 | creating the directory and file as needed and appending leaves exactly `AppendRecord` |
| `Target.Target.State` | target_azureblobstorage.py:121-138 | in-place STATE handling matches `NextState`; blobs change only when the upload loop runs |
| `Target.Target.Flush` | target_azureblobstorage.py:126-138 | an empty directory uploads nothing; an unbound `filename` raises before any upload; otherwise every file is uploaded under `filename` and removed, leaving the directory empty |
| `Target.Target.Schema` | target_azureblobstorage.py:140-149 | in-place SCHEMA handling matches `NextSchema`, including the error on a schema that is not a dict |
| `Target.PersistLines` | target_azureblobstorage.py:46-157 | the returned value, or the exception, and the staging directory are those of `Run`; success returns the last checkpoint; blobs are only added or overwritten, each under the `.csv` name of some RECORD's stream |
| `Target.Feed` | target_azureblobstorage.py:55-155 | one turn of the loop: after line `i` the rest of the run is what `Run` has left, or the run ends with the line's exception; blobs change only under names of RECORD streams |
| `Target.PromotedBlobs` | target_azureblobstorage.py:131-137 | an upload loop keeps every blob and changes only the one named `filename` |

## Left out

- `main` (target_azureblobstorage.py:180-211): argument parsing, the config file, building the Azure clients, and reading stdin as UTF-8. These are I/O. The model starts from the decoded line sequence and from the staging directory and blob container as values.
- `send_usage_stats` and the thread that runs it (lines 160-177, 191-195): network I/O outside the core, whose failures are discarded.
- `list_blobs` and `blob_names` (lines 92-93): the result is never used. `create_blob_from_path` is modelled as overwriting one map entry. Content settings and Azure errors are not part of this model.
- `append_blob_service`: it is passed in but never called.
- JSON decoding: a line is either undecodable or already decoded into typed fields. Lines that decode to something other than an object, and `stream` values that are not strings, are not modelled.
- CSV quoting and the text that `csv.writer` produces: a row is kept as its header strings or its JSON values.
- `Json.Repr`: renders lists as Python's `str` does. It does not escape quotes, backslashes or control characters inside strings (Python writes a newline as `\n`), and it always uses single quotes, where Python switches to double quotes for a string that contains a single quote. It writes floats in plain positional notation with up to 17 fractional digits, not Python's shortest round-trip form or exponent notation.
- JSON numbers with a fraction are exact reals. `NaN`, `Infinity` and `-Infinity`, which `json.loads` accepts, cannot be represented; a `NaN` `currently_syncing` would be truthy in Python.
- A container name of None: `os.path.join` raises TypeError at line 53, before any line is read. The container name is not part of this model.
- The tables after a SCHEMA whose schema is not a dict: line 145 has already stored the schema when line 146 raises. The model fails with `SchemaNotMapping` and keeps the tables as they were. The run ends there, so no later step reads them. The model takes jsonschema's Draft 4 validator constructor to raise on every schema that is not a dict and on no dict.
- Draft 4 validation itself: the validator is a parameter. Its only modelled link to the schema is that each stream's validator is built from that stream's schema.
- Logging other than `logger.error`: `info` and `debug` messages are not kept.
- The unused timestamp `now` and the unused `schema` local.
- The result of `flatten(o['record'])` in the RECORD branch: it is computed and then discarded, as `persist_lines` does. The only effect that remains is the error on a non-mapping record.
- File-system errors (permissions, a stream name containing a path separator) and any difference between the directory listing and the staged map: the directory is a map from file name to rows.
- The order of `os.listdir`: the upload loop picks files in an unspecified order, so `Promoted` only says that the blob ends up holding one of the staged files.
- `Target.Target.Flush`: does not say which staged file the shared blob ends up holding, because that depends on the listing order.
