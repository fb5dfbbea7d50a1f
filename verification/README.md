# Warehouse-to-document-store transfer, modelled in Dafny

This project models the one piece of the synchronisation job with logic in it:
`push_to_firestore` in `main.py`. It copies the rows of a warehouse query into a
document-store collection. For each row it reads the id field. A row whose id
is missing or falsy is skipped. Otherwise the id is turned into text, and every
non-alphanumeric character is dropped to form the document id. The payload is
the row without the id field. Writes are staged into a batch. The batch is
committed whenever the number of staged writes reaches a multiple of 500. A
non-empty final batch is committed at the end. A commit that fails with the
store's API error (`GoogleAPIError`) is logged and the loop carries on. Any
other exception from a commit is not caught: it ends the run, and the open
batch and every later row are never written. The model also covers the
configuration guard of the entry point `load_data`.

Modules:

- `Values` (values.dfy): column values, Python truthiness and `str()`.
- `Ids` (ids.dfy): id sanitisation and its characterisation.
- `Chunking` (chunking.dfy): the reference chunking into pieces of 500.
- `Transfer` (transfer.dfy): staging, and the loop as a pure fold `Run`/`Push`.
  Each commit ends as `Ok`, `Caught` (the API error, logged) or `Raised` (any
  other exception, which ends the run). The main theorem `PushCommitsChunks`
  says the commits attempted are the staged writes cut into chunks of 500, in
  row order, commit `j` ending as `outcome(j)`, up to and including the first
  commit that raises.
- `Entry` (entry.dfy): `load_data` with the environment, the warehouse query
  and the commit outcomes as parameters.
- `Wrappers` (wrappers.dfy): `Option`.

Two behaviours of the code to note:

- Skipped rows do not advance the count that decides batch boundaries. The
  counter is incremented only after a write is staged (main.py:70), and a
  skipped row leaves the loop body earlier (main.py:60). So every batch except
  the last holds exactly 500 writes (`PushBatchBounds`). A skipped row can be
  removed without changing any commit (`SkippedRowIsInvisible`).
- An id that sanitises to the empty string is still staged (main.py:63-69).
  See `EmptySanitisedIdIsStaged`.

## Model

| member | source | states |
|---|---|---|
| Values.Decimal | main.py:63 | `str()` of a natural number is a non-empty run of decimal digits with no leading zero |
| Values.DecimalRoundTrip | main.py:63 | reading back the decimal text of `n` gives `n` |
| Ids.Sanitize | main.py:63 | every character of a sanitised id is alphanumeric and the id is no longer than its source text |
| Ids.DocumentId | main.py:63 | the document id derived from any id value is alphanumeric |
| Ids.SanitizeIsSubsequence | main.py:63 | the sanitised id is obtained from `str(key)` by deleting characters, keeping order |
| Ids.SanitizeKeepsEveryAlnum | main.py:63 | the sanitised id keeps as many characters as `str(key)` has alphanumeric ones |
| Ids.AlnumSubsequenceBound | main.py:63 | no alphanumeric subsequence is longer than the alphanumeric count |
| Ids.SanitizeUnique | main.py:63 | any alphanumeric subsequence keeping every alphanumeric character equals the sanitised id, so the id is exactly the in-order alphanumeric subsequence |
| Ids.SanitizeConcat | main.py:63 | sanitising a concatenation is the concatenation of the sanitised parts |
| Ids.SanitizeFixesExactlyAlnum | main.py:63 | sanitising leaves a string unchanged if and only if it is entirely alphanumeric |
| Ids.SanitizeIdempotent | main.py:63 | sanitising twice equals sanitising once |
| Ids.IntegerDocumentId | main.py:63 | an integer id becomes its decimal digits without sign, so `-n` and `n` give the same document id |
| Chunking.Chunks | main.py:52 | chunks are non-empty, at most 500 long, and all but the last exactly 500 long |
| Chunking.ChunksFlatten | main.py:73-84 | the chunks concatenated in order give back the input |
| Chunking.ChunksCount | main.py:73-84 | there are ceil(N/500) chunks, and none when N is 0 |
| Chunking.FlattenPrefix | main.py:73-84 | gluing a prefix of the pieces gives a prefix of the whole |
| Chunking.ChunkAt | main.py:73-84 | chunk `j` is the slice starting at `500*j`, ending at `500*j+500` or at the end |
| Transfer.StripId | main.py:66 | the payload lacks the id field, has every other key of the row, and each such key keeps its value |
| Transfer.StagedWrites | main.py:55-69 | at most one write per row; every write targets the collection, has an alphanumeric id and no id field in its payload |
| Transfer.Attempted | main.py:74-87 | the commits reached form a prefix of all commits, with no raise before the last, and they stop short only at a raise |
| Transfer.AttemptedUnique | main.py:74-87 | any prefix with those properties is the one reached |
| Transfer.CommitsMatchExtend | main.py:55-79 | staging further writes leaves the full chunks already committed unchanged |
| Transfer.AppendTracks | main.py:69-79 | staging one write while no exception has ended the run keeps the loop state in step with the chunking of the staged writes |
| Transfer.HaltedTracks | main.py:74-79 | once a commit has raised, the loop state no longer changes |
| Transfer.StepTracks | main.py:55-79 | one loop iteration, whether the row is skipped, staged or the run has ended, keeps the loop state in step with the staged writes |
| Transfer.StagedWritesTracked | main.py:55-79 | after any prefix of rows, one commit per full chunk with no raise before the last; while no commit has raised, the count is the number of writes and the open batch holds the rest |
| Transfer.FinishedPrefix | main.py:81-87 | after the final partial commit, the commits are a prefix of the chunk commits of the staged writes |
| Transfer.FinishTracks | main.py:81-87 | finishing a state in step with the staged writes attempts exactly their chunks up to the first raise |
| Transfer.PushCommitsChunks | main.py:46-87 | the commits attempted are the staged writes cut into chunks of 500 in order, commit `j` ending as `outcome(j)`, up to and including the first commit that raises |
| Transfer.StagedWritesConcat | main.py:55-69 | staging rows `a + b` stages the writes of `a` followed by those of `b` |
| Transfer.StagedWritesCount | main.py:57-70 | the number of writes equals the number of rows with a present, truthy id |
| Transfer.StagedWritesPrefix | main.py:55-69 | the writes of a prefix of the rows are a prefix of all writes |
| Transfer.StagedWritesPosition | main.py:55-69 | row `i` with a usable id yields, at position "keyed rows before `i`", the write with its sanitised id and its row minus the id field |
| Transfer.KeyedCountMonotone | main.py:57-70 | a longer prefix of the rows has at least as many rows with a usable id |
| Transfer.KeyedPositionsDistinct | main.py:55-70 | a keyed row's position is below that of every later row, so distinct rows get distinct positions and source order is kept |
| Transfer.PushBatchesAreChunks | main.py:46-87 | the attempted batches are a prefix of the chunks of the staged writes, and all of them when no commit raises |
| Transfer.AttemptedChunks | main.py:74-87 | the batches reached are a prefix of the chunks, and all of them when no commit raises |
| Transfer.PushOutcomes | main.py:74-87 | commit `j` ends as `outcome(j)`, and only the last attempted commit can have raised |
| Transfer.AttemptedUpToRaise | main.py:74-87 | when commit `j` is the first to raise, the batches reached are the first `j + 1` chunks |
| Transfer.RaisedCommitEndsTransfer | main.py:74-87 | when commit `j` is the first to raise, exactly the first `j + 1` chunks of the staged writes are attempted and the rest never are |
| Transfer.PushWritesInOrder | main.py:55-84 | concatenating the attempted batches in commit order gives a prefix of the staged writes in row order, and all of them when no commit raises |
| Transfer.PushBatchBounds | main.py:52-79 | every attempted batch holds 1 to 500 writes, and all but the last exactly 500 |
| Transfer.PushCommitCount | main.py:73-82 | with N keyed rows there are at most ceil(N/500) commits, exactly that many when no commit raises, and none exactly when N is 0 |
| Transfer.AttemptedSameRaises | main.py:74-87 | two outcome assignments that raise at the same commits reach the same batches |
| Transfer.CaughtFailuresDoNotAffectBatching | main.py:74-87 | two runs whose commits raise at the same places attempt the same batches, so a caught failure changes no batch boundary |
| Transfer.SkippedRowStagesNothing | main.py:57-60 | inserting a row without a usable id anywhere does not change the staged writes |
| Transfer.SkippedRowIsInvisible | main.py:57-70 | inserting a row without a usable id anywhere does not change any commit, so it does not advance the count |
| Transfer.TwoRowExample | main.py:55-87 | rows `{uid: "a-1", x: 1}` and `{uid: "b 2", x: 2}` give one commit writing `a1: {x: 1}` and `b2: {x: 2}` |
| Transfer.FiveHundredOneRows | main.py:70-84 | 501 keyed rows give two commits, of 500 writes and of 1, or only the first when it raises |
| Transfer.AllKeyedCount | main.py:57-58 | when every row has a usable id, all rows are counted |
| Transfer.EmptySanitisedIdIsStaged | main.py:63-69 | a truthy id with no alphanumeric character is still written, under the empty id |
| Entry.LoadData | main.py:99-120 | the run aborts exactly when a variable is unset and stops exactly when the query reports an API error; otherwise its commits are the chunks of the rows' staged writes, attempted up to and including the first commit that raises |
| Entry.MissingConfigRunsNothing | main.py:106-108 | with a variable unset, the result is the abort whatever the warehouse or the commits would do: no query, no write |

## Left out

- `initialize_firestore` (main.py:13-27): client set-up only. The database handle and its collection and document references are not modelled. A write records the collection name and the document id instead.
- Entry.LoadData: assumes `initialize_firestore(PROJECT_ID)` (main.py:111) succeeds. `initialize_app` and `firestore.client()` (main.py:19-25) are called after the guard and before the query, and nothing in `load_data` catches an exception from them; such an exception would end the run with no query run and nothing written.
- `fetch_bigquery_data` (main.py:29-44): the query is the `Warehouse` parameter of `Entry.LoadData`. The parameter returning nothing stands for a `GoogleAPIError` from waiting for the result (main.py:38-44), the only failure that is caught. An exception from creating the client or submitting the query (main.py:35-36) is not caught and ends the run; the model does not represent it.
- Decoding the event payload (main.py:95-97): `b64decode(...).decode('utf-8')` raises on bad padding or on bytes that are not UTF-8, with no handler. The run then ends before the configuration guard, so nothing is queried or written. The model does not represent the event at all, so it assumes the payload is absent or decodes.
- Every logging call: it has no effect on what is written.
- Transfer.Stage: assumes staging a write never raises. `db.collection(...).document(...)` and `batch.set(...)` (main.py:68-69) are outside any `try`, so an exception there, for instance the client refusing a document id, would end the run with the open batch unwritten.
- Ids.Sanitize: treats only ASCII letters and digits as alphanumeric. Python's `str.isalnum` also accepts non-ASCII letters and digits, which this model drops.
- Values.ToString: `str()` is modelled exactly for `None`, booleans, integers and strings. Every other type is `Other`, carrying its rendering and its truthiness as given data.
- Document-store semantics of `set`: overwriting, last write wins on an id collision, and how an empty document id is treated. These belong to the external store.
- Insertion order of the payload dictionary: a payload is a Dafny `map`, which has no order.
