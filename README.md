# Load stage of the ETL pipeline, modelled in Dafny

This project models the load stage of a small ETL pipeline. Two scripts,
`load_iris.py` and `scripts/load_titanic.py`, take a staged CSV table and
write it to a Supabase table in batches of 50 rows. For each batch they try
an insert, fall back to an upsert of the same records only if the insert
raised, and print the 1-indexed row range written. Before batching, missing
cells are replaced by `None`. The Titanic loader first rewrites three
boolean-like columns to 0/1. The Iris script also provisions its table
through an RPC whose failure it only reports.

Modules (one per file):

- `Records` (`records.dfy`): cells, rows and frames; Python's `str()` and
  `lower()` on cells; the null cleaning `df.where(pd.notnull(df), None)`.
- `Batching` (`batching.dfy`): the offsets `range(0, total, 50)`, the slices
  `iloc[i:i+50]` and the reported ranges `i+1 .. min(i+50, total)`.
- `Supabase` (`supabase.dfy`): the credential check and the client
  construction of `get_supabase_client`, the three remote calls, and the
  store as an oracle. The oracle answers each
  call, given every call made before it, with success or an exception.
- `Log` (`log.dfy`): the observable behaviour, one trace of events. An event
  is a remote call with how it ended, or a printed line with the values the
  script interpolates. Also the filters that pick the calls, the inserted
  record lists and the reported ranges out of a trace.
- `Loader` (`loader.dfy`): the batch loop both scripts share. `RunFrom` is
  its specification and `RunBatches` the loop itself, proved equal to it.
  `LoadToTable` is the trace of a whole `load_to_supabase`. The lemmas state
  the per-batch protocol, what the loop covers, and how the load ends.
- `IrisLoad` (`load_iris.dfy`): `create_table_if_not_exists`, the Iris
  `load_to_supabase`, and the script's entry point.
- `TitanicLoad` (`load_titanic.dfy`): the 0/1 coercion and the Titanic
  `load_to_supabase`.

Three behaviours of the code shape the model:

- **Double failure.** There is no handler around the upsert
  (load_iris.py:93-100). A batch whose insert and upsert both raise leaves
  the loop, and the exception reaches the outer `except` (load_iris.py:104-105),
  which prints the error. No later batch is tried, no range line is printed
  for that batch, and "FINISHED" is not printed. `Loader.RunFrom` ends with
  `Aborted(b, cause)` there, and `Loader.LoadAborted` states the
  consequences.
- **Client setup.** In `load_to_supabase` the call to `get_supabase_client`
  sits inside the outer `try`. A missing URL or key, or a `create_client`
  that raises, is therefore printed by the outer handler, after the
  "searching" line. In the Iris entry point, `create_table_if_not_exists`
  runs first and builds its client outside any `try`. Its exception ends the
  script before loading starts (`IrisLoad.RunScript`).
- **Table provisioning.** The Iris script provisions its table even when the
  staged file is missing. The Titanic script does not provision its table.

`get_supabase_client` is the same in both scripts
(load_iris.py:10-19, `scripts/load_titanic.py:9-18`) except for the wording
of its `ValueError` message. Message wording is not modelled, so the function
is defined once, as `Supabase.GetSupabaseClient`, and used by both loaders.

## Model

| member | source | states |
|---|---|---|
| Records.Text | scripts/load_titanic.py:48 | `str(x)` of a cell: lowered, a boolean reads "true" or "false", NaN "nan" and None "none"; a non-negative integer reads as decimal digits |
| Records.Lower | scripts/load_titanic.py:48 | `lower()` keeps the length, leaves no upper-case ASCII letter, turns each upper-case ASCII letter into its own lower-case letter (code point plus 32), and keeps every other character |
| Records.IntTextIsOne | scripts/load_titanic.py:48 | `str(i)` of an integer is `"1"` exactly when `i == 1` |
| Records.LowerIntText | scripts/load_titanic.py:48 | `str(i)` is unchanged by `lower()`, holds no letter and is never `"true"` |
| Records.CleanNulls | load_iris.py:82-83 | a cell becomes `None` exactly when it was NaN or `None`; every other cell, the column set, the row count and each row's keys are unchanged |
| Records.NoMissingAfterCleaning | load_iris.py:83 | no NaN is left in the cleaned frame |
| Records.CleanNullsIdempotent | load_iris.py:83 | cleaning twice equals cleaning once |
| Supabase.GetSupabaseClient | load_iris.py:10-19 | raises the missing-credentials error exactly when the URL or the key is absent or empty; otherwise raises exactly when `create_client` raises, with its exception; otherwise the client is built from exactly those two values |
| Batching.BatchBounds | load_iris.py:89-90 | each batch is non-empty, at most 50 rows and within the table; consecutive batches meet with no gap; the last ends at `total` |
| Batching.OffsetsAreRange | load_iris.py:89 | the offsets are exactly the multiples of 50 below `total`, increasing; there are ceil(total/50) of them; none when `total == 0` |
| Batching.Batch | load_iris.py:90-91 | a batch holds between 1 and 50 rows |
| Batching.BatchesPartition | load_iris.py:85-91 | ceil(total/50) batches, none empty, none longer than 50, all but the last exactly 50, and their concatenation in order is the table |
| Batching.RangesContiguous | load_iris.py:100 | each reported range, shifted to 0-based, is exactly its batch's rows; ranges are contiguous and non-overlapping, the first starts at 1, the last ends at `total`, and there are none when `total == 0` |
| Batching.HundredTwentyRows | load_iris.py:85-100 | 120 rows give three batches of 50, 50 and 20 rows, reported as 1-50, 51-100 and 101-120 |
| Loader.WriteBatch | load_iris.py:90-100 | a batch aborts exactly when its insert and then its upsert both raise, and then the aborting batch is this one |
| Loader.RunFrom | load_iris.py:89-100 | the loop from batch `j` on; if it aborts, it is at an existing batch from `j` on |
| Loader.WriteBatchCases | load_iris.py:93-100 | a batch goes one of three ways: the insert returns and the range is printed; the insert raises, the warning is printed, the upsert of the same records returns and the range is printed; or both raise and the batch aborts |
| Loader.WriteOne | load_iris.py:90-100 | the loop body for offset `i` produces exactly the batch trace of `WriteBatch`, including the batch number `i // 50 + 1` in the warning |
| Loader.RunBatches | load_iris.py:89-100 | the `for i in range(0, total_rows, 50)` loop, with its early exit on a raising upsert, produces exactly the trace and outcome of `RunFrom` (the same loop as scripts/load_titanic.py:62-73) |
| Loader.WriteBatchEnds | load_iris.py:93-100 | a batch that was written ends on a printed line; one that aborts ends on the raised upsert of its own records |
| Loader.WriteBatchProtocol | load_iris.py:93-100 | a batch's trace keeps the per-batch protocol (`ProtocolAt`) at every event |
| Loader.WriteBatchAnswered | load_iris.py:94-98 | each call of a batch ended as the store answered it; the upsert is asked after the store has seen the insert |
| Loader.WriteBatchFilters | load_iris.py:91-100 | a batch sends its own records in exactly one insert, and reports its range exactly when it was written |
| Loader.RunFromEnds | load_iris.py:89-100 | the loop aborts only at some batch `b` in range, on the raised upsert of batch `b`'s records, which is then the last event; otherwise the trace ends on a printed line |
| Loader.RunFromProtocol | load_iris.py:89-100 | the loop's whole trace keeps the protocol: every call goes to the table; an upsert comes only right after the warning for a raised insert of the same records; a warning names batch `num` (1-based) and sits between that batch's raised insert and its upsert; every range line follows a call that returned and names exactly the rows that call sent |
| Loader.RunFromAnswered | load_iris.py:89-98 | every call of the loop's trace ended as the store answered it, given all calls before it |
| Loader.RunFromCoverage | load_iris.py:89-100 | the inserts sent are the batches of the partition in order, up to the last batch tried; the ranges reported are those of the batches written, in order |
| Loader.LoadToTable | load_iris.py:64-105 | every load starts with the "searching" line and ends on "not found" (exactly when the file is missing), "FINISHED", or the outer handler's error line |
| Loader.LoadGuards | load_iris.py:71-80 | a missing file ends the load after the "searching" and "not found" lines; missing credentials, or a `create_client` that raises, end it in the outer handler's line with that error; in all these cases no remote call and no insert is made |
| Loader.LoadShape | load_iris.py:78-105 | with the file and the credentials, the trace is the "searching" and "loading" lines, the loop's trace, then "FINISHED" or the outer handler's error; the filters see only the loop's part |
| Loader.LoadWellFormed | load_iris.py:87-100 | between its opening and closing lines a load's trace keeps the protocol and every call in it ended as the store answered it |
| Loader.LoadFinished | load_iris.py:85-102 | "FINISHED" is printed exactly when the file and the credentials are there and no upsert raised; then the inserts sent are all the batches in order, their concatenation is every row exactly once in order, and every range was reported |
| Loader.LoadAborted | load_iris.py:98-105 | when an upsert raises, "FINISHED" is not printed, the trace ends with the raised upsert of that batch and the outer handler's line carrying its error, no later batch is inserted, and only the earlier batches' ranges are reported |
| Loader.LoadEmpty | load_iris.py:85-102 | an empty table makes no remote call and goes straight to "FINISHED" |
| Loader.LoadSendsRows | load_iris.py:89-94 | in any load, record `q` of the `b`-th insert is row `50*b + q` of the prepared rows |
| IrisLoad.CreateTableIfNotExists | load_iris.py:25-58 | raises exactly when credentials are missing or `create_client` raises, with that error, before any output or call; otherwise makes exactly one `execute_sql` RPC, reports its success or its exception, and returns normally either way |
| IrisLoad.LoadToSupabase | load_iris.py:64-105 | produces exactly the trace `LoadToTable` gives for the null-cleaned rows; a missing file gives only the "searching" and "not found" lines; a missing file, missing credentials or a raising `create_client` give no remote call |
| IrisLoad.RunScript | load_iris.py:111-115 | missing credentials or a raising `create_client` stop the script in `create_table_if_not_exists`, with that error; otherwise its trace is the table creation followed by the load, which the store sees after the RPC |
| IrisLoad.ScriptFinished | load_iris.py:111-115 | with credentials, the script prints "FINISHED" exactly when the file is there and every batch was written, whatever the RPC did; then the inserts sent are the batches of the cleaned rows |
| TitanicLoad.CoerceBool | scripts/load_titanic.py:48 | the mapped value is always the integer 0 or 1 |
| TitanicLoad.CoerceBoolMeaning | scripts/load_titanic.py:48 | a cell becomes 1 exactly when its `str()` is "true" in any mixture of case or exactly "1", and 0 otherwise |
| TitanicLoad.CoerceInt | scripts/load_titanic.py:48 | an integer cell becomes 1 exactly when it is 1 |
| TitanicLoad.CoerceBoolExamples | scripts/load_titanic.py:48 | "TRUE", "True", "1", True and 1 become 1; "false", NaN, None, 1.0, "yes", False and 0 become 0 |
| TitanicLoad.CoerceBoolIdempotent | scripts/load_titanic.py:48 | coercing a coerced value changes nothing |
| TitanicLoad.CoerceColumns | scripts/load_titanic.py:45-48 | the column loop adds or drops no column and no row |
| TitanicLoad.CoerceColumnsMeaning | scripts/load_titanic.py:45-48 | the column loop keeps the column set, the row count and each row's keys; a cell is coerced exactly when its column is listed and present; every other cell is unchanged; absent columns are skipped |
| TitanicLoad.CoerceColumnsIdempotent | scripts/load_titanic.py:45-48 | running the column loop twice equals running it once |
| TitanicLoad.CoerceBoolColumns | scripts/load_titanic.py:45-48 | the `for col in bool_cols` loop computes `CoerceColumns` over `adult_male`, `is_child`, `alone` in order, with the cell-by-cell result above |
| TitanicLoad.Prepare | scripts/load_titanic.py:45-53 | coercion then cleaning keeps the staged frame's columns and row count, and a frame whose rows all have its columns keeps that shape |
| TitanicLoad.PrepareIdempotent | scripts/load_titanic.py:45-53 | preparing prepared records changes nothing: coercion followed by cleaning is idempotent as a whole |
| TitanicLoad.PreparedCells | scripts/load_titanic.py:45-53 | after coercion and then cleaning, a listed column present in the frame holds only 0 or 1, never None; every other cell is its original with NaN and None made None |
| TitanicLoad.LoadToSupabase | scripts/load_titanic.py:24-78 | produces exactly the trace `LoadToTable` gives for the coerced, then null-cleaned rows; a missing file gives only the "searching" and "not found" lines, before any client or CSV read; no remote call without the file, without the credentials, or when `create_client` raises |
| TitanicLoad.SentFlagsAreBits | scripts/load_titanic.py:45-67 | in every record any load sends, each listed column the staged frame had holds 0 or 1 |

## Left out

- The Supabase client library and the network are foreign I/O. The calls `.table(...).insert/upsert(...).execute()` and `.rpc(...).execute()` are replaced by the store oracle, a function from the calls made so far and the next call to success or an exception message. `create_client` is replaced by a given outcome in `Env.connect`: it returns a client or raises with a message.
- IrisLoad.RunScript: the Iris script builds a client twice, once in each function; the model gives both constructions the same outcome, so it does not represent a run whose first construction succeeds and whose second raises.
- IrisLoad.CreateTableIfNotExists: the SQL text sent with the RPC is not modelled, only the procedure name `execute_sql`.
- `load_dotenv` and `os.getenv` are I/O. The environment is a parameter holding the two optional settings.
- Path resolution and `os.path.exists` are filesystem behaviour. The file's existence is a boolean parameter, and the path itself is not modelled.
- `pd.read_csv` is not modelled: the staged frame is a parameter, and a read error (which the outer handler would print) is not represented.
- The wording of printed messages, including the SQL the RPC failure prints for the operator, is not modelled. Each line keeps only the values it interpolates.
- Records.Text: floats are carried by their Python `repr`, given as a string, so float formatting is not modelled.
- Records.Lower: lowers ASCII letters only, not the rest of Unicode.
- Records.CleanNulls: pandas' dtype handling in `where` (a float column may keep NaN instead of `None`) is not modelled; every NaN becomes `None`.
- The remote table's behaviour (primary keys, the upsert's conflict target, what an insert of an existing row does) is inside the oracle. The model makes no claim about the rows stored.
- The Titanic entry point (scripts/load_titanic.py:84-86) only calls `load_to_supabase` with the default path and the default table `titanic_data`, so it is covered by `TitanicLoad.LoadToSupabase` with that table name.
- transform_iris.py and transform_titanic.py are not part of this model.
