# Supernova harvest controller, modelled in Dafny

This project models the harvest controller of a small data-ingestion
pipeline. The controller pages through a remote alert-broker catalog of
supernova candidates. It drops candidates whose object identifier (oid) is
already processed and queries each remaining candidate's light curve
(its detections). It stores the detection rows in a local table keyed by
`(oid, mjd, fid)` with INSERT OR IGNORE, and records the oids that yielded
rows in a processed table. It stops when the loop's count reaches 100000 (the
count starts as the stored row count and is then the total the last save
returned), or after five consecutive pages that yield nothing.

The model has four modules, one per component of `scripts/orchestrator.py`:

- `Records` (records.dfy): candidate rows, detection rows, the table key.
- `BatchFetch` (fetch.dfy): `fetch_batch`. The catalog is injected as a
  value. `FetchSpec` is the reference function. `FetchBatch` is the
  imperative loop, proved equal to `FetchSpec`.
- `IngestStore` (store.dfy): `init_db`, `get_processed_oids` and
  `save_batch`, as a `Store` class over a map (the detections table) and a
  set (the processed table). `SaveSpec` specifies `save_batch`.
- `Orchestrator` (harvest.dfy): `start_harvest`, as a `Harvester` class.
  `Step` and `Run` specify one iteration and the whole loop. `Harvest` is
  the `while` loop, proved to end in the state `Run` predicts.

Injected behaviour:

- The catalog has two parts. `pages` holds one page query per page index,
  counted from 1; `None` means the query raised, and every page past the
  end is empty. `detections(page, oid)` answers the light-curve query for
  `oid` made while that page is fetched; `None` means it raised. Passing the
  page lets a query fail on one page and succeed on a later one.
- `faults(page)` names the statement of `save_batch` that raises on that
  page, if any: the detections insert, the processed insert, or the count.
  Each SQL statement is taken to be atomic on its own.

Three behaviours of the code are easy to miss, and the model keeps them:

- The two inserts of a save are separate statements with no transaction
  around them. A fault on the second one leaves the rows stored and their
  oids unmarked (`MarkFaultSplitsCommit`).
- A persistence error inside `save_batch` is caught and yields 0. The loop
  then overwrites its count with that 0 (`FailedSaveZeroesCount`), adds the
  batch's oids to the in-memory set anyway, and carries on.
- The processed table exists to avoid re-fetching (the comment at
  `scripts/orchestrator.py` line 35), but only candidates that returned rows
  are marked. A candidate whose detection query failed or came back empty
  is queried again if a later page lists it (`UnproductiveNotMarked`).

## Model

| member | source | states |
|---|---|---|
| `BatchFetch.Unprocessed` | scripts/orchestrator.py:86-91 | a candidate is kept exactly when it is on the page and its oid is not in the processed set |
| `BatchFetch.TagAll` | scripts/orchestrator.py:106-116 | one stamped row per raw detection row: none is dropped or added |
| `BatchFetch.TagAllStamps` | scripts/orchestrator.py:104-116 | every row gets the candidate's oid; the candidate's coordinates replace the row's when the page carries them; time, band and magnitudes are kept |
| `BatchFetch.FetchBatch` | scripts/orchestrator.py:65-134 | the loop returns exactly the reference batch `FetchSpec`; no returned oid is in the processed set; every row's oid is a returned oid; rows and oids are empty together |
| `BatchFetch.FetchSpec` | scripts/orchestrator.py:70-134 | a failed page query yields the empty batch; otherwise the page yields at most one oid per candidate on it |
| `BatchFetch.GatherOidsBound` | scripts/orchestrator.py:99-118 | assembling a list of candidates appends at most one oid per candidate |
| `BatchFetch.GatherOidsFromCandidates` | scripts/orchestrator.py:99-118 | every returned oid is the oid of one of the listed candidates |
| `BatchFetch.GatherMatchesReference` | scripts/orchestrator.py:99-125 | the returned oids are the oids of the candidates whose query succeeded with rows, in page order; the rows are every candidate's stamped rows, concatenated in candidate order |
| `BatchFetch.GatherAppend` | scripts/orchestrator.py:99-125 | assembling a list of candidates split in two gives the first part's batch followed by the second's |
| `BatchFetch.GatherRowsOwned` | scripts/orchestrator.py:104-125 | every row belongs to a returned oid, and rows are empty exactly when oids are |
| `BatchFetch.FailureIsolated` | scripts/orchestrator.py:101-122 | a candidate whose query fails or returns no rows is skipped and leaves the rest of the batch as if it were absent |
| `BatchFetch.GatherIgnoresOthers` | scripts/orchestrator.py:99-102 | the batch depends on the detection answers of the listed candidates only |
| `BatchFetch.FetchIgnoresProcessed` | scripts/orchestrator.py:86-102 | filtering precedes querying: answers for processed oids cannot change a page's batch |
| `BatchFetch.FetchExcludesProcessed` | scripts/orchestrator.py:86-99 | no oid returned for a page is in the processed set passed in |
| `BatchFetch.FetchCharacterized` | scripts/orchestrator.py:70-134 | a failed page yields nothing; otherwise oids and rows are those of the unprocessed productive candidates in order, each row owned by a returned oid, each oid from the page |
| `BatchFetch.NoSurvivorsNoBatch` | scripts/orchestrator.py:124-130 | if no candidate yields rows the batch is empty |
| `BatchFetch.FetchEmptyCases` | scripts/orchestrator.py:82-134 | the batch is empty when the page query fails, the page is empty, every candidate is processed, or no unprocessed candidate yields rows |
| `IngestStore.InsertRows` | scripts/orchestrator.py:146-149 | INSERT OR IGNORE never overwrites or drops a stored row, stores every row's key, and never lowers the row count |
| `IngestStore.InsertFromRows` | scripts/orchestrator.py:146-149 | each new entry is one of the inserted rows, stored under that row's key |
| `IngestStore.InsertKeepsKeyed` | scripts/orchestrator.py:146-149 | a table whose rows sit under their own keys keeps that property through an insert |
| `IngestStore.InsertBound` | scripts/orchestrator.py:146-149 | an insert adds at most one entry per row |
| `IngestStore.InsertAbsorbed` | scripts/orchestrator.py:146-149 | rows whose keys are all stored already change nothing |
| `IngestStore.InsertIdempotent` | scripts/orchestrator.py:146-149 | inserting the same rows twice leaves the table as inserting them once |
| `IngestStore.InsertFirstWins` | scripts/orchestrator.py:146-149 | within one insert, the first row that carries a new key is the one stored |
| `IngestStore.InsertFreshKeys` | scripts/orchestrator.py:146-157 | rows with distinct new keys raise the row count by exactly their number |
| `IngestStore.Mark` | scripts/orchestrator.py:152-154 | marking is set union: old marks kept, every oid marked, nothing else added |
| `IngestStore.SaveSpec` | scripts/orchestrator.py:139-166 | the total is 0 or the new row count; the detections table is left alone or receives the rows by one INSERT OR IGNORE; the marks keep the old ones and gain only the batch's oids; oids are newly marked only after the rows' insert has run; a raise on the detections insert changes nothing and returns 0 |
| `IngestStore.SaveEmpty` | scripts/orchestrator.py:139-140 | an empty batch returns 0 and changes nothing |
| `IngestStore.SaveGrows` | scripts/orchestrator.py:136-166 | under any fault no stored row is lost or overwritten, the row count does not fall and no mark is lost |
| `IngestStore.SaveTotal` | scripts/orchestrator.py:156-166 | the total is the new row count, or 0 when the batch is empty or a statement raised |
| `IngestStore.SaveCommits` | scripts/orchestrator.py:144-158 | a save without fault stores every row's key, marks every oid by union, and returns the table size |
| `IngestStore.SaveIdempotent` | scripts/orchestrator.py:136-166 | saving the same batch twice under the same fault leaves store and total as saving it once |
| `IngestStore.MarkFaultSplitsCommit` | scripts/orchestrator.py:144-162 | the two inserts are not one unit: a raise on the marking statement leaves the rows stored and the oid unmarked, total 0 |
| `IngestStore.Store.Open` | scripts/orchestrator.py:20-41 | opening a store with given well-keyed contents |
| `IngestStore.Store.Init` | scripts/orchestrator.py:43-51 | returns the row counts of both tables |
| `IngestStore.Store.ProcessedOids` | scripts/orchestrator.py:55-63 | returns exactly the processed set |
| `IngestStore.Store.SaveBatch` | scripts/orchestrator.py:136-166 | the new tables and the returned total are those of `SaveSpec` for the given fault; rows stay under their own keys |
| `Orchestrator.Step` | scripts/orchestrator.py:190-216 | an iteration that does not break leaves the empty-page counter below 5 |
| `Orchestrator.StepRules` | scripts/orchestrator.py:195-216 | a non-empty batch resets the counter and an empty one increments it; the loop breaks exactly when an empty page brings the counter to 5; otherwise the page rises by one; the in-memory set grows by union with the batch's oids |
| `Orchestrator.StepKeepsInv` | scripts/orchestrator.py:190-216 | an iteration keeps rows under their keys, keeps the store's marks inside the in-memory set, and keeps the count equal to the table size or 0 |
| `Orchestrator.FailedSaveZeroesCount` | scripts/orchestrator.py:195-197 | a save that raises overwrites the loop's count with 0 |
| `Orchestrator.NoRefetch` | scripts/orchestrator.py:192-197 | with the invariant, a page never returns an oid that is in the store's processed table or in memory |
| `Orchestrator.UnproductiveNotMarked` | scripts/orchestrator.py:104-118 | a candidate whose query fails or returns no rows is marked neither in memory nor in the store |
| `Orchestrator.Run` | scripts/orchestrator.py:190-216 | the loop body runs at least once exactly when the count starts below the target; the page advances at most one per iteration; the empty-page counter never exceeds 5 |
| `Orchestrator.RunExit` | scripts/orchestrator.py:190-212 | the loop ends either at or above the target with fewer than 5 empty pages, or below the target with exactly 5 |
| `Orchestrator.RunGrows` | scripts/orchestrator.py:190-216 | across the run no stored row is lost or overwritten; row count, marks and in-memory set only grow; the page never falls; the invariant is kept |
| `Orchestrator.FiveEmptyPagesStop` | scripts/orchestrator.py:205-215 | five empty pages after a reset end the loop in five iterations, four pages on, with store and count untouched |
| `Orchestrator.ExhaustedAfterFiveEmptyPages` | scripts/orchestrator.py:177-215 | a fresh run below the target against pages 1 to 5 that yield nothing ends after exactly 5 iterations on page 5 |
| `Orchestrator.EmptyCatalogExhausts` | scripts/orchestrator.py:177-215 | against an empty catalog the run takes 5 iterations, ends on page 5 with 5 empty pages, and leaves the store unchanged |
| `Orchestrator.OnePageThenExhausted` | scripts/orchestrator.py:171-216 | from an empty store, a catalog whose only page yields rows below the target, saved without a fault, ends after 6 iterations on page 6 with those rows inserted, their oids marked in store and memory, and the count equal to the table size |
| `Orchestrator.TwoCandidatesThenExhausted` | scripts/orchestrator.py:171-216 | two new candidates with three detections each on page 1, saved without a fault, then nothing: 6 rows stored, both marked, exhausted below the target on page 6 after 6 iterations |
| `Orchestrator.Harvester.constructor` | scripts/orchestrator.py:174-179 | the loop starts on page 1 with no empty pages, the store's row count and the store's processed set |
| `Orchestrator.Harvester.Harvest` | scripts/orchestrator.py:190-216 | the loop ends in the state `Run` predicts, at the target or with exactly 5 empty pages, never more than 5 |

## Left out

- `detections(page, oid)` is a function of the page and the oid, so an oid
  listed twice on one page gets the same answer both times. The source sends
  two separate queries there (lines 99-102), and one of them could fail while
  the other succeeds.
- The DuckDB connection, SQL text and table creation are replaced by a map
  and a set. A failure to open the connection (line 142, outside the `try`)
  aborts the run and is not modelled.
- The `inserted_at` and `processed_at` timestamps filled in by the database
  are not modelled.
- The fixed query filter (classifier, class name, probability 0.7, page
  size 50, first MJD 60000) is inside the injected catalog. The model does
  not check it.
- The Alerce client and pandas frame mechanics are left out. Any exception
  inside the per-candidate `try` is modelled as a failed detection query (a
  missing column at line 116, say). Any exception in the outer `try` is
  modelled as a failed page query. Any failing SQL statement, such as a
  frame without an `ra` column, is modelled as an injected fault.
- `ra` and `dec` are one optional coordinate pair, on the candidate row and
  on each detection row.
- `mjd` is an integer key; magnitudes and coordinates are `real` payload.
  There is no float arithmetic.
- Within one INSERT OR IGNORE statement, the first row of a repeated key
  wins. The database's exact handling of duplicates inside one statement is
  an assumption.
- `Orchestrator.Harvester.Harvest`: only finite catalogs are
  modelled, where every page past the last is empty. The source loop can run
  forever on a catalog that keeps yielding new rows but never reaches the
  target. The finite catalog is what gives the loop its termination measure.
- Printing, progress and rate arithmetic, wall-clock timing, the 3-second
  sleep, and the Prefect task and flow decorators are left out.
- `scripts/analysis.py`, `analysis.py`, `preview.py` and `scripts/plots.py`
  only read and plot the finished data. They are not part of this model.
