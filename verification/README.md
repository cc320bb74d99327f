# Candidate report importer and CV re-linker, modelled in Dafny

This project models the core of two batch jobs. They keep a PostgreSQL table of job applicants, `candidates_daily_report`, in step with a recruitment partner's API.

* **The daily importer** (`daily_CV_and_candidate_importer.py`) works in six steps:
  1. It logs in and pages through yesterday's candidate report, 100 records a page.
  2. It renames the API's JSON keys to the table's column names.
  3. For every row it asks for the candidate's CV, stores it in a bucket and notes the outcome in `cv_gcs_path` / `cv_download_status`.
  4. It cleans the rows:
     * empty strings become missing;
     * e-mail and job reference are stripped and lower-cased;
     * the four flags default to false;
     * `created_on` is parsed and floored to the second;
     * rows missing any of the three key columns are dropped.
  5. It upserts every row in one transaction, keyed on (lower(email), lower(job_ref_number), created_on).
  6. It exits with status 0 on an empty fetch and with status 1 on any exception.
* **The CV re-linker** (`pull_and_link_cvs.py`) works in four steps:
  1. It loads its configuration from the environment and a secret store.
  2. It selects the rows of yesterday and today that have a CV id and either no stored CV or a status starting with "Failed".
  3. For each such row it fetches the CV through a redirect or a signed URL, picking the file extension from the content type.
  4. It stores the file and updates that row's path and status by id.

The model is split into modules that follow the programs:

| module | file | what it holds |
|---|---|---|
| `Text` | text.dfy | Python's `str.strip`, `str.lower`, `startswith`, `in` and `str(int)` on strings |
| `Base` | base.dfy | `Option`, `Result` (a value or a raised exception's message), table cells, truthiness, `str()` of a cell |
| `Seqs`, `Frames` | seqs.dfy, frames.dfy | row-wise maps and filters, and a DataFrame as columns plus rows |
| `Pagination` | pagination.dfy | the paging loop of `fetch_data_from_api` |
| `Columns` | columns.dfy | the table's columns, the key renaming, the insert and update column lists |
| `CvStatus` | cv_status.dfy | the per-row CV loop of `insert_candidate_data` and `upload_to_gcs`'s path |
| `Cleaning` | cleaning.dfy | the cleaning and normalisation block |
| `Table` | table.dfy | the table as a class, with the upsert statement and the UPDATE by id |
| `Importer` | importer.dfy | `insert_candidate_data` and the importer's `main` |
| `CvFiles` | cv_files.dfy | the content-type table, `download_cv_from_api` and the re-linker's file names and paths |
| `RelinkConfig` | relink_config.dfy | the re-linker's `load_config` |
| `Relink` | relink.dfy | the re-linker's date window, its selection query and its per-row loop |

Network replies, secrets, uploads and the clock are parameters of the model:
* A job's external calls are a function from the row's position to what the calls answered for that row.
* Timestamps are integers counting microseconds since the Unix epoch, in UTC.
* A missing DataFrame cell and SQL NULL are both `Null`.

## Model

| member | source | states |
|---|---|---|
| Text.Lower | daily_CV_and_candidate_importer.py:379 | `str.lower` keeps the length, lower-cases each capital A-Z and each Latin-1 capital U+00C0-U+00DE other than U+00D7, and leaves every other character |
| Text.Strip | daily_CV_and_candidate_importer.py:379 | `str.strip` yields a string with no leading or trailing whitespace, no longer than the input |
| Text.StripSlice | daily_CV_and_candidate_importer.py:379 | `str.strip` keeps exactly the slice of the input between its leading and its trailing whitespace |
| Text.StripTrimmed | daily_CV_and_candidate_importer.py:379 | stripping an already stripped string changes nothing |
| Text.LowerIdempotent | daily_CV_and_candidate_importer.py:379 | lower-casing twice is lower-casing once |
| Text.NormalizeIdempotent | daily_CV_and_candidate_importer.py:378-383 | the e-mail/job-reference normalisation (strip, then lower) is idempotent and its result is stripped and lower-case |
| Text.ContainsAt | pull_and_link_cvs.py:135 | Python's `sub in s` holds exactly when `sub` occurs at some position of `s` |
| Text.NatToStringRoundTrip | pull_and_link_cvs.py:198 | the decimal rendering of a time stamp reads back as the same number |
| Text.IntToString | pull_and_link_cvs.py:198 | `str(int)` is non-empty and starts with '-' exactly for negative numbers |
| Text.IntToStringRoundTrip | pull_and_link_cvs.py:198 | `str(int)` is a minus sign exactly for negative numbers, followed by the decimal digits of the absolute value without a leading zero, which read back as that value |
| Frames.FromRecords | daily_CV_and_candidate_importer.py:284 | `pd.DataFrame(records)` has one row per record in order, every key of any record as a column, and NaN where a record lacks a key |
| Frames.SetColumn | daily_CV_and_candidate_importer.py:285-286 | assigning a constant column sets it in every row and leaves every other cell |
| Pagination.StopRule | daily_CV_and_candidate_importer.py:247-279 | when every page up to `last` answered and `last` is the first page with fewer than 100 records or with `pageNo * 100 >= getCount`, the loop returns exactly the records of pages 1..last in page order |
| Pagination.StopPageExists | daily_CV_and_candidate_importer.py:247-279 | whenever the loop completes there is such a stopping page, and the records are those of pages 1 to it |
| Pagination.FetchReport | daily_CV_and_candidate_importer.py:225-294 | an incomplete login, a failed request or no records give the empty DataFrame; otherwise one row per record, with `accessToken` and `buyerId` set from the login and every other cell the record's |
| Pagination.FetchDataFromApi | daily_CV_and_candidate_importer.py:214-294 | the request loop returns the DataFrame FetchReport describes |
| Columns.ApiKeyRoundTrip | daily_CV_and_candidate_importer.py:303-326 | renaming a key and mapping it back gives the original key, so the renaming loses no column |
| Columns.RenameRecord | daily_CV_and_candidate_importer.py:303-326 | a renamed record has exactly the renamed keys, each with the original value |
| Columns.RenameFrameCells | daily_CV_and_candidate_importer.py:303-326 | `df.rename(columns=...)` keeps well-formedness and row count, renames the column set and moves every cell to its renamed column |
| Columns.InsertColumnsListed | daily_CV_and_candidate_importer.py:361-367 | a column is in the insert list exactly when it is one the insert keeps |
| Columns.PresentMember | daily_CV_and_candidate_importer.py:428 | a column is in `[col for col in wanted if col in df.columns]` exactly when it is both wanted and in the frame |
| Columns.PresentInOrder | daily_CV_and_candidate_importer.py:370 | the comprehension keeps the wanted list's order |
| Columns.InsertedPresentListed | daily_CV_and_candidate_importer.py:360-370 | the selected columns are the insert list's columns the frame has |
| Columns.UpdateColumnsListed | daily_CV_and_candidate_importer.py:421-427 | `update_cols` lists exactly the inserted columns other than `created_on`, `job_ref_number` and `email` |
| Columns.UpdatedNotKept | daily_CV_and_candidate_importer.py:421-427 | no update column is the id, a key column, the load time or an e-mail bookkeeping column |
| Columns.UpdateColumnsDisjoint | daily_CV_and_candidate_importer.py:421-427 | no column updated on conflict is the id, a key column or the load time |
| Columns.UpdateColsIn | daily_CV_and_candidate_importer.py:428 | `update_cols_in_df` holds exactly the update columns the frame has, none of them kept on conflict |
| Columns.Project | pull_and_link_cvs.py:179 | projecting a row keeps exactly the requested columns it has, with their values |
| Columns.SelectInsertColumnsShape | daily_CV_and_candidate_importer.py:361-370 | `df[[col for col in db_insert_columns if col in df.columns]]` keeps well-formedness and row count; its columns are exactly the frame's insertable ones, each cell unchanged, and no other column remains in any row |
| Columns.RestrictCell | daily_CV_and_candidate_importer.py:370 | column selection leaves every kept cell unchanged |
| CvStatus.GcsCvPath | daily_CV_and_candidate_importer.py:201-209 | the stored CV's path is `gs://{bucket}/cvs/` followed by the file name |
| CvStatus.GcsCvPathRoundTrip | daily_CV_and_candidate_importer.py:205-207 | the file name is recovered from the path |
| CvStatus.Decide | daily_CV_and_candidate_importer.py:337-357 | the loop body's branch: a KeyError escapes exactly when the row has no `cv_id` column; "missing ids" exactly when cv_id or user_id is NaN; "no file name" exactly when the lookup ran and returned a falsy name; an upload is attempted exactly when the lookup ran, returned two truthy names and the download succeeded; the body raises exactly when user_id or buyer_id is not a column, the lookup raised, or the download raised; the upload succeeds exactly when it returned a path, and that path is the bucket path of `cvFileName` |
| CvStatus.DecideRaisedMessage | daily_CV_and_candidate_importer.py:338-356 | the message caught is the KeyError text of the missing `user_id` or `buyer_id` column, or the lookup's or the download's own error |
| CvStatus.StatusText | daily_CV_and_candidate_importer.py:347-356 | the status is "Success" exactly for a stored CV, and otherwise starts with "Failed" |
| CvStatus.StepStatus | daily_CV_and_candidate_importer.py:337-356 | the status text the loop body writes for each path through its conditions: missing ids, a missing column's KeyError, the lookup's error, no file name, the download's error, "Success" or "Failed" |
| CvStatus.RecordWrites | daily_CV_and_candidate_importer.py:346-356 | a row's outcome writes its status, writes the path only when an upload was attempted (None when it failed), and changes no other cell |
| CvStatus.CvPassShape | daily_CV_and_candidate_importer.py:337-358 | the loop raises only on a row without a `cv_id` column; otherwise every row has gone through the body with the answers for its own position |
| CvStatus.CvPassStatuses | daily_CV_and_candidate_importer.py:329-358 | after the loop every row has a status string; "Success" exactly when it has a path, which is the bucket path of the looked-up `cvFileName`; otherwise the status starts with "Failed" |
| CvStatus.RecordCvStatuses | daily_CV_and_candidate_importer.py:337-358 | the in-place loop over the rows leaves exactly the rows CvPass computes, or returns the escaping KeyError's message |
| CvStatus.CvPassEscapes | daily_CV_and_candidate_importer.py:337-358 | once a prefix of the rows raises, the whole loop raises with the same message |
| Cleaning.EmptyToNull | daily_CV_and_candidate_importer.py:374-375 | empty strings become missing, every other cell is kept, no column is added or removed |
| Cleaning.NormalizeCell | daily_CV_and_candidate_importer.py:378-383 | a present string is stripped and lower-cased; a missing cell stays missing |
| Cleaning.NormalizeCellNormalized | daily_CV_and_candidate_importer.py:378-383 | a normalised cell is a stripped lower-case string or missing |
| Cleaning.NormalizeColumn | daily_CV_and_candidate_importer.py:378-383 | normalising a column changes only that column |
| Cleaning.FillFlags | daily_CV_and_candidate_importer.py:387-389 | in a frame that has an interview/hire/rejected/qualified column, a missing cell of it becomes false and a present value is kept; other columns are untouched and no column is added |
| Cleaning.ToDatetime | daily_CV_and_candidate_importer.py:393-394 | `created_on` becomes the parsed time, or missing when it does not parse; other columns are untouched |
| Cleaning.FloorToSecond | daily_CV_and_candidate_importer.py:399 | flooring gives the largest whole second not after the time |
| Cleaning.FloorToSecondIdempotent | daily_CV_and_candidate_importer.py:399 | flooring a floored time changes nothing |
| Cleaning.FloorCreated | daily_CV_and_candidate_importer.py:399 | only a time in `created_on` is floored; every other cell is kept |
| Cleaning.CleanRowsRowWise | daily_CV_and_candidate_importer.py:373-411 | the column-wise cleaning with its three drops equals cleaning each kept row on its own, keeping the rows that pass all three checks in order |
| Cleaning.CleanRowsSubsequence | daily_CV_and_candidate_importer.py:393-411 | the cleaned rows are a subsequence of the rows cleaned one by one: the drops only remove rows and keep order |
| Cleaning.KeepsExactly | daily_CV_and_candidate_importer.py:393-411 | a row is dropped exactly when `created_on` does not parse, or its job reference or e-mail is missing once empty strings count as missing |
| Cleaning.CreatedSurvivesExactly | daily_CV_and_candidate_importer.py:393-396 | the `created_on` drop depends only on whether the non-empty value parses |
| Cleaning.KeySurvivesExactly | daily_CV_and_candidate_importer.py:401-411 | each key drop depends only on whether the column is missing once empty strings count as missing |
| Cleaning.FinishShape | daily_CV_and_candidate_importer.py:373-411 | a kept row is cleaned: `created_on` on a whole second, job reference and e-mail normalised and present, no missing flag |
| Cleaning.CleanRowsShape | daily_CV_and_candidate_importer.py:373-411 | every output row is cleaned and has the columns of an input row |
| Cleaning.FinishColumns | daily_CV_and_candidate_importer.py:373-411 | cleaning never adds or removes a column |
| Cleaning.NormalizeKeysIdempotent | daily_CV_and_candidate_importer.py:377-383 | normalising a row's keys twice is normalising them once |
| Table.LoweredShape | daily_CV_and_candidate_importer.py:441-442 | `lower()` of a key cell keeps its length, leaves no upper-case letter and is idempotent; a non-string is unchanged |
| Table.Proposed | daily_CV_and_candidate_importer.py:127-151 | the inserted row holds the record's values, with the serial id, the load time and 'HireIntelligence' as defaults for the columns the record omits |
| Table.ProposedKey | daily_CV_and_candidate_importer.py:439-444 | the defaults do not change the row's conflict key |
| Table.Overwrite | daily_CV_and_candidate_importer.py:445 | on conflict the listed columns take the proposed row's values and every other column keeps the stored one |
| Table.FindKey | daily_CV_and_candidate_importer.py:439-444 | finds a row with the conflict key, or shows no row has it |
| Table.UpsertRowFails | daily_CV_and_candidate_importer.py:126-151 | a statement raises exactly when the record names a column the table lacks, or leaves `created_on`, `job_ref_number`, `email` or an explicit `source_system` NULL |
| Table.UpsertRowInserts | daily_CV_and_candidate_importer.py:438-447 | a record with a new key is appended as its proposed row |
| Table.UpsertRowFound | daily_CV_and_candidate_importer.py:438-447 | when the conflict lookup finds row i, the statement replaces row i by its overwrite with the proposed row and leaves every other row |
| Table.UpsertRowUpdates | daily_CV_and_candidate_importer.py:438-447 | with unique keys, a record whose key row i holds overwrites exactly row i, in the update columns only, and leaves every other row |
| Table.OverwriteWithRecord | daily_CV_and_candidate_importer.py:438-445 | on conflict an update column the record names takes the record's value, one it omits, other than the id, the load time and the source system, becomes NULL, and every other column keeps the stored value |
| Table.OverwriteKey | daily_CV_and_candidate_importer.py:439-445 | overwriting the row the key matched keeps that key |
| Table.FindKeyUnique | daily_CV_and_candidate_importer.py:439-444 | with unique keys the conflict lookup finds the one row holding the key |
| Table.UpsertRowResult | daily_CV_and_candidate_importer.py:438-447 | a successful statement adds at most one row, leaves rows with other keys in place, and some row with the record's key then holds its update-column values |
| Table.UpsertRowKeepsTable | daily_CV_and_candidate_importer.py:438-447 | a statement that succeeds keeps the table's keys unique, its NOT NULL columns filled and its ids distinct and below the serial |
| Table.UpsertAllSerial | daily_CV_and_candidate_importer.py:437-447 | the serial only moves forward, at most one per record, and exactly one per record when the transaction commits |
| Table.UpsertAllStep | daily_CV_and_candidate_importer.py:436-447 | a committed transaction is its first statement followed by the transaction of the remaining records |
| Table.UpsertAllKeepsTable | daily_CV_and_candidate_importer.py:436-447 | a transaction that commits keeps the table's constraints |
| Table.LastRecordWins | daily_CV_and_candidate_importer.py:437-447 | after a committed batch, a record whose key no later record shares is held by some row in every update column it names |
| Table.HoldsThroughOthers | daily_CV_and_candidate_importer.py:437-447 | statements on other keys do not disturb a row holding a record's values |
| Table.SetCv | pull_and_link_cvs.py:201-208 | the UPDATE keeps the number of rows, leaves every row whose id differs (every row, for a NULL id) as it was, and gives each row with the id the new path and status |
| Table.SetCvChangesOnly | pull_and_link_cvs.py:201-208 | `UPDATE ... WHERE id = :id` sets path and status on the rows with that id only (none when the id is NULL) and changes no other column |
| Table.SetCvKeepsTable | pull_and_link_cvs.py:201-208 | the UPDATE keeps the table's constraints |
| Table.TableRowsLaterSerial | daily_CV_and_candidate_importer.py:127 | advancing the serial without inserting keeps the table's constraints |
| Table.CandidateTable.constructor | daily_CV_and_candidate_importer.py:123-158 | a new table is empty, its serial starts at 1, and it satisfies the constraints |
| Table.CandidateTable.Upsert | daily_CV_and_candidate_importer.py:420-456 | the transaction commits the rows UpsertAll computes or, when a statement raises, rolls them back while the serial keeps its advance; the affected count is the number of records on commit and never exceeds it; the constraints hold afterwards for records without ids and update columns that spare the key |
| Table.CandidateTable.UpdateCv | pull_and_link_cvs.py:201-208 | the UPDATE leaves the rows SetCv computes and the serial unchanged, and keeps the constraints |
| Importer.InsertRecordShape | daily_CV_and_candidate_importer.py:361-430 | every record sent to the database is cleaned and names only insertable columns |
| Importer.BatchUpsert | daily_CV_and_candidate_importer.py:430-433 | a transaction starts only after the CV loop succeeded and when there is at least one record |
| Importer.InsertNoIds | daily_CV_and_candidate_importer.py:361-430 | no record carries an id, and no update column is kept on conflict |
| Importer.ImportKeepsTable | daily_CV_and_candidate_importer.py:430-456 | a batch without ids and with update columns that spare the key keeps the table's constraints, whether its transaction commits or rolls back with the serial advanced |
| Importer.RunCvPass | daily_CV_and_candidate_importer.py:303-358 | renaming, adding the three columns and running the CV loop on an array of the rows gives the rows Passed describes, or raises |
| Importer.BatchIsSafe | daily_CV_and_candidate_importer.py:296-456 | whatever the API returned, the batch sent to the database names no id and updates no key column |
| Importer.ApplyBatch | daily_CV_and_candidate_importer.py:430-456 | applying the batch reaches the state Imported describes and keeps the constraints |
| Importer.InsertCandidateData | daily_CV_and_candidate_importer.py:296-456 | an empty frame changes nothing; otherwise the table reaches the committed or rolled-back state of the batch, and the constraints hold afterwards |
| Importer.ImporterMain | daily_CV_and_candidate_importer.py:458-480 | an empty fetch exits 0 with the table unchanged; otherwise the exit status is 0 exactly when the import raised nothing, and the table is the import's result |
| CvFiles.ContentTypeOf | pull_and_link_cvs.py:148 | a missing Content-Type header reads as "application/pdf"; a present one is taken as given |
| CvFiles.ExtensionRoundTrip | pull_and_link_cvs.py:38-45 | a listed content type maps to an extension that maps back to it; an unlisted one maps to ".pdf" |
| CvFiles.ExtensionIsPdf | pull_and_link_cvs.py:148-149 | the extension is ".pdf" exactly for "application/pdf" or an unlisted type, and is always one of the table's six extensions |
| CvFiles.SignedUrlCases | pull_and_link_cvs.py:131-143 | a signed URL is found exactly on a 302 with a non-empty Location, or on a 200 whose Content-Type contains "application/json" and whose body has a truthy `data.cvUrl`; that value is the URL |
| CvFiles.DownloadCvResult | pull_and_link_cvs.py:129-158 | a CV is returned exactly when a signed URL was found and the file request succeeded; it carries the file's bytes, the response's Content-Type ("application/pdf" when the header is missing), and the extension the table gives that type, which maps back to it (to "application/pdf" when the type is unlisted) |
| CvFiles.CvFileNameParts | pull_and_link_cvs.py:198 | the file name starts with the job reference and a dash, and ends with a dash, the time stamp and the extension |
| CvFiles.GcsPath | pull_and_link_cvs.py:93-97 | the stored path starts with `gs://recruitment-engine-cvs-sp-260625/candidate-cvs/` |
| CvFiles.GcsPathRoundTrip | pull_and_link_cvs.py:93-97 | the file name is recovered from the stored path |
| RelinkConfig.LoadConfigSucceeds | pull_and_link_cvs.py:69-82 | loading succeeds exactly when the four secrets are read and the two required environment variables and the four secrets are non-empty after stripping; the settings are then the stripped values |
| RelinkConfig.LoadConfigFails | pull_and_link_cvs.py:60-80 | a failure is the first failing secret's error, in the order hire-password, db-user, db-password, db-name; with all four read it is "Missing required configuration values" |
| RelinkConfig.RequiredEnvDecides | pull_and_link_cvs.py:72-79 | two environments that agree on HIRE_USERNAME and DB_CONNECTION_NAME load alike |
| RelinkConfig.DatesOptional | pull_and_link_cvs.py:78-80 | setting or removing DATES never decides whether loading succeeds |
| Relink.WindowBounds | pull_and_link_cvs.py:173-176 | the window starts at midnight of yesterday and ends at the last microsecond of today, so it spans two days and contains the current time |
| Relink.SnapshotOrigin | pull_and_link_cvs.py:178-187 | every fetched row is the projection of a table row the WHERE clause selects |
| Relink.SnapshotCovers | pull_and_link_cvs.py:178-187 | every selected table row is fetched |
| Relink.SnapshotDistinctIds | pull_and_link_cvs.py:178-187 | the fetched rows have distinct ids |
| Relink.OutcomeCases | pull_and_link_cvs.py:189-200 | a falsy cv_id is skipped; no CV gives "Failed" with no path; when a CV was fetched, it is stored exactly when the upload succeeds, at the bucket path of its file name built with the extension of its content type, and the loop aborts with the upload's own error exactly when the upload raises |
| Relink.ApplyEffect | pull_and_link_cvs.py:195-208 | one pass of the loop body changes only path and status, and only on the row with the fetched id |
| Relink.RelinkKeepsRow | pull_and_link_cvs.py:189-208 | a row whose id no remaining fetched row has is left unchanged by the loop |
| Relink.RelinkSettles | pull_and_link_cvs.py:189-208 | after a loop that completed, the row with a fetched id carries its outcome's path and status, and every other column it had |
| Relink.SettledSelection | pull_and_link_cvs.py:182-200 | a selected row stays selected after its update exactly when its CV was not stored |
| Relink.UnselectedUnchanged | pull_and_link_cvs.py:178-208 | a row the query did not select is left as it was |
| Relink.RetriesOnlyFailures | pull_and_link_cvs.py:178-208 | after a run that completed, every selected row is settled by its own fetched row's outcome, and is selected again exactly when its CV was not stored, so a second run retries only those |
| Relink.RelinkStep | pull_and_link_cvs.py:189-208 | one turn of the loop: an upload that raises ends it, any other outcome is applied and the loop goes on |
| Relink.ProcessRows | pull_and_link_cvs.py:189-208 | the loop leaves the table as RelinkFrom describes, reports an abort exactly when an upload raised, and keeps the constraints |
| Relink.RelinkCvs | pull_and_link_cvs.py:163-214 | a configuration error or a missing token exits 1 and leaves the table unchanged; otherwise the selected rows are processed and the exit status is 0 exactly when no upload raised |

## Left out

- pandas dtype coercion (`StringDtype`, `Int64Dtype`, `BooleanDtype`) is not modelled. Cells keep the JSON value they arrived with, and a value that would fail the conversion is not modelled as raising.
- `astype(str)` on a missing e-mail or job reference gives the text "<NA>" or "nan" in pandas. The model leaves such a cell missing instead, so those rows are dropped rather than kept with that text.
- `pd.to_datetime` is the parameter `parse`: a function from a cell to an optional instant. The formats it accepts are not modelled.
- Time zones are not modelled: every instant is UTC, including the comparison of the table's naive `created_on` with the window's aware bounds.
- Timestamps are microseconds since the epoch, so `floor('S')` and the 23:59:59.999999 window end are exact.
- Lower-casing covers A-Z and the Latin-1 capitals U+00C0-U+00DE other than U+00D7. Case mappings beyond Latin-1 are not modelled, nor are mappings that change a string's length. Whitespace is the full set `str.isspace` accepts.
- The API's page replies are a finite sequence, and a request past its end counts as a failed request. The loop's termination relies on this.
- Sleeps, logging, request headers, URLs and query parameters (including the report's date range and the buyer id sent with it) are not modelled.
- The network, the secret store, the storage bucket and the clock are inputs.
- The CV lookup and download requests of the importer's `CVDownloadTool` are likewise inputs: an answer or a raised error per row.
- The importer's `load_config`, `get_db_engine` and `create_candidates_table` are not modelled. The importer's main starts after them, and an exception raised by them is not part of this model.
- The table's DDL is not modelled beyond its NOT NULL columns, its serial id and its two defaults.
- The unique index on (lower(email), lower(job_ref_number), created_on) that `ON CONFLICT` needs is assumed to exist.
- Column lengths and types are not checked, so an over-long value or a wrongly typed one is not modelled as raising.
- `df.rename` into a name another column already has is not modelled: the renaming is one-to-one on the API's keys.
- Columns.ApiColumn: a JSON key outside the rename table becomes a column under its own name that no table column matches, so its values never reach the table. pandas keeps such a key as it is, so a key that already spells a table column (`status_id`, say) would be inserted into that column. The model takes the API to send only the keys of the rename table for the table's columns, and Columns.RenameRecord inherits this.
- Table.CandidateTable.Upsert: the "unexpected rowcount" warning branch is not modelled. Every statement that runs affects exactly one row, so the branch cannot be taken.
- Table.UpsertRowKeepsTable: a record that names an id, which could clash with the primary key, is not covered. The importer never sends one, as Importer.InsertNoIds shows.
- The selection query's result is taken in table order; SQL gives no order without ORDER BY.
- Failures of the SELECT or of an UPDATE are not modelled. Only an upload that raises ends the re-linker's loop.
- The re-linker's `get_api_auth_token` is the token parameter, and `get_db_engine` is not modelled.
- The signed URL's own request is the `file` input of each row, not a function of the URL.
