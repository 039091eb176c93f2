# SureChEMBL mini client, modelled in Dafny

The SureChEMBL mini client copies SureChEMBL's chemical-structure dumps from the EBI FTP server
into one SQL table, `schembl_chemical_structure`, keyed by `schembl_chem_id`. There are two paths:

- the **front file** holds daily partitions `data/external/frontfile/YYYY/MM/DD`. A run loads
  today's partition, one date, one month or one year. Partitions that were missing on an earlier
  run are kept in a local backlog file, `schembl_backlog.txt`.
- the **back file** holds year directories `data/external/backfile/<year>_...`. A run loads every
  year directory of a range.

The project models the rules that decide what gets loaded and in what form:

- the column projection of a chemicals TSV, and deduplication by natural key where the first row
  wins (`Rows`);
- the insertion-ordered dict that Python's `dict` is (`Dicts`);
- the partition lister `get_tsv_dir`: the `newfiles.txt` manifest wins over loose
  `.chemicals.tsv.gz` files (`Listing`);
- the merge of a partition's files (`Fetch`);
- mode selection and path construction for the front file (`Resolver`);
- the backlog file (`Backlog`, a class);
- the destination table with its two SQL deduplication statements and its primary-key constraint
  (`Table`, a class);
- the front-file visiting loop and the whole `load_frontfile` run (`Frontfile`);
- the back-file year filter and the `load_backfile` run (`Backfile`).

The FTP server is a value (`Ftp.Remote`). It holds the directory that `pwd()` reports after login,
what `NLST` lists in every directory that `CWD` accepts, and what `RETR` returns for every file.
A gzip TSV is already decoded to its header and records. The clock reading is a parameter
(`Resolver.Date`). Each uncaught exception and each `sys.exit()` becomes an error or outcome value
(`Outcomes.Error`, `Frontfile.RunOutcome`).

The back-file run drops the primary key once before the year loop and adds it once after it, with
errors ignored. The front-file run drops it once and adds it once per run.
Backlog lines are used as read, with their trailing newline.

## Model

| member | source | states |
|---|---|---|
| Rows.SelectColumns | surechembl_mini_client/surechembl_mini_client.py:85-86 | the four columns are selected by name: success exactly when the header has all four, otherwise the error names one that is missing; one row per record, and row `i` holds record `i`'s cells under the first header column named `SureChEMBL ID`, `SMILES`, `Standard InChi` and `Standard InChiKey`, in that order |
| Rows.DropDuplicatesSpec | surechembl_mini_client/surechembl_mini_client.py:87 | `drop_duplicates(keep='first')`: keys pairwise distinct, every input key survives, the output is an order-preserving subsequence, and each survivor is the first input row with its key |
| Rows.DropDuplicatesIdempotent | surechembl_mini_client/surechembl_mini_client.py:87 | deduplicating again changes nothing |
| Rows.DedupFromSplit | surechembl_mini_client/surechembl_mini_client.py:148-150 | deduplicating a concatenation = deduplicating the front, then the back minus the keys the front already has |
| Rows.DedupPrefix | surechembl_mini_client/surechembl_mini_client.py:426-427 | deduplicating the accumulated frame after each append equals one deduplication of the whole concatenation |
| Rows.DedupSuffix | surechembl_mini_client/surechembl_mini_client.py:145-150 | per-file deduplication before the merge does not change the merged result |
| Rows.ParseChemicals | surechembl_mini_client/surechembl_mini_client.py:75-89 | `parse_chemicals_file`: fails exactly when a column is missing; otherwise the projected rows deduplicated by key |
| Dicts.Put | surechembl_mini_client/surechembl_mini_client.py:115 | dict assignment: the key maps to the new value and every other key keeps its value |
| Dicts.PutShape | surechembl_mini_client/surechembl_mini_client.py:115 | assignment keeps keys unique; an existing key keeps its position; a new key is appended at the end |
| Ftp.Pwd | surechembl_mini_client/surechembl_mini_client.py:96 | `pwd()` inside a directory given by a relative path: the login directory, one `/`, then that path |
| Ftp.Cwd | surechembl_mini_client/surechembl_mini_client.py:407-409 | `cwd` succeeds exactly for a known directory without line breaks; a line break is refused before sending, and an unknown directory is `error_perm` |
| Ftp.List | surechembl_mini_client/surechembl_mini_client.py:391-392 | `cwd` then `nlst`: the directory's listing exactly when `cwd` succeeds, and `cwd`'s error otherwise |
| Ftp.Retrieve | surechembl_mini_client/surechembl_mini_client.py:142 | `RETR`: the file's body exactly when the name has no line break and the file exists; otherwise the line-break error or NotFound naming the path |
| Text.PathSplit | surechembl_mini_client/surechembl_mini_client.py:114 | `os.path.split`: the tail is everything after the last `/` (the whole path when there is none); the head is the path before that `/` with its trailing slashes removed, except that a head made only of slashes keeps them |
| Text.PathSplitJoin | surechembl_mini_client/surechembl_mini_client.py:114 | splitting `d + "/" + f` recovers exactly `d` and `f` |
| Text.RStrip | surechembl_mini_client/surechembl_mini_client.py:114 | `rstrip('\n')`: a prefix of the line, not ending in the character, and only that character was removed |
| Text.LinesConcat | surechembl_mini_client/surechembl_mini_client.py:112 | iterating over a text file yields lines that concatenate back to the whole content |
| Text.LinesAppend | surechembl_mini_client/surechembl_mini_client.py:412-413 | content appended after complete lines adds its own lines after the old ones |
| Text.ParseIntToString | surechembl_mini_client/surechembl_mini_client.py:186 | `int(str(n)) == n` for every integer |
| Text.Pad2Digits | surechembl_mini_client/surechembl_mini_client.py:368 | `str(n).zfill(2)` of a value below 100 is two digits whose value is `n` |
| Text.ParseInt | surechembl_mini_client/surechembl_mini_client.py:186 | `int()` on a string: a value exactly for an optional sign followed by one or more ASCII digits; the value is the decimal value of the digits, negated after `-` |
| Text.ZFillShape | surechembl_mini_client/surechembl_mini_client.py:368 | `zfill(width)`: the length is the larger of the string's and `width`; a leading sign stays first, then zeros, then the rest of the string unchanged |
| Listing.ManifestWf | surechembl_mini_client/surechembl_mini_client.py:111-115 | the manifest dict always has distinct keys |
| Listing.ManifestKeys | surechembl_mini_client/surechembl_mini_client.py:111-115 | a directory is a key of the manifest dict exactly when some kept line (with `chemicals`, without `supp`) has it as its head |
| Listing.ManifestLastWins | surechembl_mini_client/surechembl_mini_client.py:113-115 | a kept line's file is the value of its directory unless a later kept line has the same directory |
| Listing.EntryOfLine | surechembl_mini_client/surechembl_mini_client.py:114 | line `d/f\n` becomes the entry `(d, f)` |
| Listing.TsvFilesLast | surechembl_mini_client/surechembl_mini_client.py:98 | the tsv filter is empty exactly when no listed name ends in `.chemicals.tsv.gz`; otherwise it ends with the last such name |
| Listing.FallbackKeepsLast | surechembl_mini_client/surechembl_mini_client.py:121-124 | the fallback dict is empty or the single entry (current directory, last tsv file) |
| Listing.ManyManifestsFail | surechembl_mini_client/surechembl_mini_client.py:100-103 | two or more `newfiles.txt` names terminate the run with an error naming the current directory |
| Listing.ManifestDecides | surechembl_mini_client/surechembl_mini_client.py:105-118 | with one manifest the result does not depend on the rest of the listing |
| Listing.FallbackShape | surechembl_mini_client/surechembl_mini_client.py:120-128 | with no manifest the result is empty, or holds the last `.chemicals.tsv.gz` name under the current directory |
| Listing.GetTsvDir | surechembl_mini_client/surechembl_mini_client.py:91-128 | the looping `get_tsv_dir` returns exactly `TsvDir` |
| Fetch.GetFrontfileDf | surechembl_mini_client/surechembl_mini_client.py:130-152 | the looping `get_frontfile_df` returns exactly `FrontfileRows`, failing at the first unreadable file |
| Fetch.FrontfileFirstWins | surechembl_mini_client/surechembl_mini_client.py:138-150 | the merged frame is one first-wins deduplication of all raw rows in dict order |
| Fetch.FallbackPathDoubled | surechembl_mini_client/surechembl_mini_client.py:121-139 | as written: without a manifest the dict key is the absolute `pwd()`, and fetching prefixes the frontfile root again, so the partition's file is looked for under the doubled path and fails with NotFound |
| Fetch.FallbackKey | surechembl_mini_client/surechembl_mini_client.py:124 | the evident fix: the key is the partition's path below the frontfile root, and prefixing the root gives the partition back |
| Fetch.CorrectedFallbackFetch | surechembl_mini_client/surechembl_mini_client.py:139 | with that key, fetching reads the tsv file from the partition itself |
| Resolver.SelectMode | surechembl_mini_client/surechembl_mini_client.py:365-399 | all eight combinations of day, month and year: none gives today, year alone gives year mode, month and year give month mode, all three give a date, every other combination is the configuration error |
| Resolver.DayDirInjective | surechembl_mini_client/surechembl_mini_client.py:367-369 | distinct dates with month and day below 100 give distinct partition paths |
| Resolver.TodayDirsAsWritten | surechembl_mini_client/surechembl_mini_client.py:370-375 | as written: today's partition first, then every backlog line unchanged, newline included, in file order |
| Resolver.TodayDirs | surechembl_mini_client/surechembl_mini_client.py:370-375 | the evident fix: today's partition first, then one path per backlog line with its trailing newlines stripped |
| Resolver.TodayList | surechembl_mini_client/surechembl_mini_client.py:370-375 | the appending loop builds exactly `TodayDirsAsWritten` |
| Resolver.YearList | surechembl_mini_client/surechembl_mini_client.py:377-386 | the nested month/day loops build exactly the year listing, and fail on an unlisted month |
| Resolver.AppendDays | surechembl_mini_client/surechembl_mini_client.py:385-386 | the inner loop appends one `month/day` path per listed day, in listing order, after the paths already collected |
| Resolver.MonthDirs | surechembl_mini_client/surechembl_mini_client.py:389-392 | month mode: fails exactly when `cwd` into the month directory fails, with the same error; otherwise one path per listed name, `month directory + "/" + name`, in listing order |
| Resolver.ResolveDirs | surechembl_mini_client/surechembl_mini_client.py:364-399 | the path list of every mode, as `Dirs` defines it: today's partition and the backlog lines as read, the year listing, the month listing, or the single date |
| Resolver.YearDirsCovers | surechembl_mini_client/surechembl_mini_client.py:380-385 | every listed day of every listed month appears in year mode's list |
| Resolver.YearDirsOnly | surechembl_mini_client/surechembl_mini_client.py:380-385 | every path in year mode's list is a listed day of a listed month |
| Resolver.MonthModeExample | surechembl_mini_client/surechembl_mini_client.py:387-392 | March 2019 with days 01, 02, 15 gives the three zero-padded paths in listing order |
| Backlog.BacklogFile.ReadAndRemove | surechembl_mini_client/surechembl_mini_client.py:371-376 | the lines of the backlog file, newlines kept, or none when it is absent; the file is gone afterwards |
| Backlog.BacklogFile.Append | surechembl_mini_client/surechembl_mini_client.py:411-413 | append mode creates the file when needed and adds the text at the end |
| Backlog.AppendThenRead | surechembl_mini_client/surechembl_mini_client.py:372-375 | after writing `dir + '\n'` the file reads back as the old lines plus that one line, and stripping that line gives `dir` |
| Table.ReconcileSpec | surechembl_mini_client/surechembl_mini_client.py:502-518 | either delete statement leaves each key once, keeps every key, keeps storage order; a survivor has the least (`MIN(rowid)`) or greatest (`ctid`) identifier of its key |
| Table.ReconcileIdempotent | surechembl_mini_client/surechembl_mini_client.py:502-518 | running the delete again changes nothing |
| Table.LoadRowsSpec | surechembl_mini_client/surechembl_mini_client.py:494-518 | append plus delete leaves each key once; its keys are the old keys together with the frame's; identifiers stay ordered |
| Table.LoadRowsExistingWin | surechembl_mini_client/surechembl_mini_client.py:511-517 | with `MIN(rowid)`, a key already in the table keeps its stored row |
| Table.LoadRowsIncomingWin | surechembl_mini_client/surechembl_mini_client.py:504-509 | with the ctid statement (psycopg2, MySQLdb), a key in the frame keeps an incoming row |
| Table.LoadRowsTwice | surechembl_mini_client/surechembl_mini_client.py:494-518 | loading the same frame (with distinct keys) a second time leaves the same stored rows; with the `MIN(rowid)` statement the stored entries are identical; with ctid the second copies replace the first, so only the identifiers change |
| Table.DistinctCount | surechembl_mini_client/surechembl_mini_client.py:453-456 | with distinct keys, the row count is the number of keys |
| Table.ChemTable.Append | surechembl_mini_client/surechembl_mini_client.py:494-499 | `to_sql(if_exists='append')` adds the frame's rows at the end with fresh identifiers; with the constraint attached, a repeated key is refused and nothing changes |
| Table.ChemTable.Deduplicate | surechembl_mini_client/surechembl_mini_client.py:502-518 | the table becomes `Reconcile` of the old table, for the driver's statement |
| Table.ChemTable.Load | surechembl_mini_client/surechembl_mini_client.py:459-518 | `dfloader`: the table becomes `LoadRows` of the old table |
| Table.ChemTable.DropPk | surechembl_mini_client/surechembl_mini_client.py:441-445 | the constraint is gone afterwards, whether or not it was there; the rows are untouched |
| Table.ChemTable.AddPk | surechembl_mini_client/surechembl_mini_client.py:450-451 | adding the key succeeds exactly when no constraint is attached and the keys are distinct |
| Frontfile.VisitDirs | surechembl_mini_client/surechembl_mini_client.py:404-427 | the visiting loop, with its early exits, ends exactly as `Visit` defines |
| Frontfile.ReadPartition | surechembl_mini_client/surechembl_mini_client.py:405-424 | one partition: a name with a line break is an uncaught error, an unknown directory is missing, an empty dict is an empty frame, and any other failure of `get_tsv_dir` or `get_frontfile_df` is uncaught; otherwise the merged frame, as `Read` defines |
| Frontfile.VisitMerges | surechembl_mini_client/surechembl_mini_client.py:417-427 | a completed visit holds all partitions' rows deduplicated across partitions, the first partition in visiting order winning |
| Frontfile.VisitHalts | surechembl_mini_client/surechembl_mini_client.py:405-414 | a halted visit stopped at a path that does not exist, after every earlier path was visited |
| Frontfile.VisitCompletes | surechembl_mini_client/surechembl_mini_client.py:405-414 | a visit that runs to the end entered every path |
| Frontfile.WriteRows | surechembl_mini_client/surechembl_mini_client.py:438-456 | count, drop the constraint, `dfloader`, add it back (always succeeding), count again; the final count is the number of distinct keys of the old table and the frame |
| Frontfile.RunDirs | surechembl_mini_client/surechembl_mini_client.py:404-456 | the visit and what follows it: a halted visit appends its path plus a newline to the backlog and changes nothing else; a failure aborts; an empty merge writes nothing; otherwise the table becomes `LoadRows` of the merge with the constraint back, and the counts reported are those of the table |
| Frontfile.LoadFrontfile | surechembl_mini_client/surechembl_mini_client.py:341-456 | bad date arguments abort before anything changes; only today mode drains the backlog, whose lines become paths as read; a missing partition is appended to the backlog and nothing is loaded; an empty merge loads nothing; otherwise the merged rows are loaded and the constraint is back |
| Frontfile.BacklogReplayAsWritten | surechembl_mini_client/surechembl_mini_client.py:372-375 | as written, a backlogged partition comes back as the path plus `'\n'`; once today's partition has been read, the visit ends in the uncaught line-break error at that path |
| Frontfile.BacklogLostAsWritten | surechembl_mini_client/surechembl_mini_client.py:405-414 | as written, that run aborts with the line-break error, the backlog file stays removed and the table is untouched |
| Frontfile.TodayMissingLosesBacklog | surechembl_mini_client/surechembl_mini_client.py:405-414 | as written, a today-mode run whose own partition is missing leaves a backlog of exactly that one partition, whatever the backlog held before, and loads nothing |
| Frontfile.TodayDroppedAsWritten | surechembl_mini_client/surechembl_mini_client.py:405-414 | as written, a backlogged partition that is still missing stops the run after today's partition was read: nothing is loaded, and the backlog afterwards names only the missing path, not today's |
| Frontfile.BacklogReplay | surechembl_mini_client/surechembl_mini_client.py:372-375 | with the newline stripped, the next run visits the backlogged partition right after today's |
| Frontfile.RequeueReadBack | surechembl_mini_client/surechembl_mini_client.py:372-375 | backlog text written one path per line, each with its newline, reads back (stripped) as today's partition followed by exactly those paths |
| Frontfile.CorrectedRequeue | surechembl_mini_client/surechembl_mini_client.py:405-414 | the evident fix: a stopped run has loaded nothing, so it writes its whole list back; the missing partition is on it, and the next today-mode run visits its own partition and then every path of the stopped run, in order |
| Backfile.YearNameInRange | surechembl_mini_client/surechembl_mini_client.py:186 | a directory named `Y` or `Y_...` is in range exactly when `start_year <= Y <= end_year` |
| Backfile.OutOfRangeYearSkipped | surechembl_mini_client/surechembl_mini_client.py:186-189 | a year outside the range leaves the table as it is |
| Backfile.InYearRange | surechembl_mini_client/surechembl_mini_client.py:186 | the year filter: defined exactly when the text before the first `_` parses as an integer, and then true exactly when that year lies in `[start_year, end_year]` |
| Backfile.YearPath | surechembl_mini_client/surechembl_mini_client.py:197 | `os.path.join(backfile_dir, year)`: an absolute name replaces the root; otherwise the root, a `/`, then the name |
| Backfile.BackfileFilesMembers | surechembl_mini_client/surechembl_mini_client.py:203-206 | the name filter keeps exactly the names ending in `.tsv.gz` |
| Backfile.YearFrameReadsOnlyTsv | surechembl_mini_client/surechembl_mini_client.py:203-206 | a year's frame comes from its `.tsv.gz` names alone |
| Backfile.YearsKeepTable | surechembl_mini_client/surechembl_mini_client.py:183-227 | the year loop keeps identifiers ordered and never loses a key; once a year has loaded, every key is held once |
| Backfile.ReadYear | surechembl_mini_client/surechembl_mini_client.py:203-218 | the inner file loop builds exactly `YearFrame` |
| Backfile.LoadYear | surechembl_mini_client/surechembl_mini_client.py:183-227 | one year: a bad name, an unlisted directory or an unreadable file is an error and the table is unchanged; otherwise the table is `YearStep` of the old one |
| Backfile.LoadYears | surechembl_mini_client/surechembl_mini_client.py:183-228 | the outer loop ends in the state `Years` defines, with the first error |
| Backfile.LoadBackfile | surechembl_mini_client/surechembl_mini_client.py:154-234 | a missing back-file root changes nothing; the constraint is dropped once; an error leaves loaded years in place and the constraint dropped; otherwise the constraint is back exactly when keys are distinct |

## Left out

- FTP transport (connection, login, NOOP, `quit`, reconnecting once per back-file year): the server is the value `Ftp.Remote`, and a listing or a file cannot change during a run.
- Path normalisation by the server (`..`, double slashes, absolute paths): `CWD` accepts exactly the keys of `Remote.dirs`.
- gzip decompression and pandas CSV parsing: a gzip file is its decoded `Tsv`; a file neither reader accepts is `Corrupt`. Empty cells are the empty string, not NaN.
- Text.ParseInt: `int()` also accepts surrounding whitespace, underscores between digits and non-ASCII Unicode decimal digits; the model accepts only an optional sign followed by ASCII digits.
- Local temporary files (`newfiles.txt`, downloaded archives) and their removal.
- SQLAlchemy: engine creation, dialect detection (the `Driver` is a parameter), `has_table`, table creation, the COPY callback `psql_insert_copy` and chunked inserts. Rows are inserted in frame order as one batch.
- Table.ChemTable: the row identifier is a counter. SQLite's `rowid` (max + 1) and PostgreSQL's physical `ctid` are both modelled as increasing in insertion order. The existence check of `count_rows` is not modelled. The `MIN(rowid)` statement also runs for cx_Oracle, whose `ROWID` is a physical address and not ordered by insertion; the model orders it by insertion too.
- Table.LoadRowsIncomingWin: MySQL has no `ctid`, so the statement issued for MySQLdb fails there. The model gives MySQLdb the same statement semantics as psycopg2.
- `load_backfile2`: a multiprocessing variant that is not part of this model.
- Logging, `AppLogger`, `argparse` and `main`; the module-level `tbl_name` and `logger` are fixed by the model.
- `datetime.now()`: the date is the parameter `today`.
- `surechembl_mini_client`: the dispatcher that chooses between front file and back file is not modelled.
- Table.ChemTable.DropPk: `DROP CONSTRAINT "<table>_pkey"` (lines 178 and 443) names PostgreSQL's default constraint. On SQLite, on MySQL (whose key is named `PRIMARY`) and on Oracle the drop fails, the error is swallowed and the key stays attached. The model gives every driver PostgreSQL's behaviour, where the key is gone afterwards.
- Table.ChemTable.AddPk: SQLite has no `ALTER TABLE ... ADD PRIMARY KEY`, so there the statement raises; the model gives every driver PostgreSQL's behaviour.
- Ftp.FileBody: `Plain` content is the text after text-mode `open` has translated `\r\n` and `\r` to `\n`; the bytes before that translation are not modelled.
- Ftp.Cwd: the refusal of a line break is the behaviour of recent `ftplib` versions; older versions sent the command, which is not modelled.
- Backfile.LoadBackfile: `start_year <= end_year` is not checked by the source and not required here; an empty range loads nothing.

## Findings

| source | as written | input that shows it | evidently intended | confidence | as-written member | corrected member |
|---|---|---|---|---|---|---|
| surechembl_mini_client/surechembl_mini_client.py:372-375, 412-413 | a missing partition is written to the backlog as `dir + '\n'`. The next today-mode run appends each backlog line with its newline. `ftp.cwd` raises `ValueError` for the line break before sending anything. `load_frontfile` catches only `error_perm`, so the run ends in that error, and the backlog file, already removed, is lost. | a missing `data/external/frontfile/2019/03/01`, then a today-mode run whose own partition exists | strip the newline, as `get_tsv_dir` does for manifest lines, so the next run visits the partition | medium, not executed | Frontfile.BacklogLostAsWritten | Frontfile.BacklogReplay |
| surechembl_mini_client/surechembl_mini_client.py:370-376, 405-414 | today mode removes the backlog file once it has read it. When today's own partition is missing, the visit stops at the first path and only that path is written back, so every backlogged partition is lost. | a backlog naming `data/external/frontfile/2019/03/01`, then a today-mode run before today's partition exists | write the whole list back to the backlog, since nothing was loaded, so that a stopped run is retried in full | medium, not executed | Frontfile.TodayMissingLosesBacklog | Frontfile.CorrectedRequeue |
| surechembl_mini_client/surechembl_mini_client.py:374-375, 405-414 | when a backlogged partition is still missing, the visit stops there after today's partition has been read, and `sys.exit()` ends the run before anything is loaded. Only the missing path is written back, so today's rows are lost and no later today-mode run visits today's date. | a backlog file whose only line `data/external/frontfile/2019/03/01` has no trailing newline (so `ftp.cwd` accepts it), that partition still missing, and today's partition present | write the whole list back, today's partition included | medium, not executed | Frontfile.TodayDroppedAsWritten | Frontfile.CorrectedRequeue |
| surechembl_mini_client/surechembl_mini_client.py:96, 124, 139 | without a manifest, `get_tsv_dir` keys its dict by the absolute `ftp.pwd()`. `get_frontfile_df` puts `data/external/frontfile` in front of every key, so it changes into a doubled path, which fails with `error_perm`. | login directory `/` and a partition `data/external/frontfile/2019/03/01` that lists only `x.chemicals.tsv.gz` | key the dict by the partition's path below the frontfile root | medium, not executed | Fetch.FallbackPathDoubled | Fetch.CorrectedFallbackFetch |

`Frontfile.LoadFrontfile` follows the code as written in all four cases. The corrected members
state what the evident fix guarantees.
