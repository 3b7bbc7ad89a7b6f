# A model of RMariaDB's driver core

RMariaDB connects R to MySQL and MariaDB. This project models the parts of it that
hold algorithms and state, and proves what they promise:

- **The result pipeline.** A query with a table of parameters is executed lazily, once
  per parameter row, and its rows are handed out in fetches of any size. `Stream` holds
  the simple specification (the results of all parameter rows, one after the other), a
  machine that pulls single rows, and the theorems that connect the two. `Binding`,
  `ResultRow`, `DataFrames` and `Client.MariaResultPrep` are the driver's own objects,
  with its flags, cursors and reused buffers; their methods refine that machine. `Usage`
  is what a caller then gets from binding, fetching in chunks and fetching until completion.
- **Dates and times.** `Calendar` walks the proleptic Gregorian calendar (section 3.2.1
  of ISO 8601:2004) one day at a time from 1970-01-01. The driver's encoder
  (`Binding.MariaBinding.SetDateBuffer`, `SetTimeBuffer`) and its decoder
  (`CivilDays.DaysFromCivil`, `Clock.TimeValue`) come from different sources; both are
  proved against the walk, and so against each other, on range-limited 32-bit integers
  and with C++'s truncating division. `RoundTrips` follows values of every type from a
  parameter to the record that is sent, and from there back to R.
- **Connection, result and transaction life cycle.** `Lifecycle` is a state machine
  whose events are the creation (successful or not), use and destruction of results and
  the ends of transactions. The theorems are about every run of it. The classes in
  `Client` are `DbConnection`, `DbResult` and `MariaResultPrep`; each operation on a
  connection or a result is proved to make exactly a step of that machine.
- **Writing tables.** `WriteTable` is the transaction bracket of `dbWriteTable` and
  `dbAppendTable`, built on the classes in `Client`.
- **Printer and parser pairs.** `Identifier` is backtick quoting against the unquoting
  regular expression, `LoadData` the escaped text file against the rules of LOAD DATA.

The server is an arbitrary deterministic function from the log of work visible to it and
a statement to a reply, which may fail with work half done, or break off while its rows
are transferred. Work is durable once committed and pending before. The client library is
modelled by what it does to the driver's buffers, so a value that the driver would read
through a dangling or null pointer shows up as `Wild` and is proved never to be sent.

## Where the code does less than one might expect

Each of these has a lemma or contract that gives the exact condition.

- `complete()` is true right after binding parameters to a query, before any row has been
  fetched (`AfterBind`, in the contract of `Client.MariaResultPrep.Bind`), so that the
  documented loop "while not complete, fetch" delivers nothing then; on a query that is not
  complete it delivers everything that is left (`Usage.FetchUntilComplete`). After a fetch that asked for rows
  `complete()` is true exactly if some fetch has asked for more rows than were left, not as
  soon as the last row is out (`Stream.CompleteOnceSeen`).
- A fetch that fails delivers nothing, but the rows it had read stay in the row counter
  (`Stream.CounterOverAllUses`; `Stream.RowLostToFailure` is a run).
- A parameterised query whose columns become known only when it is executed (a procedure
  call) is executed for all parameter rows while binding. Only the rows of the last
  execution can be read (`Stream.LateMetadataKeepsLast`), and none of them arrives with its
  values: the column types were cached before they were known, so every frame has no
  columns. What arrives is what was sent exactly if no rows were sent
  (`Usage.BindLateAndFetch`, `Usage.LateDelivers`; `Usage.LateRowIsLost` is an input).
- A new parameter table replaces the old one before it is checked. If it is refused, the
  rest of the walk would read from it all the same, so that fetching is sound exactly if
  the row counters say that no row is left (`Binding.MariaBinding.InitBinding`; `Binding.RefusedRebind` is a
  run).
- `bind` does not check that its result is current. It is undefined exactly on a prepared
  statement that is not (`Lifecycle.HandlesInEveryRun`, `Lifecycle.CancelledBind`).
- In all states of a run no uncommitted work is forgotten exactly if no immediate query
  fails in it after doing some work (`Lifecycle.NoForgottenWork`, `Lifecycle.StepTidy`,
  `Lifecycle.ResidueIsForgotten`).
- A statement whose result is still open when a transaction begins is rolled back with the
  transaction (`Lifecycle.StatementBeforeBegin`). A rollback is sure to restore what was
  visible at begin exactly if no prepared statement is open then
  (`Lifecycle.RollbackOfCaller`).
- `dbAppendTable` with LOAD DATA begins a transaction of its own, and so always fails
  within one of the caller (`WriteTable.AppendTable`).
- Quoting an `Id` and unquoting it gives the name back exactly if, without a leading `def`,
  it has at most two components and none is empty (`Identifier.UnquoteQuoteId`).

## Model

| member | source | states |
|---|---|---|
| Stream.PullShrinks | src/MariaResultPrep.cpp:120-131 | `step` terminates: it either executes further parameter rows, of which there are finitely many, or shortens the open result |
| Stream.PullDrains | src/MariaResultPrep.cpp:120-152 | a step delivers the first row of the specified stream and leaves the rest of it; it reports the end exactly if the stream is empty, and an error exactly if an error comes before any row |
| Stream.TakeIsPrefix | src/MariaResultPrep.cpp:154-209 | a fetch of n delivers the next n rows of the stream; with fewer than n left it delivers all and sees the end, or fails if an error comes first; -1 delivers all |
| Stream.TakeLeaves | src/MariaResultPrep.cpp:154-209 | what a fetch delivers and what it leaves make up the stream; it leaves less, and nothing at all if it saw the end |
| Stream.EndIsExhausted | src/MariaResultPrep.cpp:133-152 | a fetch that asks for rows leaves the result complete exactly if it ran into the end |
| Stream.Chunking | src/MariaResultPrep.cpp:88-209 | for every server, parameter table and sequence of fetch sizes, the fetched rows put together are a prefix of the concatenated results of all parameter rows, as long as was asked for, and all of them (with the same work done) once a fetch asked for more than were left; it fails exactly if an error comes before that |
| Stream.CompleteOnceSeen | src/MariaResultPrep.cpp:227-233 | over every sequence of fetches, complete means that more rows were asked for than there were |
| Stream.CounterCountsDelivered | src/MariaResultPrep.cpp:219-225 | a fetch counts exactly the rows it delivers, unless it fails after reading some |
| Stream.CounterOverAllUses | src/MariaResultPrep.cpp:128-131 | over every sequence of fetches and re-binds the row counter is at least the number of rows ever delivered, and equal to it exactly if every failing fetch met the error before any row |
| Stream.RowLostToFailure | src/MariaResultPrep.cpp:128-145 | a run in which a row is counted but not delivered: the transfer breaks off after it |
| Stream.PullIsLazy | src/MariaResultPrep.cpp:120-131 | a step executes the first k outstanding parameter rows in order, and the k-th only because the stream without it has no row |
| Stream.PullIgnoresRest | src/MariaResultPrep.cpp:120-131 | parameter rows that a step does not execute have no influence on it |
| Stream.PullLog | src/MariaResultPrep.cpp:120-131 | the work of a step is that of the parameter rows it executed, each once, and later ones continue from there |
| Stream.TakeIsLazy | src/MariaResultPrep.cpp:154-209 | a fetch executes the first k outstanding parameter rows, in order and once each, and the k-th of them only because all rows before it were too few |
| Stream.LateMetadataKeepsLast | src/MariaResultPrep.cpp:79-100 | binding a query whose metadata appear at execution executes everything, but only the rows of the last execution can be read afterwards |
| Usage.FetchChunk | R/dbFetch_MariaDBResult.R:41-52 | the frame of one fetch has exactly the rows of the chunk that it takes off the stream, and the query is complete exactly if the chunk ran into the end |
| Usage.FetchSizes | src/MariaResultPrep.cpp:154-209 | the frames of any sequence of fetches together have the rows of the chunks, up to the first failure |
| Usage.FetchLeft | src/MariaResultPrep.cpp:154-209 | however the rows that are left are cut into fetches, they arrive decoded and in order, and all of them once a fetch asks for more than there are; it fails exactly if an error comes before that |
| Usage.BindAndFetch | src/MariaResultPrep.cpp:88-209 | binding a parameter table and fetching in any sizes gives, as frames, the first rows of the concatenated results of the encoded parameter rows, and all of them once a fetch asks for more; the row counter then is the number of rows of all fetches, those before binding included |
| Usage.FetchMore | README.md:36-39 | one round of the documented loop delivers some of the rows left and comes closer to the end, or completes |
| Usage.FetchUntilComplete | README.md:36-39 | the documented loop terminates and delivers all rows left if the query is not complete when it starts, and nothing if it is, as right after binding |
| Usage.ConcatenatedReceivable | src/MariaResultPrep.cpp:243-256 | the rows of all parameter rows have the columns that the statement announces |
| Usage.BindLate | src/MariaResultPrep.cpp:79-100 | binding a query without metadata executes all parameter rows and leaves the rows of the last execution, without an error |
| Usage.BindLateAndFetch | src/MariaResultPrep.cpp:52-56 | no frame of such a query ever has a column, and what arrives is what was sent exactly if no rows were sent (or there is no column, and only the last execution has rows) |
| Usage.LateDelivers | src/MariaResultPrep.cpp:79-100 | the same equivalence for what the server sends and what remains readable |
| Usage.LateRowIsLost | src/MariaResultPrep.cpp:162-193 | an input: one parameter row, one row with one string arrives as one row without columns |
| Binding.MariaBinding.Setup | src/MariaBinding.cpp:10-18 | the per-parameter vectors get one entry each; a repeated setup for the same statement changes nothing |
| Binding.MariaBinding.InitBinding | src/MariaBinding.cpp:20-72 | accepts exactly tables of supported columns, one per parameter, and then the rows to send are the encoded rows of the table; a refusal for the number of columns leaves everything but the table, one for a column type has restarted the walk, and after every refusal the walk is sound exactly if no row seems left to be sent |
| Binding.RefusedRebind | src/MariaBinding.cpp:20-29 | a run in which a refused table leaves the walk unsound |
| Binding.MariaBinding.BindNextRow | src/MariaBinding.cpp:74-171 | points the library at exactly the next row: every value of the right row and type, NULL exactly where it is missing (NA, and in dates and times NaN) although the buffers keep older pointers; every read is within the columns |
| Binding.EncodedCells | src/MariaBinding.cpp:74-171 | the k-th row to be sent has, for each parameter, the encoding of the k-th element of its column by the type of that column |
| Binding.MariaBinding.BufferSize | src/MariaBinding.cpp:42-70 | the length given for each type: that of a time record for dates and times, 1, 4 and 8 bytes for logical values, ints and doubles, none yet for the others |
| Binding.MariaBinding.BindCell | src/MariaBinding.cpp:79-165 | one parameter: what the library will read is the encoding of the element, and no other parameter is touched |
| Binding.MariaBinding.BindPlain | src/MariaBinding.cpp:84-104 | logical values and numbers: NA is sent as NULL, and a double NaN as itself |
| Binding.MariaBinding.BindBytes | src/MariaBinding.cpp:105-125 | strings and blobs: the whole value is sent, by its own length |
| Binding.MariaBinding.BindTimed | src/MariaBinding.cpp:126-155 | DATE, DATETIME and TIME: the reused record holds the encoding of the value and nothing of an earlier one |
| Binding.MariaBinding.SetDateBuffer | src/MariaBinding.cpp:185-205 | for every int day up to 2^31 - 1 - 719468, including those before 1970, the record holds the date that the day-by-day walk reaches; no 32-bit step overflows and no unsigned difference goes below zero |
| Binding.MariaBinding.CivilFromDays | src/MariaBinding.cpp:187-198 | the computation on 32-bit integers gives the date that the walk reaches |
| Binding.MariaBinding.EraOfDay | src/MariaBinding.cpp:187-190 | truncating division splits every such day, negative ones included, into an era and a day of it in [0, 146096] |
| Binding.MariaBinding.YearOfDay | src/MariaBinding.cpp:191-194 | the year of the era and the day of that year lie in the ranges the comments give, and add up to the day of the era |
| Binding.MariaBinding.MonthOfDay | src/MariaBinding.cpp:195-197 | month and day lie in the ranges the comments give and determine the day of the year |
| Binding.MariaBinding.SetTimeBuffer | src/MariaBinding.cpp:215-234 | splitting seconds by repeated truncation gives the quotients and remainders of the whole microseconds, with the sign |
| Client.DbResult.ValidateParams | src/DbResult.cpp:76-88 | passes exactly tables whose columns have equal lengths |
| ResultRow.MariaRow.Setup | src/MariaRow.cpp:12-83 | string and blob columns offer no buffer, the others one of their size, and all buffers are zero |
| ResultRow.MariaRow.Receive | src/MariaRow.cpp:72-87 | when the library has written a row within the bound lengths, the upper bytes of a BIT(1) buffer are still zero and string columns still offer no buffer |
| ResultRow.MariaRow.SetListValue | src/MariaRow.cpp:92-214 | the delivered element is the decoded cell of the current row, NA exactly for NULL, whatever earlier rows left in the buffers |
| ResultRow.MariaRow.FetchBuffer | src/MariaRow.cpp:216-236 | a string or blob is fetched whole, and its binding is taken back before the next row |
| DataFrames.DfCreate | src/MariaUtils.cpp:48-71 | one column per type, all of the same length |
| DataFrames.CellsShown | src/MariaResultPrep.cpp:190-193 | column j of a data frame that shows rows holds the j-th value of each of them, in order |
| DataFrames.DfResize | src/MariaUtils.cpp:4-17 | rows already written survive, new ones are NA |
| Client.DoubleOnce | src/MariaResultPrep.cpp:185-188 | doubling a full buffer keeps the capacity at 100 times a power of two, within an int up to 100 * 2^24, and the rows copied by all doublings below the capacity |
| Client.MaxRowsIsCapacity | src/MariaResultPrep.cpp:168-188 | 100 doubled 24 times is the largest capacity: it fits an int and its double does not |
| Client.MariaResultPrep.SendQuery | src/MariaResultPrep.cpp:32-57 | fails, falls back or succeeds as planned for every server; on success a statement without parameters has one open execution, one with parameters has none |
| Client.MariaResultPrep.CacheMetadata | src/MariaResultPrep.cpp:52-56 | the cached types are those of the metadata, and the row buffers are set up for them |
| Client.MariaResultPrep.Execute | src/MariaResultPrep.cpp:73-86 | sends what the bindings hold, opens the result, looks again for metadata of a query, and counts affected rows only without a result |
| Client.MariaResultPrep.FetchRow | src/MariaResultPrep.cpp:133-152 | reads one row of the open result or finds its end, as far as pulling a row goes without executing |
| Client.MariaResultPrep.ExecuteNext | src/MariaResultPrep.cpp:121-126 | executes the next parameter row only when the open result is at its end, and gets closer to the end of the table |
| Client.MariaResultPrep.Step | src/MariaResultPrep.cpp:120-131 | is one pull from the stream that flags, cursors and bindings encode; a row is counted exactly if one arrives |
| Client.MariaResultPrep.FillRow | src/MariaResultPrep.cpp:190-193 | the current row, decoded, becomes row i of the data frame, and the earlier rows stay |
| Client.MariaResultPrep.FetchRound | src/MariaResultPrep.cpp:176-195 | a round pulls the next row and stores it after the others, doubling a full data frame first |
| Client.MariaResultPrep.FetchLoop | src/MariaResultPrep.cpp:168-199 | the data frame starts with exactly the rows of the chunk, in order; writes stay within its capacity, which without a limit is 100 * 2^k |
| Client.MariaResultPrep.FetchRows | src/MariaResultPrep.cpp:174-208 | after trimming, the data frame has exactly the rows of the chunk; all resizing together copies at most three times as many rows |
| Client.MariaResultPrep.Fetch | src/MariaResultPrep.cpp:154-209 | refuses unbound queries, gives no rows for statements, changes nothing for n = 0, and otherwise takes exactly the specified chunk off the stream; complete afterwards exactly if it saw the end |
| Client.MariaResultPrep.ExecuteRow | src/MariaResultPrep.cpp:97-99 | an execution takes the first of the rows still to be executed, and adds to the tally exactly what the server reports |
| Client.MariaResultPrep.ExecuteTable | src/MariaResultPrep.cpp:97-99 | executes all parameter rows in order up to the first failure; the affected rows are the sum over these executions against the evolving server |
| Client.MariaResultPrep.Bind | src/MariaResultPrep.cpp:88-103 | after binding, a query's stream is the concatenation over exactly the encoded table, with nothing executed; a statement has been executed for every row, is complete, and reports the rows affected by all executions; a refused table executes nothing |
| Client.MariaResultPrep.RowsAffected | src/MariaResultPrep.cpp:211-217 | NA exactly before binding, and the count itself while an int can hold it |
| Client.MariaResultPrep.RowsFetched | src/MariaResultPrep.cpp:219-225 | 0 before binding, and the count itself while an int can hold it |
| Client.MariaResultPrep.Complete | src/MariaResultPrep.cpp:227-233 | nothing is complete before binding, and every bound statement is |
| Client.MariaResultPrep.Close | src/MariaResultPrep.cpp:59-71 | gives up both handles and commits, unless the connection is closed or in a transaction |
| Lifecycle.StepOwned | src/DbConnection.cpp:256-283 | every step keeps: the current result is null or live with open handles, and no other result has an open handle |
| Lifecycle.RunOwned | src/DbResult.cpp:8-22 | the same for every run, with results destroyed in any order |
| Lifecycle.HandlesInEveryRun | src/DbResult.cpp:42-53 | in every reachable state at most one statement handle is open, `fetch` past its check finds its handle open, and `bind` is defined exactly on the current result and on immediate ones |
| Lifecycle.CancelledBind | src/DbResult.cpp:42-53 | after a second query the first result can be fetched from safely (an error), but not bound |
| Lifecycle.PrepFails | src/MariaResult.cpp:16-24 | a prepared statement that cannot be used is destroyed and autocommits before the constructor goes on or throws |
| Lifecycle.CreateResults | src/MariaResult.cpp:8-36 | a constructor closes the previous current result, and adds its own exactly if it does not throw |
| Lifecycle.StepConserves | src/DbConnection.cpp:289-345 | no event loses or doubles work: what is visible grows by exactly the work done, except that rollback and disconnecting drop exactly the pending work; durable work is never lost |
| Lifecycle.StepIsolated | src/DbConnection.cpp:308-345 | within a transaction a step leaves the durable state alone and adds its work to the pending work |
| Lifecycle.RunIsolated | src/MariaResultPrep.cpp:59-71 | the same for every run between begin and the end of the transaction, whatever is created, bound, cancelled, fails or is destroyed |
| Lifecycle.Transaction | src/DbConnection.cpp:308-335 | commit makes durable exactly what was visible at begin and the work since; rollback leaves the durable state of begin |
| Lifecycle.RestoresWithoutPending | src/DbConnection.cpp:308-335 | every transaction from a state restores what was visible when it is rolled back, if and only if the server holds nothing uncommitted |
| Lifecycle.RollbackOfCaller | src/DbConnection.cpp:256-335 | for a caller: in every state reached without a failing immediate query that did work, open and outside a transaction, rolling back restores what was visible at begin, whatever the transaction does and also after one more fetch, if and only if no prepared statement is open |
| Lifecycle.FetchBeforeBegin | src/DbResult.cpp:47-53 | with one open, a fetch that does work just before begin is undone by the rollback |
| Lifecycle.StatementBeforeBegin | src/DbConnection.cpp:308-315 | a run in which rollback takes back a statement executed before begin |
| Lifecycle.StepTidy | src/DbConnection.cpp:341-345 | uncommitted work outside a transaction always belongs to a current prepared statement; a step keeps this if and only if it is not an immediate query that fails after doing work |
| Lifecycle.RunTidy | src/MariaResult.cpp:15-35 | the same for every run, including constructor failures and fallbacks to immediate execution |
| Lifecycle.ForgetsOnlyResidue | src/MariaResult.cpp:15-35 | from every tidy state: no state of a run is open and idle outside a transaction with uncommitted work, if and only if no such failure occurs in the run |
| Lifecycle.NoForgottenWork | src/DbConnection.cpp:256-279 | the same for every run of a new connection, in both directions |
| Lifecycle.ResidueIsForgotten | src/DbConnection.cpp:289-303 | a run with such a failure, after which the work stays uncommitted |
| Client.DbConnection.constructor | src/DbConnection.cpp:5-6 | a new connection has no current result and is outside a transaction (it is modelled from the moment it is connected) |
| Client.DbConnection.Autocommit | src/DbConnection.cpp:341-345 | commits exactly if the connection is open and not in a transaction |
| Client.DbConnection.SetCurrentResult | src/DbConnection.cpp:256-269 | cancels the previous result, which is closed, unless it is the same |
| Client.DbConnection.ResetCurrentResult | src/DbConnection.cpp:271-279 | takes a result off the connection and closes it, only if it is current |
| Client.DbConnection.Exec | src/DbConnection.cpp:289-306 | the work of an immediate query is committed exactly if it succeeds outside a transaction |
| Client.DbConnection.BeginTransaction | src/DbConnection.cpp:308-315 | succeeds exactly outside a transaction on an open connection, and changes nothing else than the flag |
| Client.DbConnection.Commit | src/DbConnection.cpp:317-325 | succeeds exactly within a transaction on an open connection; keeps the results and their handles |
| Client.DbConnection.Rollback | src/DbConnection.cpp:327-335 | succeeds exactly within a transaction on an open connection; keeps the results and their handles |
| Client.DbConnection.Disconnect | src/DbConnection.cpp:172-191 | drops uncommitted work; results stay as they are |
| Client.DbResult.constructor | src/DbResult.cpp:8-14 | a result without implementation; registering it is part of `Client.DbResult.Construct` |
| Client.DbResult.SwapImpl | src/MariaResult.cpp:33-35 | a finished result goes on record with what it owns, next to the others |
| Client.DbResult.RunPrepared | src/MariaResult.cpp:16-24 | the prepared-statement attempt, with the clean-up by destructors if it throws |
| Client.DbResult.RunSimple | src/MariaResult.cpp:27-31 | immediate execution; if it throws, the connection is left without a current result |
| Client.DbResult.RunQuery | src/MariaResult.cpp:15-35 | tries a prepared statement unless told not to, falls back exactly for unsupported statements, and does to connection and server what the life cycle says for every outcome |
| Client.DbResult.Construct | src/MariaResult.cpp:8-36 | constructing a result is exactly the creation step of the life cycle for what the server answers, and keeps the connection's ownership invariant; on a throw no current result is left |
| Client.DbResult.CreateAndSendQuery | src/result.cpp:6-16 | the same from R, with nothing done on a closed connection |
| Client.DbResult.Bind | src/DbResult.cpp:42-45 | refuses columns of different lengths without any effect, and otherwise is a bind step of the life cycle and the bind of the statement |
| Client.DbResult.Fetch | src/DbResult.cpp:47-53 | fails without effect exactly if the result is not current, otherwise finds its handle open and delivers the next chunk |
| Client.DbResult.Close | src/DbResult.cpp:67-72 | closing is the closing of the life cycle; nothing to do without an implementation |
| Client.DbResult.Release | src/result.cpp:19-22 | destroying a result is the life cycle's step, at any time, current or not |
| Client.DbResult.Dispose | src/DbResult.cpp:16-22 | the destructor takes the result off the connection only if it is current, and closing twice is harmless |
| Conversation.SendByReply | src/MariaResultPrep.cpp:32-57 | what sending comes to, from the server's answers alone: statements with parameters execute nothing yet, those without execute once, and success needs buffers for the columns known by then |
| Conversation.CreationByReply | src/MariaResult.cpp:8-36 | a constructor succeeds exactly if sending does, adds exactly its work, and leaves an open handle exactly for a prepared statement |
| WriteTable.ExecutedByReply | src/MariaResultPrep.cpp:211-217 | what executing a statement reports, from the server's answers alone: the count of the server, 0 for a query or immediate execution, and an error or NA otherwise |
| WriteTable.CountArrives | R/table.R:83-91 | the first cell of a count is the number that the server sent, as an int or as eight bytes |
| WriteTable.LoadedByCounts | R/table.R:82-92 | the rows added are those the server reports, or else the difference of the counts after and before, and nothing is loaded without the first count |
| WriteTable.ExistingRefused | R/dbWriteTable_MariaDBConnection_character_data.frame.R:51-58 | an existing table without overwrite or append fails, with nothing sent but the probe |
| WriteTable.ExistingAppended | R/dbWriteTable_MariaDBConnection_character_data.frame.R:51-119 | appending to an existing table sends neither DROP nor CREATE; rows are loaded after the probe |
| WriteTable.MissingCreated | R/dbWriteTable_MariaDBConnection_character_data.frame.R:59-119 | a missing or temporary table that is not to be overwritten is created once, before rows are loaded |
| WriteTable.OverwrittenRecreated | R/dbWriteTable_MariaDBConnection_character_data.frame.R:63-119 | with overwrite the table is dropped and then created, found or not, before rows are loaded |
| WriteTable.Send | R/dbSendQuery_MariaDBConnection_character.R:3-7 | sending a statement adds exactly its work, uncommitted within a transaction, loses nothing committed, and fails exactly if the server makes it fail |
| WriteTable.DbExecute | R/dbGetRowsAffected_MariaDBResult.R:3-5 | executing a statement and clearing its result leaves no current result, and reports the rows the server counted, NA if it waits for parameters; outside a transaction what succeeds is committed |
| WriteTable.DbGetQuery | R/dbFetch_MariaDBResult.R:41-52 | querying, fetching all and clearing gives all rows of the server's reply, and leaves no current result |
| WriteTable.LoadFile | R/table.R:82-92 | loads the file, and counts rows before and after if the server reports none |
| WriteTable.AppendTable | R/table.R:76-108 | safe (the default): success exactly if at least as many rows were added as sent, and then the work done is durable; a partial load is rolled back, leaving nothing; within a transaction of the caller it fails and changes nothing; unsafe: the file is loaded and nothing else; the transaction flag is as found |
| WriteTable.EndTransaction | R/table.R:77-99 | commit on success makes everything visible durable, the exit handler otherwise restores the durable state |
| WriteTable.ProbeAndDrop | R/dbWriteTable_MariaDBConnection_character_data.frame.R:51-65 | refuses an existing table unless told to overwrite or append, and says whether the table is to be created |
| WriteTable.CreateAndFill | R/dbWriteTable_MariaDBConnection_character_data.frame.R:51-119 | the calls between begin and commit do to the server exactly what the composed specification says, uncommitted |
| WriteTable.WriteTable | R/dbWriteTable_MariaDBConnection_character_data.frame.R:35-127 | on every exit the transaction flag is as found; within a transaction of the caller only uncommitted work is added; its own transaction makes all of its work durable or none |
| WriteTable.AllRowsLoaded | R/dbWriteTable_MariaDBConnection_character_data.frame.R:51-118 | rows come last: all work of loading follows that of dropping and creating the table, so that none of the rows is committed by a server that commits then; success means that loading was the last thing done and, with a transaction of its own, that it added at least as many rows as were sent |
| Calendar.NextDayNumber | src/MariaUtils.cpp:73-81 | the closed form grows by one from each valid day to the next one of the calendar |
| Calendar.DayNumberIncreases | src/MariaUtils.cpp:73-81 | the closed form is strictly increasing in lexicographic date order |
| Calendar.DayNumberInjective | src/MariaUtils.cpp:73-81 | different dates have different day numbers |
| Calendar.DateOfDayNumber | src/MariaUtils.cpp:73-81 | n steps of the calendar from 1970-01-01, in either direction, reach a valid date with day number n |
| Calendar.WalkReaches | src/MariaUtils.cpp:73-81 | every valid date is reached by as many steps as its day number says |
| CivilDays.DaysFromCivil | src/MariaUtils.cpp:74-81 | on 32-bit integers with truncating division no step overflows or goes below zero, for negative years and zero months and days too |
| CivilDays.EraForm | src/MariaUtils.cpp:76-80 | counting in eras of 400 years is the closed form of the calendar |
| CivilDays.DaysFromCivilIsWalk | src/MariaUtils.cpp:74-81 | the decoder agrees with the day-by-day walk on every calendar date |
| CivilDays.YearOfEra | src/MariaBinding.cpp:191-192 | the year-of-era formula lies in [0, 399] and finds the year that contains the day |
| CivilDays.MonthAndDay | src/MariaBinding.cpp:195-198 | the month and day formulas invert the days before a month, and give 29 February only in a leap year |
| CivilDays.CivilOfDay | src/MariaBinding.cpp:187-200 | the encoder's whole computation, in the ranges its comments give, yields a valid date, the one the walk reaches |
| RoundTrips.NullOnlyForMissing | src/MariaBinding.cpp:79-165 | NULL is sent exactly for NA, and for NaN in dates and times; logical values, numbers, text and blobs are sent as they are, a double NaN among them |
| RoundTrips.TimeArrives | src/MariaBinding.cpp:144-154 | every TIME is sent without a date, with the sign flag exactly for negative durations and a regular clock, and is received as the duration truncated toward zero to a microsecond |
| RoundTrips.DateArrives | src/MariaBinding.cpp:131-134 | every DATE is sent as the calendar date of its day, without a time, and is received as the whole day number |
| RoundTrips.DateTimeSent | src/MariaBinding.cpp:135-139 | every DATETIME is sent as the calendar date of its day with a clock before midnight and no sign |
| RoundTrips.DateTimeArrives | src/MariaRow.cpp:143-157 | it is received rounded down to a microsecond |
| ResultRow.IntArrives | src/MariaRow.cpp:104-106 | four bytes, least significant first, are received as the int they encode, for every int |
| ResultRow.BytesArrive | src/MariaRow.cpp:96-141 | BIT(1) is TRUE exactly for the byte 1; text, blobs, integer64 and doubles keep their bytes; NULL is NA in every column |
| ResultRow.LittleEndianBytes | src/MariaRow.cpp:108-110 | the bytes of a number, least significant first, have it as their value |
| MachineInts.ConversionsAreModular | src/MariaBinding.cpp:198-202 | conversions between int and unsigned keep the value modulo 2^32, and every value that both types have |
| MachineInts.UnsignedRoundTrip | src/MariaBinding.cpp:198-202 | a year before 1 survives being stored as unsigned |
| Encoding.ReceivedDate | src/MariaRow.cpp:148-168 | a received date is its day number in the calendar, and a received timestamp that many days of 86400 seconds and the clock |
| Encoding.ServerDatesEncodable | src/MariaBinding.cpp:131-139 | every date of the years 0 to 9999, at any time of the day, can be sent |
| Encoding.DateRoundTrip | src/MariaRow.cpp:159-169 | decoding an encoded DATE gives back its day number, before 1970 too |
| Encoding.CivilRoundTrip | src/MariaBinding.cpp:131-134 | encoding a decoded date gives back year, month and day |
| Encoding.MicrosOfDay | src/MariaBinding.cpp:136-138 | whole days and the microseconds since midnight make up the floor of a timestamp in microseconds |
| Encoding.DateTimeClock | src/MariaBinding.cpp:135-139 | for every timestamp the sign flag is false, hours are at most 23, minutes and seconds below 60 |
| Encoding.DateTimeRoundTrip | src/MariaRow.cpp:143-157 | decoding an encoded DATETIME gives the greatest multiple of a microsecond not above it, exact on microseconds |
| Clock.UnitsOfTime | src/MariaRow.cpp:177-181 | hours count 3600 seconds, minutes 60, the fraction microseconds, and the flag turns the sign |
| Clock.TruncationSplit | src/MariaBinding.cpp:221-232 | nested truncation of seconds, minutes and hours is division of the whole microseconds |
| Clock.ClockSecondsOfMicros | src/MariaRow.cpp:177-181 | the decoder's sum of clock fields is the number of microseconds they were split from |
| Clock.TimeRoundTrip | src/MariaRow.cpp:171-182 | decoding an encoded TIME gives the duration truncated toward zero to a microsecond, with its sign |
| Identifier.ParseComplete | R/dbUnquoteIdentifier_MariaDBConnection_SQL.R:4-11 | every way in which the regular expression matches a text is the one a deterministic parser finds |
| Identifier.ParseSound | R/dbUnquoteIdentifier_MariaDBConnection_SQL.R:4-16 | what the parser accepts, the regular expression matches in that way |
| Identifier.Unambiguous | R/dbUnquoteIdentifier_MariaDBConnection_SQL.R:17-20 | a text that is accepted splits in exactly one way, so the captured groups do not depend on the matcher |
| Identifier.UndoubleDouble | R/dbUnquoteIdentifier_MariaDBConnection_SQL.R:18 | halving doubled backticks undoes doubling them |
| Identifier.DoubleText | R/dbQuoteIdentifier_MariaDBConnection_character.R:7 | doubling changes exactly the backticks of a text |
| Identifier.UnquoteSpelled | R/dbUnquoteIdentifier_MariaDBConnection_SQL.R:4-22 | one or two components, each as a bare word or in backticks, and one with a trailing dot, come back as exactly their names |
| Identifier.RefusesPlain | R/dbUnquoteIdentifier_MariaDBConnection_SQL.R:13-16 | a text without backticks that has a blank or two dots or starts with a dot is refused |
| Identifier.UnquoteQuoteId | R/dbQuoteIdentifier_MariaDBConnection_Id.R:4-9 | quoting and unquoting gives back any name of at most two non-empty components, with all backticks, dots and blanks, and exactly the last two of a name of three that starts with `def`; every other name is refused |
| LoadData.CharacterInFile | R/table.R:169-176 | backslash, tab, carriage return and newline are written as a backslash and a letter (or another backslash), which LOAD DATA reads as them; every other character is written as it is |
| LoadData.CsvQuoteIsEscape | R/table.R:169-176 | the four replacements one after the other equal one simultaneous escape |
| LoadData.EscapedIsClean | R/table.R:169-176 | escaped text has no raw tab, carriage return or newline and is never the text for NULL |
| LoadData.UnescapeEscape | R/table.R:169-176 | LOAD DATA's unescaping gives back every string |
| LoadData.SplitEscaped | R/table.R:67-70 | a reader that stops at unescaped tabs and newlines finds the end of a written field |
| LoadData.ReadWrittenLine | R/table.R:67-70 | a written line is read back as its fields, up to its newline |
| LoadData.ReadWrittenFile | R/table.R:67-70 | reading the written file by the default rules of LOAD DATA gives back every table of strings and missing values |

## Left out

- Connecting, SSL options, `info`, driver initialisation and the cpp11 glue are calls into libmariadb and R.
- `mysql_real_escape_string` and the string quoting built on it are library code.
- The meaning of SQL: a statement is a text for which the server has a reply. Implicit commits caused by a statement's text (such as DDL), errors of commit and rollback, and the order in which the client library allows calls are not modelled; DROP and CREATE count as ordinary work.
- IEEE 754 rounding, infinities and NaN: doubles are real numbers, NaN or NA. The eight bytes of a received double or integer64 are delivered as they are, and an int is never confused with R's NA.
- Integer64 parameters are values, not bytes; 64-bit counters do not wrap around before they are cut to an int.
- Time zones (`fix_timezone`, lubridate), the `bigint` option and `fix_blob`, which work on a fetched data frame.
- `readr::write_delim` is joining with tab and newline; encodings, numeric formatting in `csv_quote_one`, factors, list columns and UNHEX are left out.
- Type mapping (src/MariaTypes.cpp), S3 classes, column names, `get_column_info` and warnings. A warning that R turns into an error is not modelled.
- User interrupts every 1024 rows, and errors of `mysql_stmt_fetch_column`, would end a fetch like any other error.
- Running out of memory: a failing `mysql_stmt_init` is an outcome in `Lifecycle` only.
- Finalizers run between two calls, not in the middle of one. The destructor of a connection follows that of its results.
- `std::vector` and the library's bindings are sequences of values, R vectors are values: moving of memory and aliasing of R objects are not captured, except that reading through a null pointer or past a value is.
- Argument checks and row names of `dbWriteTable` and `dbAppendTable`.
- Several results of one immediate query are one unit of work.
- MariaResultSimple has nothing beyond `Client.DbResult.RunSimple`, `FetchSimple` and the refusal to bind.
- Client.MariaResultPrep.Fetch: an unlimited fetch is required to meet at most 100 * 2^24 rows, because beyond that the doubling of its capacity overflows an int, which is undefined; and a refused re-bind must not have left rows to be sent, because reading them from the wrong table is undefined.
- Client.DbResult.Fetch: has the same two requirements.
- Client.DbResult.Bind: for columns of equal lengths requires an open handle, because without one the source dereferences a closed statement; and dates that a 32-bit day number or hour can hold, because beyond that the conversion from double is undefined.
- Client.MariaResultPrep.CacheMetadata: the mapping from field types to column types and the column names are left out; the metadata are the types.
- Client.DbConnection.constructor: starts with an open connection, because connecting is left out.
- Client.DbResult.constructor: the check of the connection and the registration as current result are in `Client.DbResult.CreateAndSendQuery` and `Client.DbResult.Construct`, because the ownership of a result is recorded when its constructor has finished.
- DataFrames.DfCreate: the vector types, names and attributes of the columns are left out; new elements are `Unset`.
- WriteTable.WriteTable: the append method of DBI that is used without LOAD DATA is not part of this model, and statements that commit implicitly are ordinary work; `WriteTable.AllRowsLoaded` says what remains true with them.
- WriteTable.CreateAndFill: has the same two gaps.
- WriteTable.AllRowsLoaded: speaks of the number of rows the server reports, not of their contents.
