# Verified model of the tenant ingestion platform

This project models the ingestion half of a tenant data platform and proves what it promises.
Bytes are received once into Bronze; parsed and upserted into bitemporal Silver tables; and handed
to a polling consumer through a batch queue and a watermark. `dafny verify dfyconfig.toml` checks
everything.

How the model is set up:

- A table is a sequence (or map) of rows held in a class field or in a state datatype; a row's id is
  its position. Each database transaction is one atomic step. Time is an integer; decimals are reals,
  or their printed text where only the text is hashed.
- The code that works in steps is a class or a method with the original's loops, proved equal to a
  recursive function; the laws are lemmas about those functions and about all their runs.
- sha256 is a function parameter. Where a law needs it, `Hashing.Ideal` is assumed of it: no two texts
  collide and no digest contains the unit separator.
- Reading a number, a date or an identifier, and matching a regular expression that comes from data,
  are parameters as well. The fixed regular expressions of the grammars and of the CHECK reader are
  modelled character by character.

Where the proofs found less than the code or its comments say:

- The poll is complete for a fixed version tuple only, because the watermark is not keyed by versions
  (`QueueProtocol.CompleteForOneVersionOnly`); a bump is safe exactly when nothing at or behind the
  window is unexecuted under the new tuple (`QueueProtocol.VersionBumpIsSafeWhen`). The poll also
  needs every commit lag to be shorter than the overlap window, which is exact
  (`QueueProtocol.OverlapMustExceedLag`).
- Re-exporting a register with natural keys is a no-op exactly when no two retained rows share a key
  (`RegisterLoader.ReexportIsIdempotent`); `src/silver/registers/loader.py:20-23` states it without that
  condition. Promotion never is a no-op (`Promotion.RepromotionSupersedesAll`).
- A superseded register row, sales header or GSTN statement stays open-ended in business time unless
  its successor is later-dated (`Bitemporal.TilingNeedsLaterDates`, `Statements.SupersededStaysValid`).
- An attribute name with a newline at its end passes the contract grammar, because `$` matches before
  it (`Contract.NamesAreLegal`, `Contract.NewlineNameIsAccepted`).
- The CHECK reader does not always keep the meaning of a check. `CheckMeaning.PreservesMeaning` says for
  every printed check whose quoted parentheses pair up exactly when it does: casts and runs of blanks are
  removed inside quotes too, a pattern is published with its quotes doubled, and a nullable column's third
  alternative can be swallowed (`CheckMeaning.ThirdAlternativeIsLost`). A parenthesis left open in a pattern
  makes two conjuncts one (`CheckMeaning.UnpairedParenthesisJoinsPatterns`). Merging drops an empty
  vocabulary (`CheckMerging.MergeIsConjunction`).
- A GSTN statement that changes only fields outside its hash is taken as unchanged
  (`Gstr2b.OmittedFieldsAreNotSeen`, `Gstr3b.FilingIsNotSeen`).

Files, in reading order: `Prelude`, `Text`, `Hashing`; `Queue`, `QueueProtocol`; `Bronze`,
`BronzeProtocol`; `Bitemporal`, `RegisterParser`, `RegisterLoader`, `SalesRegister`, `SalesLoader`,
`Statements`, `Gstr2b`, `Gstr3b`; `Chains`, `Supersession`, `FiscalYear`, `Shareholding`; `Clauses`,
`Contract`, `Validation`, `Promotion`; `TableScanner`, `ExtractionSpec`; `CheckText`,
`CheckTranslation`, `CheckReading`, `CheckMeaning`, `CheckMerging`; `Migrations`; `GstinCheck`.

## Model

| member | source | states |
|---|---|---|
| `Queue.SilverReader.PendingBatches` | src/reader/silver_reader.py:146-215 | the poll returns at most `limit` eligible batches, distinct and oldest first, and leaves out no eligible batch older than one it returns |
| `Queue.SilverReader.RecordExecution` | src/reader/silver_reader.py:333-399 | records the execution, its facts and a watermark that never moves back, or returns False and writes nothing when the composite key is there already |
| `QueueProtocol.PollIsCovered` | src/reader/silver_reader.py:165-206 | in a poll's answer, LIMIT included, every batch an overlap older than one returned is executed or comes before it |
| `QueueProtocol.CommitKeepsCover` | src/reader/silver_reader.py:17-23 | a batch committed with a lag shorter than the overlap never falls behind a watermark less the overlap or a list a worker holds |
| `QueueProtocol.RecordKeepsComplete` | src/reader/silver_reader.py:369-399 | moving the watermark to a batch recorded in ready_at order leaves nothing unexecuted an overlap behind it |
| `QueueProtocol.RecordKeepsWorkers` | src/reader/silver_reader.py:348-399 | one worker's record keeps every other worker's list covered, and its own remainder |
| `QueueProtocol.StepKeepsInv` | src/reader/silver_reader.py:146-399 | every step of any writer or worker, crashes and rollbacks included, keeps the completeness invariant |
| `QueueProtocol.PollingIsComplete` | src/reader/silver_reader.py:165-206 | in every reachable state of any number of writers and workers, every committed batch at or behind watermark minus overlap is executed |
| `QueueProtocol.NoBatchIsLost` | src/reader/silver_reader.py:165-206 | in every reachable state a committed batch satisfies the poll predicate exactly until it is executed; the poll is empty exactly when nothing waits; its first batch is an oldest waiting one |
| `QueueProtocol.LateCommitIsLost` | src/reader/silver_reader.py:17-23 | a run in which a commit lag reaching the overlap leaves a batch that no poll returns |
| `QueueProtocol.OverlapMustExceedLag` | src/reader/silver_reader.py:17-23 | polling is complete in every run if and only if the overlap exceeds the commit lag |
| `QueueProtocol.VersionBumpIsSafeWhen` | src/reader/silver_reader.py:165-206 | once the old lists are worked off, in any reachable state and whatever versions ran before, all later runs under the new versions are complete if and only if no READY batch at or behind the window is unexecuted under them at that moment |
| `QueueProtocol.BacklogStaysLost` | src/reader/silver_reader.py:165-206 | while no other consumer runs under the new versions, a batch behind the window at the bump is never executed under them |
| `QueueProtocol.VersionBumpLosesBacklog` | src/reader/silver_reader.py:165-206 | a run under one version tuple after which a batch was never executed under another and the poll predicate rejects it |
| `QueueProtocol.CompleteForOneVersionOnly` | src/reader/silver_reader.py:165-206 | every run pinned to one version tuple is complete for another if and only if they are the same |
| `QueueProtocol.StepKeepsRecorded` | src/reader/silver_reader.py:348-399 | each step keeps the account of winners, the history of calls and every watermark |
| `QueueProtocol.RecordingIsExactlyOnce` | src/reader/silver_reader.py:348-399 | in every reachable state at most one call per batch and version tuple has won, execution rows are exactly theirs, fact_record is exactly the winners' lists in order, and from there on no watermark moves back |
| `QueueProtocol.TenantPackIsNotOnTheFact` | src/reader/silver_reader.py:369-385 | two executions that wrote facts wrote the same rows if and only if batch, facts, rule catalogue and corpus agree, whatever the tenant packs |
| `Bronze.PutKeepsInv` | src/bronze/service.py:231-238 | the PUT goes to a location that is free and keeps "indexed implies stored" |
| `Bronze.InsertKeepsInv` | src/bronze/service.py:240-257 | the ledger INSERT that finds no equal hash keeps every Bronze invariant and only adds |
| `Bronze.BronzeIngestionService.Receive` | src/bronze/service.py:153-292 | with other callers acting between its steps: refused exactly on a failed gate or an unclean scan of new content, else a receipt for the one ledger row of these bytes' hash, and nothing already indexed changes |
| `Bronze.BronzeIngestionService.InsertLedger` | src/bronze/service.py:240-277 | conflicts exactly when a row has the hash already, otherwise appends one row |
| `Bronze.BronzeIngestionService.FetchBytes` | src/bronze/service.py:294-318 | succeeds exactly for an indexed id and returns bytes with the row's hash |
| `BronzeProtocol.StepKeepsInv` | src/bronze/service.py:197-292 | every step of any interleaving of receive calls, crashes between steps included, keeps the Bronze invariant |
| `BronzeProtocol.StepOnlyAdds` | src/bronze/service.py:197-292 | no step removes or alters a ledger row, an object or a receipt |
| `BronzeProtocol.BronzeIsSafe` | src/bronze/service.py:197-292 | in every reachable state each ledger row names a stored object with its hash and size, no two rows share a hash, every object passed the size gate and a scan, and no re-read after a conflict found nothing |
| `BronzeProtocol.EvidenceIsKept` | src/bronze/service.py:197-292 | what is indexed at one time is indexed and stored unchanged at every later time |
| `BronzeProtocol.OneIdentityPerContent` | src/bronze/service.py:197-292 | two receipts carry the same ingest_id exactly when their bytes have the same hash, and at most one of them says it was first |
| `BronzeProtocol.FetchReturnsWhatWasReceived` | src/bronze/service.py:294-318 | fetching by a receipt's id at any later time returns the received bytes |
| `Hashing.JoinIsInjective` | src/silver/sales_register.py:190-196 | joining separator-free fields by the unit separator loses nothing, save that no field and one empty field look alike |
| `Hashing.HashIdentifiesFields` | src/silver/registers/loader.py:84-93 | two content hashes are equal exactly when the field lists are |
| `Bitemporal.UpsertKeepsChained` | src/silver/registers/loader.py:608-685 | one upsert keeps: a row is live while it is the last of its key, and a closed row ends where a later-dated successor begins, otherwise nowhere |
| `Bitemporal.EveryRunIsChained` | src/silver/registers/loader.py:608-796 | after any sequence of loads the table is chained |
| `Bitemporal.ChainedMeansCurrent` | src/silver/registers/loader.py:766-796 | in a chained table there is at most one live row per key and valid_from is before valid_to in every row |
| `Bitemporal.EveryRunEvolves` | src/silver/registers/loader.py:766-796 | over any loads no row is removed, a closed row never changes again and a live row changes only by being closed |
| `Bitemporal.LoadConserves` | src/silver/registers/loader.py:452-506 | inserted, unchanged and superseded add up to the candidates; the table grows by inserted plus superseded and the live rows by inserted |
| `Bitemporal.UpsertSetsCurrent` | src/silver/registers/loader.py:608-685 | an upsert makes the candidate's content current for its key and leaves every other key's |
| `Bitemporal.LoadSetsCurrent` | src/silver/registers/loader.py:452-485 | after a load each key has the content of its last candidate |
| `Bitemporal.NoOpWhenCurrent` | src/silver/registers/loader.py:640-660 | a load changes nothing and reports all unchanged exactly when every candidate's content is current |
| `Bitemporal.ReloadIsNoOp` | src/silver/registers/loader.py:14-23 | claiming the same content for the same keys again, with any dates and payloads, is a no-op if and only if no two of the claims give different content to one key |
| `Bitemporal.VersionsTile` | src/silver/registers/loader.py:766-796 | if each version of a key is strictly later-dated, each day from the first on is covered by exactly one version |
| `Bitemporal.TilingNeedsLaterDates` | src/silver/registers/loader.py:766-796 | no day is covered twice for a key if and only if its versions are strictly later-dated one after another |
| `RegisterParser.AcceptedRowIsTyped` | src/silver/registers/loader.py:233-260 | an accepted row holds the reading of each column's own cell and is NULL only in columns that are not required |
| `RegisterParser.Accumulator.Accumulate` | src/silver/registers/loader.py:263-279 | one record is kept, counted as a collapsed duplicate or recorded as a rejection |
| `RegisterParser.ParseRegisterCsv` | src/silver/registers/loader.py:282-311 | the CSV parser with its loop computes exactly the filing of the records in file order, or the fatal error |
| `RegisterParser.ParseRegisterNdjson` | src/silver/registers/loader.py:314-377 | the NDJSON parser, its first object standing in for a header, computes exactly the filing of its records |
| `RegisterParser.FilingConserves` | src/silver/registers/loader.py:263-279 | rows, rejections and collapsed duplicates add up to the records |
| `RegisterParser.KeptAreFirstOccurrences` | src/silver/registers/loader.py:263-279 | the rows kept are exactly the first occurrences by hash, in file order |
| `RegisterParser.KeptAreDistinct` | src/silver/registers/loader.py:263-279 | no two rows kept share a hash |
| `RegisterParser.CsvAndNdjsonAgree` | src/silver/registers/loader.py:282-377 | a CSV and an NDJSON upload with the same cells give the same rows, hashes, rejections and duplicate count |
| `RegisterLoader.ValidFromIsTheColumn` | src/silver/registers/loader.py:599-606 | the declared valid-from column of an accepted row always holds a date, and it is the row's valid_from |
| `RegisterLoader.LookupIsNullSafe` | src/silver/registers/loader.py:608-645 | the mixed `=` and `IS NOT DISTINCT FROM` lookup finds the row that comparing whole keys with NULL equal to NULL finds |
| `RegisterLoader.Loader.Close` | src/silver/registers/loader.py:766-796 | closes one row, setting valid_to only for a later-dated replacement, and touches no other |
| `RegisterLoader.Loader.UpsertNatural` | src/silver/registers/loader.py:608-685 | the natural-key procedure is the abstract upsert of the row |
| `RegisterLoader.Loader.UpsertContent` | src/silver/registers/loader.py:687-716 | insert-on-conflict-do-nothing is the abstract upsert when the hash is part of the key |
| `RegisterLoader.Loader.Load` | src/silver/registers/loader.py:387-506 | succeeds exactly when type, period and file are accepted; then the table, the counts, the batch and the rejections are those of the whole file, and otherwise no data table changes |
| `RegisterLoader.ContentHashIsTheKey` | src/silver/registers/loader.py:687-716 | for a content register a live row with the key has the content, so nothing is ever superseded |
| `RegisterLoader.ReexportIsIdempotent` | src/silver/registers/loader.py:14-23 | loading the same upload again for the same entity, GSTIN and period, under another batch and artefact, changes nothing if and only if the register is keyed by content or no two retained rows share a natural key |
| `SalesRegister.BuildInvoice` | src/silver/sales_register.py:284-376 | builds the invoice of a group of rows, its lines sorted by number, or returns the first fault |
| `SalesRegister.RowOrderIsIrrelevant` | src/silver/sales_register.py:284-376 | any reordering of an invoice's rows builds the same invoice with the same document hash |
| `SalesRegister.DocumentHashIsIdentity` | src/silver/sales_register.py:318-346 | two document hashes are equal if and only if the header cells and the line cells in line-number order are |
| `SalesRegister.SortedIsUnique` | src/silver/sales_register.py:340 | lines with distinct numbers have only one sorted order |
| `SalesLoader.ParseSalesRegisterCsv` | src/silver/sales_register.py:240-281 | groups the complete rows by number in order of appearance and builds each group, or records why not |
| `SalesLoader.AcceptedInvoices` | src/silver/sales_register.py:240-281 | a file without rejections gives one invoice per number, built from exactly that number's rows |
| `SalesLoader.FileOrderIsIrrelevant` | src/silver/sales_register.py:240-281 | an accepted file with its rows in any other order is accepted and gives the same invoices |
| `SalesLoader.SalesRegisterLoader.UpsertInvoice` | src/silver/sales_register.py:466-493 | one invoice is inserted, found unchanged or superseded, its lines stored under its own header |
| `SalesLoader.SalesRegisterLoader.Load` | src/silver/sales_register.py:383-504 | one rejection refuses the whole file; otherwise table, counts and batch are those of all its invoices |
| `SalesLoader.ReexportIsIdempotent` | src/silver/sales_register.py:383-504 | loading an accepted file again for the same entity and GSTIN, its rows in any order and under another batch and artefact, leaves the table as it is and reports every invoice unchanged |
| `Statements.BoundaryIsClear` | src/silver/gstn_returns/gstr2b.py:100-107 | two lists laid end to end can be told apart when their rows differ in length |
| `Statements.StatementHashIdentifies` | src/silver/gstn_returns/gstr2b.py:100-113 | the flat hash over header fields and two lists of row hashes determines the header and both lists |
| `Statements.StatementLoader.Load` | src/silver/gstn_returns/gstr2b.py:298-436 | writes a batch, a header and its child rows exactly when the live statement's hash differs; header hashes and child tables stay consistent |
| `Statements.LoadContent` | src/silver/gstn_returns/gstr2b.py:298-436 | where equal hashes mean equal content, a load is a no-op exactly when the live statement of the key has this content, writes one batch otherwise, and leaves this content live |
| `Statements.EveryRunIsChained` | src/silver/gstn_returns/gstr2b.py:317-346 | after any loads there is at most one live statement per entity, GSTIN and period, and each carries the hash of its content |
| `Statements.LastLoadIsCurrent` | src/silver/gstn_returns/gstr2b.py:317-346 | what is live for a key is content-equal to the last statement loaded for it |
| `Statements.SupersededStaysValid` | src/silver/gstn_returns/gstr2b.py:336-346 | closing sets superseded_at only, so every version stays valid on all later days |
| `Gstr2b.ParseB2b` | src/silver/gstn_returns/gstr2b.py:184-218 | the three nested loops give the lines of all items in order |
| `Gstr2b.LinesAreItems` | src/silver/gstn_returns/gstr2b.py:184-218 | there is one line for each item of each invoice of each supplier and no other |
| `Gstr2b.ParseGstr2b` | src/silver/gstn_returns/gstr2b.py:126-181 | refuses a malformed payload, another period or a non-empty cdnr section, else gives the statement's lines and summary rows |
| `Gstr2b.DocumentHashIsIdentity` | src/silver/gstn_returns/gstr2b.py:68-107 | two document hashes are equal if and only if the statements agree in GSTIN, period and every hashed part of every line and summary row, in order |
| `Gstr2b.OmittedFieldsAreNotSeen` | src/silver/gstn_returns/gstr2b.py:68-76 | changing only the trade name, ITC flags, place of supply, reverse charge or attributes of a line leaves the document hash |
| `Gstr2b.ZeroRateIsAbsent` | src/silver/gstn_returns/gstr2b.py:68-76 | a zero rate and no rate hash alike |
| `Gstr2b.Load` | src/silver/gstn_returns/gstr2b.py:298-436 | a load is a no-op exactly when the live statement has the same hashed content, and writes one batch otherwise; a refusal writes nothing |
| `Gstr3b.ItcRowsAccepted` | src/silver/gstn_returns/gstr3b.py:224-241 | a box is accepted exactly when every row's type is in its vocabulary, and then row by row |
| `Gstr3b.ParseGstr3b` | src/silver/gstn_returns/gstr3b.py:142-221 | refuses a malformed payload, another period, inter-state details or an unknown type, in the code's order |
| `Gstr3b.BoxesAgree` | src/silver/gstn_returns/gstr3b.py:123-129 | the twenty-three amounts laid end to end without names determine the boxes |
| `Gstr3b.DocumentHashIsIdentity` | src/silver/gstn_returns/gstr3b.py:123-139 | two document hashes are equal if and only if GSTIN, period, ARN, boxes and both lists are |
| `Gstr3b.FilingIsNotSeen` | src/silver/gstn_returns/gstr3b.py:123-129 | changing only the filing date or status leaves the document hash |
| `Gstr3b.Load` | src/silver/gstn_returns/gstr3b.py:280-421 | a load is a no-op exactly when the live statement has the same hashed content, and writes one batch, a header and its detail and supply rows otherwise; a refusal writes nothing |
| `Chains.SupersedeKeepsChained` | src/silver/supersede.py:58-107 | closing the live row of a key and appending its successor keeps: each row supersedes the previous one of its key and is live while it is the last |
| `Chains.ChainsDoNotBranch` | src/silver/supersede.py:58-107 | no two rows supersede the same one |
| `Chains.LineageIsComplete` | src/silver/entity_master.py:70-113 | from a row the links lead through every earlier row of its key, latest first, and nowhere else |
| `Chains.OneLivePerKey` | src/silver/supersede.py:58-107 | there is at most one live row per key |
| `Supersession.EntityMasterService.CloseCurrent` | src/silver/supersede.py:58-107 | closes the live row of the key, if any, and returns its id |
| `Supersession.EntityMasterService.RecordOrSupersedeSnapshot` | src/silver/entity_master.py:70-113 | closes, inserts, and replaces the fact rows through the write hook in one step |
| `Supersession.EveryRunKeepsInv` | src/silver/entity_master.py:70-113 | under any run the links form a chain per key with the live row at its end, and a fact row is live exactly while its record is |
| `Supersession.SnapshotReplacesFacts` | src/extraction/entity_master_types.py:133-161 | a snapshot replaces the whole of its key's current facts by its own rows and leaves every other key's |
| `FiscalYear.OneFinancialYear` | src/extraction/fiscal_year.py:62-90 | for every start month each date lies in exactly one window, the one fy_containing names, provided its years are on the calendar |
| `FiscalYear.WindowsMeet` | src/extraction/fiscal_year.py:62-75 | consecutive financial years meet without gap or overlap |
| `FiscalYear.ShareholdingWindows` | src/extraction/entity_master_types.py:230-240 | the current window holds the document's date and the prior one ends the day before it begins |
| `FiscalYear.LabelRoundTrip` | src/extraction/fiscal_year.py:30-59 | the label of a four-digit start year reads back as that year, a two-digit one as this century's, and no other is recognised |
| `FiscalYear.ParseUndoesFinancialYear` | src/silver/registers/loader.py:71-81 | reading the label of a date's financial year gives that year exactly from the year 1000 on |
| `FiscalYear.TextIdentifiesYear` | src/silver/registers/loader.py:580-597 | two dates have the same financial-year text exactly when they lie in the same year, so a period across two years is refused |
| `Shareholding.ExpandRows` | src/extraction/entity_master_types.py:271-288 | raises exactly when some row has a percentage that reads and a share count that is there and does not; otherwise the nested loops give each row's current and prior fact where the percentage reads, in order |
| `Shareholding.RecordedPattern` | src/extraction/entity_master_types.py:247-297 | after recording, the current facts valid on any day are one column of the document's rows: the current one in its financial year, the prior one in the year before, none otherwise |
| `Clauses.ParseClauses` | src/silver/contract.py:145-160 | the clause loop gives the table of clauses or the first fault |
| `Clauses.ClausesRoundTrip` | src/silver/contract.py:145-160 | printing legal clauses and reading the cell gives them back |
| `Contract.ParseAttributes` | src/silver/contract.py:107-134 | the attribute loop gives the attributes in order or the first fault |
| `Contract.ParseContract` | src/silver/contract.py:137-185 | the whole parser, faults in the code's order |
| `Contract.ParseUndoesPrint` | src/silver/contract.py:107-185 | parsing the canonical print of a well-formed contract returns it |
| `Contract.AcceptedIsWellFormed` | src/silver/contract.py:107-185 | every accepted cell has matching, distinct names and known types |
| `Contract.PrintThenParseIsStable` | src/silver/contract.py:107-185 | the parser's results are exactly the well-formed contracts, and print-then-parse changes none |
| `Contract.NamesAreLegal` | src/silver/contract.py:73-124 | an accepted attribute list has only names of `[a-z][a-z0-9_]*` if and only if its text has no newline directly before a colon |
| `Contract.NewlineNameIsAccepted` | src/silver/contract.py:73-124 | such a text exists: a name with a newline at its end is accepted |
| `ExtractionSpec.ParseFields` | src/extraction/spec.py:136-167 | the field loop gives the fields in order or the first fault |
| `ExtractionSpec.ParseTableColumns` | src/extraction/spec.py:170-189 | the column loop gives the columns in order or the first fault |
| `ExtractionSpec.ParseExtractionSpec` | src/extraction/spec.py:226-255 | the whole parser, faults in the code's order |
| `ExtractionSpec.AcceptedTable` | src/extraction/spec.py:192-223 | acceptance means both table clauses or neither, and then a pattern that compiles whose named groups are exactly the columns, each named once and of a known type |
| `ExtractionSpec.ScannerIsSafe` | src/extraction/tablevalue.py:158-164 | so the row scanner never asks a match for a group it does not have |
| `ExtractionSpec.ParseUndoesPrint` | src/extraction/spec.py:136-255 | parsing the canonical print of a well-formed spec, table included, returns it |
| `ExtractionSpec.PrintThenParseIsStable` | src/extraction/spec.py:136-255 | the parser's results are exactly the well-formed specs: no accepted label holds a comma, a semicolon or a newline |
| `TableScanner.LocateRow` | src/extraction/tablevalue.py:143-155 | the window-growing loop finds the shortest acceptable window of at most eight lines, if there is one |
| `TableScanner.ParseTableRows` | src/extraction/tablevalue.py:93-140 | rows and accepted windows pair up one to one: the branch for a failed coercion drops nothing |
| `TableScanner.ScanIsGreedy` | src/extraction/tablevalue.py:93-155 | accepted windows are disjoint and in order, each the shortest at its start, and every skipped line starts no acceptable window |
| `TableScanner.GreedyIsScan` | src/extraction/tablevalue.py:93-155 | nothing else fits that description |
| `TableScanner.AppendingIsLocal` | src/extraction/tablevalue.py:93-155 | appending lines changes no decision made at least eight lines before the old end |
| `CheckText.UntouchedWithoutCasts` | src/catalogue/field_constraints.py:137-154 | removing casts leaves a text alone if and only if no cast starts anywhere in it, quotes or not |
| `CheckText.CastVanishes` | src/catalogue/field_constraints.py:137-154 | a cast followed by a bracket, a comma or the end disappears alone |
| `CheckText.UntouchedWhenCalm` | src/catalogue/field_constraints.py:137-154 | collapsing white space leaves a text alone exactly when its blanks are single |
| `CheckText.StripParens` | src/catalogue/field_constraints.py:157-167 | the loop terminates and drops exactly the outer parentheses that the depth count pairs |
| `CheckText.UnwrappingIsIdempotent` | src/catalogue/field_constraints.py:157-167 | dropping outer parentheses twice is dropping them once |
| `CheckText.UnwrappingKeepsBalance` | src/catalogue/field_constraints.py:157-167 | a balanced expression stays balanced |
| `CheckText.UntouchedWhenClear` | src/catalogue/field_constraints.py:137-154 | removing casts and collapsing blanks leaves a text alone if and only if it has neither |
| `CheckText.ClearKeepsProfile` | src/catalogue/field_constraints.py:137-167 | neither moves a parenthesis: the depth count sees the same text before and after |
| `CheckTranslation.NormalDefinition` | src/catalogue/field_constraints.py:141-154 | normalising a check as Postgres prints it, at any nesting and with any quoted texts, clears each quoted text and drops the casts outside, and nothing else |
| `CheckTranslation.BodyOfDefinition` | src/catalogue/field_constraints.py:141-167 | where quoted parentheses pair up, dropping the outer parentheses gives the cleared check |
| `CheckTranslation.ReadsStructure` | src/catalogue/field_constraints.py:170-244 | on that text the regular expressions find exactly what the check's structure says, for conjunctions, disjunctions and negations too |
| `CheckReading.ReadsAlternatives` | src/catalogue/field_constraints.py:170-244 | on the body of a nullable column with two or more alternatives the expressions find what stands between the first operator and the end of the last alternative, or nothing |
| `CheckReading.ParsesStructure` | src/catalogue/field_constraints.py:199-244 | parsing a printed check with paired parentheses gives the shape its structure has, whatever the number of alternatives to NULL |
| `CheckReading.ReadsQuotedCheck` | src/catalogue/field_constraints.py:157-244 | a single pattern, value or vocabulary with any quoted texts, bare or nullable, is read exactly when no parenthesis of its texts closes one around it |
| `CheckMeaning.MeansExactly` | src/catalogue/field_constraints.py:199-244 | the shape of a single check accepts what the check accepts, in every database, if and only if its quoted texts hold neither cast nor run of blanks, nor, in a pattern, a quote; strict `>` only on integer columns |
| `CheckMeaning.PreservesMeaning` | src/catalogue/field_constraints.py:199-244 | for every printed check with paired parentheses: whatever the database and the non-null value, the returned shape accepts what the check accepts, if and only if a condition on the check alone holds |
| `CheckMeaning.QuotedCheckExactly` | src/catalogue/field_constraints.py:199-244 | the same for a single quoted check with any texts at all: meaning is kept if and only if the texts come through or are not read |
| `CheckMeaning.PlainAlternatives` | src/catalogue/field_constraints.py:215-226 | a vocabulary with patterns, values, vocabularies and bounds for further alternatives keeps its meaning if and only if the last one is no vocabulary or all are values and vocabularies whose texts come through |
| `CheckMeaning.ListsExactly` | src/catalogue/field_constraints.py:215-226 | listed texts are what a check accepts, in every database, exactly when the truth table over the terms the check mentions says so |
| `CheckMeaning.ThirdAlternativeIsLost` | src/catalogue/field_constraints.py:215-218 | behind a value, further alternatives that end with a quote are swallowed: the shape rejects the value the check admits |
| `CheckMeaning.PatternIsVerbatim` | src/catalogue/field_constraints.py:219-220 | the published pattern is the check's own if and only if it holds no quote, no cast and no run of blanks and closes no parenthesis it has not opened |
| `CheckMeaning.EveryShapeIsRead` | src/catalogue/field_constraints.py:215-242 | exactly the patterns, values, non-empty vocabularies, bounds, ranges and, on integer columns, strict bounds are read, and the nullable form gives the same shape |
| `CheckMeaning.CastInValueIsLost` | src/catalogue/field_constraints.py:137-226 | `S = 'a::b'` loses its meaning |
| `CheckMeaning.UnpairedParenthesisJoinsPatterns` | src/catalogue/field_constraints.py:157-220 | two conjoined patterns are published as one as soon as the first leaves a parenthesis open, and are not read otherwise |
| `CheckMeaning.OpenParenthesisIsLost` | src/catalogue/field_constraints.py:157-220 | `(S ~ 'a(b') AND (S ~ 'c')` loses its meaning that way |
| `CheckMerging.MergeIsConjunction` | src/catalogue/field_constraints.py:545-560 | on disjoint facets merging is conjunction if and only if the later shape is no empty vocabulary, or the bounds contradict each other anyway |
| `CheckMerging.MergingAllIsConjunction` | src/catalogue/field_constraints.py:484-508 | any number of shapes on disjoint facets, none an empty vocabulary, merged one after the other, accept what all of them accept |
| `CheckMerging.PublishedMeansTheChecks` | src/catalogue/field_constraints.py:497-508 | the merged shape of several checks on one column, of its domain or its table, accepts a non-null value exactly when it satisfies every check a shape was read from |
| `CheckMerging.LaterBoundWins` | src/catalogue/field_constraints.py:545-560 | on one bound the later constraint replaces the earlier; that is conjunction if and only if the later is not the weaker |
| `CheckMerging.LaterVocabularyWins` | src/catalogue/field_constraints.py:545-560 | on vocabularies it is conjunction if and only if the later only narrows the earlier; an empty later one is dropped |
| `CheckMerging.LaterPatternWins` | src/catalogue/field_constraints.py:545-560 | on patterns it is conjunction in every database if and only if they are the same or one is empty |
| `Validation.CollectAttributes` | src/silver/validate.py:189-205 | the attribute loop gives the values and rejections in order |
| `Validation.ValidateLines` | src/silver/validate.py:326-383 | the line loop gives the lines and rejections of a group in order |
| `Validation.ValidateTransactionCsv` | src/silver/validate.py:211-323 | the whole validator: grouping in order of appearance, documents and rejections in the code's order |
| `Validation.RowsAreConserved` | src/silver/validate.py:211-323 | in an accepted file the documents' lines, each with its document's key, are as a multiset the file's rows, each with its own, and row_count is their number |
| `Validation.AcceptedIsWellFormed` | src/silver/validate.py:211-383 | an accepted file has distinct document keys, strictly increasing line numbers, no IGST beside CGST or SGST, rates in 0-100, counterparties that obey the contract and every mandatory attribute |
| `Promotion.SilverPromotionService.PromoteTransactionDocuments` | src/silver/promote.py:155-324 | refused by the registry, quarantined whole, or promoted whole with one batch whose row count is the validator's |
| `Promotion.PromotionEffect` | src/silver/promote.py:211-300 | a promotion closes exactly the rows that were live for its keys and leaves every document it adds live, pointing at the row it replaced |
| `Promotion.AcceptedFilePromotes` | src/silver/promote.py:181-300 | every accepted file is such a promotion, so no document closes another of its batch |
| `Promotion.RepromotionSupersedesAll` | src/silver/promote.py:211-300 | promoting the same file again supersedes every document by its own copy |
| `Promotion.EveryRunIsChained` | src/silver/promote.py:211-300 | under any run of promotions there is at most one live document per coalesced key, at the end of a chain |
| `Promotion.TotalsOfSorted` | src/silver/validate.py:81-92 | a document's totals are what its rows add up to, whatever their order in the file |
| `Migrations.MigrationRunner.ApplyTenant` | src/migrate/runner.py:197-234 | one tenant's run is the sequence of its steps, ending in a return or in the first error |
| `Migrations.MigrationRunner.ApplyAllTenants` | src/migrate/runner.py:236-258 | each tenant ends as its own run leaves it; a failure is reported and stops no other tenant |
| `Migrations.RunsKeepPrefix` | src/migrate/runner.py:107-234 | with distinct file names in each directory and no common file named like an extension, however far a run gets, the tenant holds a prefix of common-then-extension order, no shorter than before, the run applied exactly the difference, and the drift report names the rest |
| `Migrations.PendingIsTheRest` | src/migrate/runner.py:278-310 | the drift report of a tenant names exactly the rest of its chain |
| `Migrations.NormalReturnIsComplete` | src/migrate/runner.py:197-346 | a run that returns, on any tenant and any lists, has applied exactly the missing files in chain order; every recorded checksum of the chain is its file's, other rows are unchanged, and the tenant is absent from the drift report |
| `Migrations.ReturnsExactlyWhen` | src/migrate/runner.py:197-346 | a run returns if and only if no applied file was edited, no pending body fails or repeats a name, and the grants succeed |
| `Migrations.CollidingNamesStopTheChain` | src/migrate/runner.py:107-134 | since only the extension side is checked for its prefix, a chain goes through an empty tenant if and only if its names are distinct |
| `Migrations.LanesAreIndependent` | src/migrate/runner.py:236-258 | in any schedule a tenant's state depends only on how many turns it had |
| `Migrations.InterleavingIsIrrelevant` | src/migrate/runner.py:236-258 | every interleaving in which all workers finish ends as running the tenants one by one does |
| `GstinCheck.GstinChecksum` | reference/B-Documents/inafin_mock_categoryB/_generator/core.py:19-26 | the check character makes the weighted base-36 total vanish; none exactly for a character outside the alphabet |
| `GstinCheck.MkGstin` | reference/B-Documents/inafin_mock_categoryB/_generator/core.py:29-31 | the parts, 'Z' and the check character; a valid code whenever the parts make an even payload, as the fifteen characters of a GSTIN do |
| `GstinCheck.ValidWhenTotalVanishes` | reference/B-Documents/inafin_mock_categoryB/_generator/core.py:19-26 | a code of odd length is valid exactly when the weighted total of all of it vanishes |
| `GstinCheck.DetectsSubstitution` | reference/B-Documents/inafin_mock_categoryB/_generator/core.py:19-26 | any single wrong character, the check character included, is detected, at any even payload length |
| `GstinCheck.DetectsTransposition` | reference/B-Documents/inafin_mock_categoryB/_generator/core.py:19-26 | swapping two different neighbours goes unnoticed if and only if they are '0' and 'Z' |

## Left out

- QueueProtocol.PollingIsComplete: workers record the list they polled in ready_at order; a worker that records a later batch first is outside the model, as no code enforces the order.
- CheckMeaning.PreservesMeaning: for checks whose quoted parentheses pair up one by one; with unpaired ones, single quoted checks and two conjoined patterns are classified, other compounds are not.
- CheckReading.ParsesStructure: a cast on the column itself, as in `(a)::text = 'x'`, is not among the printed forms; column names are ASCII words.
- CheckMerging.PublishedMeansTheChecks: the collection of rules per relation in `derive_field_constraints` and the facets that come from the catalogue instead of a check are not modelled.
- SalesRegister.DocumentHashIsIdentity: on cells that hold no unit separator, as for every hash law here.
- Gstr2b.Load, Gstr3b.Load: the caller's GSTIN is the key; the code does not compare it with the GSTIN inside the payload, and neither does the model.
- Statements.StatementLoader: one generic class stands for both GSTN loaders, whose procedures are the same, and one tagged sequence for the two child tables of each.
- FiscalYear.LabelRoundTrip: ASCII digits and letters; `\d` and case folding beyond ASCII are left out.
- The row lock waits and snapshots of Postgres: each transaction is atomic, and two loads of the same scope do not overlap.
- CHECK, domain and foreign-key violations of the tables, which abort a load as a whole.
- Decoding of CSV, JSON and Unicode, missing keys inside a GSTN payload, and `Decimal` and `strptime` corner cases: models start from split records and stripped cells.
- Groups that do not take part in a match of a table pattern, which the engine returns as None.
- Wrong column counts of a CSV row, and header rows that repeat a column.
- The raw `record` and `supersede` methods of the archetype services, which take an unchecked prior id.
- `SilverReader.read_invoices`, `artefact_outcome` and `BronzeIngestionService.ledger_entry`: plain reads.
- The document-type scope check of Bronze and content sniffing beyond extension and size: lookups.
- `apply_shared`, template rendering and the SQL of the migrations.
- FastAPI, GraphQL, Kafka, object storage, the virus scanner, PDF reading and live connectors: I/O.
- The wording of error messages; their kinds and order are modelled.
