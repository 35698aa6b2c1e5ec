# LiraTek, modelled and proved in Dafny

LiraTek is a point-of-sale and money-services system for phone shops: a desktop app (Electron), a shared core package,
an edge middleware, a landing page and a few import scripts. This project models the parts of it whose correctness does
not show from reading one function, and proves what they promise, for all inputs, all runs or all reachable states.
`dafny verify dfyconfig.toml` checks everything.

Where the program changes things step by step, the model does too (classes with `modifies` clauses, loops with
invariants), and each such method is tied to a function; the theorems are about those functions.

## What is proved

**The .toon pipeline** (`Text`, `Sanitizer`, `ToonPrinter`, `ToonParser`, `ToonPipeline`, `ToonDocument`,
`ToonRoundTrip`, `ToonSurvival`, `ToonColumns`, `CellText`, `ItemTable`, `ItemTree`, `ItemCodes`). Item tables are
extracted from HTML events, printed, repaired by a regular expression and read by a hand-written field loop.

- The regular expression is given as a language and as a scanner, and the two agree. Sanitizing is idempotent on every
  text, and its count is zero exactly when it changed nothing. For every line it is stated exactly when it is counted;
  of the printed rows that survive the repair, exactly those with a quote are, while of the others one may be missed
  (`QuoteNotCounted`).
- Encode then parse is the identity *if and only if* every field is trimmed, on one line and free of double quotes. No
  condition is put on the items.
- Encode, sanitize, parse gives the same rows with `"` read as `'` and nothing else changed *if and only if* every field
  is trimmed and on one line and every row survives the repair. This, too, holds for every list of items. A row survives
  when each field's backslashes are paired with something other than a quote (or the field needs no quotes), or when the
  first field that breaks this rule holds no quote and no later field needs quotes. In particular rows without
  backslashes survive.
- The streaming handlers refine a table tree: over the events of every well-nested document they emit the non-empty body
  rows, in order, one item for each row that is no placeholder, each made of its own cells.
- From document to parsed file, every heading stands over the cells it belongs to (`DocumentColumns`), and a cell's text
  is its words with single blanks between them (`NormalizeExact`).
- A generated item code is a draw not seen before. It can still repeat the stored code of an earlier item: codes are
  compared as texts and stored as numbers, so this happens if and only if an earlier code was the same number behind
  zeros.

**Desktop sessions** (`DesktopSession`, `SessionHistory`, `StoredSession`, `RestoreSession`).

- Over every run, the profits gate opens for a window if and only if the history holds a standing sign-in with an
  allowed role and a later, unrevoked, live unlock. Leaving out every other window's operations changes no answer. A
  purge returns and removes exactly the windows whose last sign-in or role check is too old.
- Over every run of writes, reads and clears with failing input and output, the cached session agrees with the session
  file if and only if no write failed half-way, left something else than what is cached, and has had nothing touch the
  file since. So agreement as such does not hold of the code; `TornWriteDisagrees` and `LateWriteDisagrees` are the runs
  that show it. Over every run it is also stated exactly when a cached read answers what a fresh process would read: an
  expired session is still answered from the cache (`ExpiredReadAnswered`), because only a read of the file looks at the
  expiry.
- For every state and every answer from outside it is stated which answer the restore flow gives (`AnswerIff`). It
  reports success exactly when it bound the window in that call, and it bound the reported user except exactly where a
  migration's login answers for another user than the one looked up (`MigrationBindsAnother`). It deletes a file that
  gave a token exactly when the service said no to it; a validation that throws never costs the file.

**Offline ids and the manifest** (`OfflineIds`, `Manifest`). Encoding and decoding are inverse exactly on the ids the
layout can issue; the manifest lists exactly the rows that decode to the device and the table; one flat set of outbox
ids is as precise as one set for each table exactly when no id the device issues for a table stands in the outbox for
another table only, and on the built manifest both give the same report; the server's comparison agrees with the PC's.

**The database path** (`DbPath`, `DbAccess`). Over every run, the path files change only by a call of a window whose
sign-in as an admin stands, or by a boot that rolls back. After a change from A to B, over every later run in which B is
missing and A present at each boot, every boot opens A. The limits of the code are stated exactly: with the environment
override set, the rollback does not last to the next boot; and for every accepted change, with either write failing or
none, it is proved when there is a way back afterwards. After a change that fails between its two writes there is none,
and every later boot opens the path that was to be left, there or not.

**Settling the OMT account** (`Coverage`, `Settlement`, `SettlementTheorems`, `Allocator`, `NettingPairs`,
`LargestRemainder`, `CommissionSplit`, `SettlementDetails`, `SettlementReference`). For every input the row-by-row
settlement comes to what a reference works out from totals alone (`SettlementIsReference`). Also for every input: what
the rows owe falls by exactly the budget less the extra; no row is covered beyond zero; extra remains only when the
whole scope on its side is covered; at most one day row and one account row are left part-covered, so the four result
groups partition the rows; the account credit applied is stated exactly, by what is owed, the budget and the choice. The
allocator itself, which changes the remaining amounts take by take, computes this outcome, and its takes add up row by
row and source by source. Netting pairs hold exactly the units two members have in common when the takes of both sides
are laid end to end, so that every unit of credit is paired once. The commission is split to the last unit, each share
less than one unit from the exact one, by the only split that serves the largest remainders first.

**Small languages and arithmetic** (`EdgeHeaders`, `ShopName`, `DotEnv`, `DebtRounding`). The IPv4 pattern accepts
exactly the printed four-byte addresses; shop names are cleaned exactly from the texts that spell a host label; an env
file is a left-biased merge; LBP repayments conserve value with a bounded gain.

## Model

| member | source | states |
|---|---|---|
| Sanitizer.ClosingIsTheMatch | scripts/sanitize_toon.py:64-65 | the scanner stops at `k` iff the pattern, as a language of tokens, matches with a group of length `k`; so there is at most one match |
| Sanitizer.SanitizeToon | scripts/sanitize_toon.py:20-44 | the loop over lines returns the line-wise repair and the number of lines it changed |
| Sanitizer.FixSplit | scripts/sanitize_toon.py:54-65 | a line that begins with a matched field is that field's replacement followed by the repair of the rest |
| Sanitizer.FixUnclosed | scripts/sanitize_toon.py:65 | when no quote closes a field, the rest of the line is left alone |
| Sanitizer.UnescapeTokens | scripts/sanitize_toon.py:55-57 | replacing the escaped quotes of a matched group removes every quote and keeps the group matchable |
| Sanitizer.FixIdempotent | scripts/sanitize_toon.py:47-65 | repairing any line twice is repairing it once |
| Sanitizer.SanitizeIdempotent | scripts/sanitize_toon.py:20-65 | a second pass over any text returns the same text and counts no line |
| Sanitizer.CountZeroIffUnchanged | scripts/sanitize_toon.py:40-44 | the count is zero iff the text is unchanged |
| ToonPrinter.EncodeToon | scripts/extract_items.py:195-208 | the printing loop gives the header line and one line for each item |
| ToonRoundTrip.EncodedLines | scripts/extract_items.py:195-208 | the printed file is the header, one line for each item, and a line end after the last |
| ToonPrinter.EscapeExact | scripts/extract_items.py:183-193 | a value is printed as it is iff it holds no comma and no quote; any other is wrapped, a quote-free one unchanged |
| ToonPrinter.EscapeCount | scripts/extract_items.py:183-193 | escaping adds exactly one backslash for each quote |
| ToonParser.ParseFields | scripts/toon_to_excel.py:50-78 | the index loop computes the field function of the line |
| ToonParser.ParseToon | scripts/toon_to_excel.py:29-82 | the whole parse, with its two error exits, computes the parse function of the text |
| ToonParser.ParsedClean | scripts/toon_to_excel.py:45-79 | whatever the file holds, every field comes out trimmed and without a line break |
| ToonParser.FieldsKeep | scripts/toon_to_excel.py:55-78 | the field loop keeps every occurrence of any character but quotes, commas and white space |
| ToonPipeline.FieldsRow | scripts/toon_to_excel.py:50-78 | a row of bare or quoted cells reads as the trimmed values they stand for |
| ToonPipeline.QuotedRoundTrip | scripts/toon_to_excel.py:46-79 | the quoted form of section 2 of RFC 4180 reads back, for every non-empty list of values |
| ToonPipeline.HeaderReads | scripts/toon_to_excel.py:36-42 | the printed header is read back as the field names, and its digits write the item count |
| ToonPipeline.HeaderGroupIff | scripts/toon_to_excel.py:36-40 | exactly which lines are read as a header, and with which group |
| ToonDocument.SplitLinesExact | scripts/toon_to_excel.py:30 | the lines of a text for every kind of line end, a carriage return with its line feed among them |
| ToonDocument.FieldsStrip | scripts/toon_to_excel.py:46-78 | white space around a line changes none of its fields |
| ToonDocument.DocumentRows | scripts/toon_to_excel.py:30-79 | a readable header with any lines is parsed line by line, whatever blank lines and margins there are |
| ToonDocument.NoneLost | scripts/toon_to_excel.py:45-79 | no more rows than lines, and with as many, each row is the reading of its own line |
| ToonRoundTrip.DirectRoundTripIff | scripts/extract_items.py:183-208 | parse after encode is the identity iff every field is trimmed, on one line and free of double quotes |
| ToonRoundTrip.UnchangedRowQuoteFree | scripts/extract_items.py:189-192 | a row that reads back unchanged held no quote |
| ToonRoundTrip.SanitizedLines | scripts/sanitize_toon.py:26-44 | sanitizing a file leaves a header without quotes alone and repairs each line on its own |
| ToonSurvival.FixLineIsFix | scripts/sanitize_toon.py:31-39 | on a printed line the shortcut for lines without an escaped quote changes nothing |
| ToonSurvival.LostEarly | scripts/extract_items.py:189-192 | a field with an unpaired backslash before a quote is closed too early, and its row is lost |
| ToonSurvival.LostLate | scripts/extract_items.py:189-192 | a quoted field that ends in an unpaired backslash swallows what follows up to the next quote, and its row is lost |
| ToonSurvival.LostQuote | scripts/toon_to_excel.py:57-69 | left alone by the repair, such a field is lost when it holds a quote |
| ToonSurvival.RestCloses | scripts/sanitize_toon.py:64-65 | the rest of a printed line closes an open field iff a later field needs quotes |
| ToonSurvival.RowSurvivesIff | scripts/sanitize_toon.py:47-65 | for every row of trimmed one-line fields, the repaired line reads as the row with apostrophes iff the row survives |
| ToonSurvival.PipelineExact | scripts/toon_to_excel.py:20-82 | for every list of items, parse after sanitize after encode gives the rows with apostrophes iff every field is trimmed and on one line and every row survives |
| ToonSurvival.PipelineRoundTrip | scripts/sanitize_toon.py:2-8 | the equation holds for every item list with trimmed, one-line fields without backslash |
| ToonColumns.DirectColumns | scripts/extract_items.py:196-207 | printed and parsed, each row holds its item's category, name, code, price, cost, supplier and unit under those headings |
| ToonColumns.PipelineColumns | scripts/extract_items.py:196-207 | the same through the repair, with apostrophes, whenever the fields are clean and the rows survive |
| ToonColumns.DocumentColumns | scripts/extract_items.py:94-207 | from document to file: the headings stand over the cells of the table they belong to, price over the seventh and cost over the eighth |
| Sanitizer.LineChangedIff | scripts/sanitize_toon.py:31-42 | every line whatsoever is counted iff it holds an escaped quote and a matched field holds a quote or needs no quotes |
| ToonSurvival.LineCountedIff | scripts/sanitize_toon.py:39-42 | the line of a clean row that survives the repair is counted iff a field of the row holds a quote |
| ToonSurvival.QuoteNotCounted | scripts/sanitize_toon.py:39-42 | a row that does not survive, holds a quote and is not counted |
| ItemTable.PadRow | scripts/extract_items.py:95-101 | the row is cut or padded to the column count and normalized |
| ItemTable.NextCode | scripts/extract_items.py:141-145 | the first draw not seen before, with every earlier draw seen |
| ItemTable.ItemTableParser.HandleStartTag | scripts/extract_items.py:63-74 | the new state after a start tag |
| ItemTable.ItemTableParser.HandleEndTag | scripts/extract_items.py:76-88 | the new state after an end tag, with the emitted row |
| ItemTable.ItemTableParser.HandleData | scripts/extract_items.py:90-92 | text is added only inside a cell and outside a label |
| ItemTable.ItemTableParser.EmitRow | scripts/extract_items.py:94-139 | one row's effect on the items, the codes seen and the draws; nothing else changes |
| ItemTable.ItemTableParser.GenerateRandomCode | scripts/extract_items.py:141-145 | the loop returns the first unseen draw, or is still drawing when the draws are used up |
| ItemTable.ItemTableParser.Feed | scripts/extract_items.py:161-167 | the state after a stream of events is the run of the handlers over it |
| ItemTree.HandlersReadTheTable | scripts/extract_items.py:63-139 | over every well-nested document the handlers emit its non-empty body rows, in order |
| ItemTree.TableItems | scripts/extract_items.py:63-139 | while the draws last, the items of every well-nested document are made, one each and in order, of its non-empty body rows that are no placeholder |
| ItemTree.RunCell | scripts/extract_items.py:84-92 | a cell collects its text without the currency labels |
| ItemTree.RunRow | scripts/extract_items.py:67-86 | a row collects its cells in order |
| ItemTree.RunBody | scripts/extract_items.py:67-83 | a body emits its rows that have a cell |
| ItemTree.NormalizeClean | scripts/extract_items.py:100-101 | a normalized value is trimmed, on one line, and has no white space but blanks |
| CellText.NormalizeExact | scripts/extract_items.py:100-101 | of every text made of words with white space between and around them, normalizing gives the words with single blanks between them; of white space, nothing |
| CellText.EveryText | scripts/extract_items.py:100-101 | every text is white space or is so made, so the rule covers all texts |
| CellText.NormalizeGap | scripts/extract_items.py:100-101 | white space between two texts becomes one blank |
| ItemTree.RunPrintable | scripts/extract_items.py:94-139 | over every event stream, every emitted item is trimmed and on one line in each column |
| ItemTree.TableToSpreadsheet | scripts/extract_items.py:161-208 | from document to parsed rows: the emitted items with apostrophes, iff every row survives the repair |
| ItemCodes.EmitAllExact | scripts/extract_items.py:94-139 | one item for each row that is no placeholder, in order, each column made of its own cell |
| ItemCodes.StoredCodeExact | scripts/extract_items.py:134-136 | a code of digits is stored as the number it writes, without leading zeros; any other as it is |
| ItemCodes.WithoutSpacesExact | scripts/extract_items.py:128-131 | the blanks of a code go and nothing else does |
| ItemCodes.RunAccounted | scripts/extract_items.py:134-139 | over every event stream the codes seen account for the codes of the items, and conversely |
| ItemCodes.GeneratedCodeRepeatsIff | scripts/extract_items.py:132-145 | after any event stream the next generated code was not seen; it repeats an item's stored code iff a code seen is the same number behind zeros |
| ItemCodes.RepeatedCode | scripts/extract_items.py:132-145 | two literal rows, with codes 0123456789012 and none, that get the same stored code for the draw 123456789012 |
| DesktopSession.SessionMap.SetSession | electron-app/session.ts:198-207 | the map after a sign-in: a new entry without an unlock |
| DesktopSession.SessionMap.ClearSession | electron-app/session.ts:209-211 | the map after a sign-out |
| DesktopSession.SessionMap.GetSession | electron-app/session.ts:213-217 | returns the entry and stamps the activity |
| DesktopSession.SessionMap.RequireRole | electron-app/session.ts:219-227 | the three answers, and the activity stamp in each |
| DesktopSession.SessionMap.GrantProfitsUnlock | electron-app/session.ts:247-255 | stamps the unlock of a signed-in window and nothing else |
| DesktopSession.SessionMap.RevokeProfitsUnlock | electron-app/session.ts:257-262 | removes the unlock and nothing else |
| DesktopSession.SessionMap.HasProfitsUnlock | electron-app/session.ts:267-274 | true iff the window has a live unlock; changes nothing |
| DesktopSession.SessionMap.RequireProfitsAccess | electron-app/session.ts:283-296 | the gate's answer from the state before, and the activity stamp |
| DesktopSession.SessionMap.PurgeExpiredSessions | electron-app/session.ts:308-317 | deletion while walking the live map gives the idle ids in insertion order and leaves exactly the other entries, in order |
| DesktopSession.StepValid | electron-app/session.ts:198-317 | every operation keeps the map's order and entries in step |
| SessionHistory.SessionIff | electron-app/session.ts:198-317 | over every run a window has a session iff a sign-in of it still stands, and the entry is what the history says |
| SessionHistory.ProfitsGateIff | electron-app/session.ts:240-296 | over every run the gate opens iff there is a standing sign-in with an allowed role and a later, unrevoked, live unlock |
| SessionHistory.AuthorizeIff | electron-app/session.ts:219-227 | over every run, each of the three answers of the role check, told by the sign-in that stands |
| SessionHistory.GateRefusesIff | electron-app/session.ts:283-296 | over every run, which refusal the gate gives |
| SessionHistory.StepIsLocal | electron-app/session.ts:198-317 | an operation changes only its own window's entry, except the purge |
| SessionHistory.WindowsIndependent | electron-app/session.ts:198-317 | leaving out the other windows' operations changes nothing a window can see |
| SessionHistory.GateIndependent | electron-app/session.ts:283-296 | the same for the gate's answer |
| SessionHistory.PurgeExact | electron-app/session.ts:298-317 | after any run the purge returns, without repetition, exactly the windows whose latest sign-in or role check is too old, and keeps the rest |
| StoredSession.SessionFile.WriteSessionFile | electron-app/session.ts:48-68 | file and cache after a write that is refused, fails before, during or at the end, or is done |
| StoredSession.SessionFile.ClearEncryptedSession | electron-app/session.ts:171-183 | file and cache after a clear, with a failing deletion |
| StoredSession.SessionFile.GetEncryptedSession | electron-app/session.ts:101-166 | the answer, the file and the cache after a read, in every case of cache, policy and failure |
| StoredSession.SessionFile.ValidateSessionToken | electron-app/session.ts:188-194 | the stored session iff its token is the one given |
| StoredSession.SpoiledStays | electron-app/session.ts:48-183 | while a failed write has the file spoiled, the file is what it left and the cache what it was |
| StoredSession.CacheAgreesIff | electron-app/session.ts:48-183 | over every run the cache agrees with the file iff no write that failed half-way has left something else than what is cached, with nothing touching the file since |
| StoredSession.NullMeansIff | electron-app/session.ts:101-183 | over every run a cached null means an absent file or one refused by policy, except iff a write has failed half-way under it with nothing touching the file since |
| StoredSession.TornWriteDisagrees | electron-app/session.ts:59-68 | a run with a torn write: the old session is answered, the file holds none |
| StoredSession.LateWriteDisagrees | electron-app/session.ts:59-68 | a run with a write that fails at its end: no session is answered, the file holds one |
| StoredSession.CachedReadIff | electron-app/session.ts:101-156 | over every run a read answers what a fresh process would iff the cached session has not expired and no failed write has spoiled the file (an expired session left under a cached null aside) |
| StoredSession.FreshReadIff | electron-app/session.ts:101-160 | exactly which session a fresh process reads, by keychain, packaging and age |
| StoredSession.ReadDeletesIff | electron-app/session.ts:101-166 | a read deletes the file iff it looked and could not use what it found, and the deletion works; a file refused by policy stays |
| StoredSession.NeverInTheClear | electron-app/session.ts:48-68 | over every run no session is written in the clear by a packaged build or where the keychain is available |
| StoredSession.ExpiredReadAnswered | electron-app/session.ts:101-156 | a run in which an expired session is answered from the cache |
| StoredSession.ReadIsStable | electron-app/session.ts:101-166 | after a read that finds a session, the file is as it was and every later read finds the same |
| RestoreSession.Restore | electron-app/handlers/authHandlers.ts:213-443 | state and answer after the flow, for every combination of answers and failures |
| RestoreSession.MigrateLegacy | electron-app/handlers/authHandlers.ts:362-434 | state and answer after the migration of an old session file |
| RestoreSession.SuccessMeansBound | electron-app/handlers/authHandlers.ts:213-443 | a reported success bound the window in this call, and to the reported user iff it is no migration whose login answers for another user; a migration binds the user looked up; without success no session changed; a valid localStorage token succeeds and leaves the file and its cache alone |
| RestoreSession.AnswerIff | electron-app/handlers/authHandlers.ts:213-443 | for every state and every answer from outside: success iff the localStorage token is valid, the file gives a token the service accepts, or an old session is migrated, each with its own user and token reported and bound; failure iff a call of the migration throws; no session otherwise |
| RestoreSession.LegacyFate | electron-app/handlers/authHandlers.ts:362-434 | what becomes of an old session file: replaced by the new token, deleted, or kept |
| RestoreSession.MigrationBindsAnother | electron-app/handlers/authHandlers.ts:367-410 | a migration that reports one user and binds another |
| RestoreSession.ThrowKeepsFile | electron-app/handlers/authHandlers.ts:299-361 | once the file has given a token, a validation that throws never costs the file |
| RestoreSession.FileDeletedIff | electron-app/handlers/authHandlers.ts:299-361 | a file that gave a token is deleted iff the localStorage token failed, the service said no and the deletion worked |
| RestoreSession.FlowKeepsAgreementIff | electron-app/handlers/authHandlers.ts:213-443 | the flow keeps cache and file in agreement iff it is no migration whose own write fails half-way |
| OfflineIds.DecodeEncode | packages/core/src/offline/idRange.ts:163-182 | decoding undoes encoding on the whole layout |
| OfflineIds.EncodeLayout | packages/core/src/offline/idRange.ts:4-10 | the layout itself, a trillion for each PC and a thousand million for each table |
| OfflineIds.EncodeDecodeIff | packages/core/src/offline/idRange.ts:163-182 | encoding undoes decoding iff the id is one the layout can issue |
| OfflineIds.RangeIsDecode | electron-app/offline/manifest.ts:56-61 | the open interval holds exactly the ids that decode to the device and the table |
| OfflineIds.RangesDisjoint | electron-app/offline/manifest.ts:56-61 | ranges of different devices or tables share no id |
| Manifest.BuildManifest | electron-app/offline/manifest.ts:50-73 | the loop builds the manifest function of the key tables, the copy and the outbox |
| Manifest.BuiltEntries | electron-app/offline/manifest.ts:53-68 | which tables are listed and unexplained, and with which ids |
| Manifest.ManifestExact | electron-app/offline/manifest.ts:50-73 | an id is listed iff it is a row of a readable key table and decodes to this device and table; lists are ascending and non-empty; unexplained ids are the listed ones not in the outbox |
| Manifest.TablesReadExact | electron-app/offline/manifest.ts:53-55 | the tables counted as read are the key tables of the copy with a safe name |
| Manifest.FlatIsPreciseIff | electron-app/offline/manifest.ts:43-67 | over every working copy the flat set finds what the table's own set finds iff no id this device issues for the table stands in the outbox for another table only |
| Manifest.FlatIsPrecise | electron-app/offline/manifest.ts:43-67 | with every outbox id in its own table's range, both give the same unexplained ids |
| Manifest.FlatManifest | electron-app/offline/manifest.ts:43-73 | the built manifest reports, from the flat set, exactly the non-empty differences table by table |
| Manifest.ServerAgrees | packages/core/src/services/OfflineEventService.ts:249-266 | a server that received the outbox's ids reports exactly what the PC found |
| DbPath.ChangeResolvesIff | packages/core/src/db/dbPath.ts:27-44 | a completed change is what the next resolution gives iff no override, or only the same path, stands before it |
| DbPath.PathSettings.ChangePath | electron-app/handlers/dbHandlers.ts:791-832 | the two files after a change, with each write failing or not; success iff accepted and both writes done |
| DbPath.ChangeExact | electron-app/handlers/dbHandlers.ts:791-818 | a change by no admin, to an empty or missing path, or with its first write failing leaves everything as it was; any other remembers the resolved path and, unless its second write fails, configures the new one |
| DbPath.ResolveExact | packages/core/src/db/dbPath.ts:27-63 | the override if there is one, else the path file unless blank, else the default |
| DbAccess.ChangePathBy | electron-app/handlers/dbHandlers.ts:791-832 | the handler with its role check, on the sessions and the path files |
| DbAccess.OnlyAdminsChange | electron-app/handlers/dbHandlers.ts:793-818 | over every run of sessions, changes, boots and vanishing files a call changes nothing unless a sign-in of its window as an admin stands; with one, a good path and no fault it does what it should |
| DbAccess.FilesChangeOnlyBy | electron-app/handlers/dbHandlers.ts:791-818 | over every run the path files change only by such a call or by a boot that rolls back |
| DbPath.PathSettings.InitializeDatabase | electron-app/main.ts:360-383 | the files after a boot and the database it opens |
| DbPath.BootOpensExistingIff | electron-app/main.ts:371-383 | a boot opens an existing database iff the configured or the remembered one exists |
| DbPath.BootTwiceIff | electron-app/main.ts:360-383 | the next boot opens the same database iff no override was rolled back from |
| DbPath.RollbackInvariant | electron-app/main.ts:360-383 | over every run the two files remember the change, or its rollback |
| DbPath.RollbackSticks | electron-app/main.ts:360-383 | after a change from A to B every later boot with B missing and A present opens A |
| DbPath.CanRollBackIff | electron-app/main.ts:371-383 | some presence of files makes a boot roll back iff a path is remembered that is not the configured one |
| DbPath.WayBackIff | electron-app/handlers/dbHandlers.ts:813-818 | after every accepted change, with either write failing or none, exactly when there is a way back |
| DbPath.UsualWayBackIff | electron-app/handlers/dbHandlers.ts:813-818 | without an override: iff the change is done and to another path, or failed before its first write and there was one |
| DbPath.NeverRollsBackIff | electron-app/main.ts:360-383 | over every later run without a path change every boot opens the configured path iff there is no way back |
| DbPath.HalfChangeForgets | electron-app/handlers/dbHandlers.ts:813-818 | after a change that fails between its writes, every later boot without another change opens the path that was to be left |
| Coverage.CoverFrame | packages/core/src/utils/fifoCoverage.ts:65-83 | covering moves amounts toward zero, never beyond, and only on the queue and its side |
| Coverage.CoverSpends | packages/core/src/utils/fifoCoverage.ts:58-61 | exactly the smaller of the budget and what is open is spent |
| Coverage.CoverIsFifo | packages/core/src/utils/fifoCoverage.ts:49-52 | while an earlier row is open no later row is touched |
| Coverage.CoverCloses | packages/core/src/utils/fifoCoverage.ts:74-80 | a budget that is large enough closes the side |
| Coverage.CoverAppend | packages/core/src/utils/fifoCoverage.ts:65-83 | covering two queues in a row is covering the first and then the second with what is left |
| Coverage.NetConserves | packages/core/src/utils/accountSettleAllocation.ts:274-332 | netting keeps the total and moves no amount beyond zero |
| Coverage.NetCloses | packages/core/src/utils/accountSettleAllocation.ts:280-300 | netting without a tighter cap closes the debts or the credits |
| Coverage.CoverInOrder | packages/core/src/utils/accountSettleAllocation.ts:473-477 | covering a queue again keeps it served oldest first against the original amounts |
| Settlement.NettedOneSided | packages/core/src/utils/accountSettleAllocation.ts:334-342 | after netting, only one side is open among the day rows, among the account rows and in the scope |
| SettlementReference.NettedLanes | packages/core/src/utils/accountSettleAllocation.ts:334-342 | what every lane has open after the three nettings, from the totals of the input |
| SettlementReference.OwedExact | packages/core/src/utils/accountSettleAllocation.ts:344-361 | what is owed and the credit pool, from the totals of the input |
| SettlementReference.SettlementIsReference | specs/322-omt-amount-first-settle/contracts/allocator.md:85-93 | for every input the row-by-row settlement comes to what a reference works out from totals alone: extra, credit applied, what the scope still owes, and whether too much credit was chosen |
| Settlement.SettledOrderly | packages/core/src/utils/accountSettleAllocation.ts:469-487 | every settlement leaves every queue served oldest first |
| SettlementTheorems.SettlementConserves | packages/core/src/utils/accountSettleAllocation.ts:412-467 | what the rows owe falls by the budget less the extra; no row goes beyond zero; the extra has the budget's sign and is no more than it |
| SettlementTheorems.ExtraOnlyBeyondScope | packages/core/src/utils/accountSettleAllocation.ts:414-467 | extra remains only when every row in scope on its side is covered |
| SettlementTheorems.AtMostOnePartial | packages/core/src/utils/accountSettleAllocation.ts:469-487 | at most one day row and at most one account row are part-covered |
| SettlementTheorems.SettledOneSided | packages/core/src/utils/accountSettleAllocation.ts:473-481 | at the end only one side is open among the day rows and among the account rows |
| SettlementTheorems.CreditAsChosen | specs/322-omt-amount-first-settle/contracts/allocator.md:85-93 | for every input exactly how much account credit is applied, told by what is owed, the budget and the choice |
| SettlementTheorems.CreditInFull | specs/322-omt-amount-first-settle/contracts/allocator.md:105-125 | when the choice is not too high, all of it is applied iff nothing was chosen, the shop pays without the whole-credit rule, or the debts and the money received suffice for it |
| SettlementTheorems.ExtraBeyondCredit | specs/322-omt-amount-first-settle/contracts/allocator.md:91-92 | extra money received stands only beyond the account credit that was chosen |
| SettlementTheorems.ScopeOpens | packages/core/src/utils/accountSettleAllocation.ts:339-347 | after netting the scope is one-sided: what is open on either side is told by what it owes |
| SettlementTheorems.SettleMoves | packages/core/src/utils/accountSettleAllocation.ts:344-467 | from netting to the end: amounts only shrink, and the credit pool loses exactly the credit applied |
| Allocator.Run.Record | packages/core/src/utils/accountSettleAllocation.ts:262-271 | one take: the row's amount, the row's total and the source's total; nothing for an empty take |
| Allocator.Run.CoverQueue | packages/core/src/utils/fifoCoverage.ts:65-83 | the loop covers the queue as `Cover` does and records what it spent |
| Allocator.Run.NetQueues | packages/core/src/utils/accountSettleAllocation.ts:280-332 | both sides take equal amounts, recorded as netting |
| Allocator.Run.SpendBudget | packages/core/src/utils/accountSettleAllocation.ts:421-464 | the budget covers the queue, tagged waive first, then commission, then money |
| Allocator.NetAllQueues | packages/core/src/utils/accountSettleAllocation.ts:334-342 | the three nettings in their order |
| Allocator.ApplyCredit | packages/core/src/utils/accountSettleAllocation.ts:373-385 | the chosen credit nets against the scope when the shop pays |
| Allocator.SpendMoney | packages/core/src/utils/accountSettleAllocation.ts:414-467 | the money step in either direction, with its extra, its credit and its tags |
| Allocator.Allocate | packages/core/src/utils/accountSettleAllocation.ts:225-467 | the run computes the outcome the theorems are about; its takes add up row by row and source by source |
| Allocator.Classify | packages/core/src/utils/accountSettleAllocation.ts:488-506 | every row is in exactly one of the four groups, the one its outcome gives it |
| NettingPairs.AllocateFifo | packages/core/src/utils/fifoCoverage.ts:65-83 | the loop returns the takes of the queue |
| NettingPairs.TakesSum | packages/core/src/utils/fifoCoverage.ts:57-61 | the takes add up to the smaller of the budget and what is open |
| NettingPairs.TakesCover | packages/core/src/utils/fifoCoverage.ts:65-83 | applying the list of takes covers the queue |
| NettingPairs.NettingPieces | packages/core/src/utils/accountSettleAllocation.ts:285-300 | the takes of a netting add up to the amount netted on both sides |
| NettingPairs.PairUp | packages/core/src/utils/accountSettleAllocation.ts:302-327 | the two-pointer loop adds to each pair of different members exactly the units they have in common, and nothing to any other |
| NettingPairs.PairNetting | packages/core/src/utils/accountSettleAllocation.ts:280-332 | the same for the takes of one netting |
| NettingPairs.CreditFullyPaired | packages/core/src/utils/accountSettleAllocation.ts:302-327 | what a member's credit paid, over all members whose debt was netted, is what was taken of its credit |
| NettingPairs.PairedSwaps | packages/core/src/utils/accountSettleAllocation.ts:302-327 | the same pairing seen from the debts, so that they are fully paired too |
| LargestRemainder.AllocateProportional | packages/core/src/utils/largestRemainder.ts:55-100 | one share for each row, summing to the total exactly; in magnitude the largest-remainder split over the clamped weights, or over equal ones when there are none |
| LargestRemainder.HandOut | packages/core/src/utils/largestRemainder.ts:77-94 | the loop over the sorted remainders yields the largest-remainder split |
| LargestRemainder.LeftOver | packages/core/src/utils/largestRemainder.ts:80-94 | the units left over are fewer than the rows, so none is lost at the end of the loop |
| LargestRemainder.ApportionedUnique | packages/core/src/utils/largestRemainder.ts:84-89 | there is only one such split |
| LargestRemainder.EffectiveExact | packages/core/src/utils/largestRemainder.ts:69-75 | weights of zero or less count as none while another row has weight; when none has any, all count the same |
| LargestRemainder.WithinOneUnit | packages/core/src/utils/largestRemainder.ts:2-12 | every share is less than one unit from the exact one |
| LargestRemainder.WholeShareExact | packages/core/src/utils/largestRemainder.ts:2-12 | a row whose exact share is whole gets exactly that |
| LargestRemainder.Monotone | packages/core/src/utils/largestRemainder.ts:2-12 | more weight never gets less |
| CommissionSplit.AllocateCommission | packages/core/src/utils/accountSettleAllocation.ts:509-580 | which rows the commission is dealt over, by which weights and on top of what; and when no row shares in it |
| CommissionSplit.CommissionExact | packages/core/src/utils/accountSettleAllocation.ts:42-51 | the shares add up to the commission exactly, only sharing rows get any, none gets more than its estimate up to the sum of the estimates and none less from there on |
| CommissionSplit.MoreOwedNeverLess | packages/core/src/utils/accountSettleAllocation.ts:548-579 | of a commission dealt by what rows owed, a row that owed more never gets less |
| CommissionSplit.HigherEstimateNeverLess | packages/core/src/utils/accountSettleAllocation.ts:551-552 | up to the sum of the estimates, a row with a higher one never gets less |
| SettlementDetails.Steps | packages/core/src/utils/accountSettleAllocation.ts:334-385 | the three or four nettings of a settlement, each finding what the one before left, from the original amounts to those after the credit |
| SettlementDetails.PairSettlement | packages/core/src/utils/accountSettleAllocation.ts:273-385 | over all nettings of a settlement, each pair of different members gets exactly the units they have in common |
| SettlementDetails.SettlementFullyPaired | packages/core/src/utils/accountSettleAllocation.ts:273-385 | over a whole settlement, what a member's credit paid over all members is what the nettings took of it |
| SettlementDetails.SplitCommission | packages/core/src/utils/accountSettleAllocation.ts:509-580 | the commission of a settlement is split to the last unit over the rows that share in it, which, when it does not cover, are debts the settlement leaves closed; reported as having none iff there is no such row |
| EdgeHeaders.Ipv4IsLanguage | middleware.js:63-64 | the test by splitting recognizes the pattern's language |
| EdgeHeaders.OctetIsByte | middleware.js:63-64 | an accepted octet is the decimal text of a byte |
| EdgeHeaders.PrintedAccepted | middleware.js:63-64 | every four bytes print to an accepted text, and no two print alike |
| EdgeHeaders.AcceptedPrinted | middleware.js:63-64 | every accepted text is the printing of four bytes |
| EdgeHeaders.PlainIpIff | middleware.js:67-73 | an address is forwarded iff, trimmed, it is four printed bytes or has a colon and the shape of IPv6 |
| EdgeHeaders.BuildUpstreamHeaders | middleware.js:84-99 | the two headers hold the usable secret and the platform's address or are missing; the host is dropped; the rest is the visitor's |
| EdgeHeaders.ClientCopiesIgnored | middleware.js:75-99 | the client's own copies of the two headers and of the host have no influence |
| ShopName.CleanName | landing/main.js:69-78 | the successive rewrites compute the cleaning function |
| ShopName.CleanedIff | landing/main.js:69-78 | cleaning gives a label iff the trimmed, lower-cased text spells it with an optional scheme, domain and path |
| ShopName.CleanIdempotent | landing/main.js:69-78 | cleaning a cleaned name returns it |
| ShopName.HostAndUrlsClean | landing/main.js:69-78 | a label, its host name and every http or https URL on it clean to the label |
| DotEnv.DefinitionIff | electron-app/main.ts:52-61 | a line defines a key and a value iff, trimmed, it is no comment and reads as a text for the key, the first equals sign and a text for the value |
| DotEnv.LoadDotEnv | electron-app/main.ts:47-67 | the loop computes the loaded environment; a missing file changes nothing |
| DotEnv.LoadedIsMerge | electron-app/main.ts:51-66 | a key has a value afterwards iff it had it before, or was not set and its first definition in the file gives it |
| DotEnv.LoadIdempotent | electron-app/main.ts:47-67 | loading twice is loading once |
| DebtRounding.RepayLbp | README.md:722-738 | the reduction computed by the branches |
| DebtRounding.PaymentOutcome | README.md:727-738 | a snapped payment leaves the whole dollars at a gain between -1000 and 6000 LBP; any other gains nothing |
| DebtRounding.SnapsIff | README.md:723-731 | a payment snaps iff it is less than 1000 LBP from the price of the fraction rounded up to whole 5000 LBP |
| DebtRounding.WorkedExample | README.md:704-716 | the worked example of the text |
| DebtRounding.Conservation | README.md:722-738 | over every sequence of payments, LBP received is rate times debt removed plus gain, with the gain bounded for each snapped payment |

## Left out

- ItemTable.ItemTableParser.EmitRow: number parsing and printing (`parse_number`, `str` of a float) are two input functions, assumed in `TableToSpreadsheet` to print trimmed text on one line.
- ItemTable.ItemTableParser.GenerateRandomCode: the random source is a finite list of draws; that the loop ends is not claimed.
- ItemTree.HandlersReadTheTable: rows nested in rows, cells in cells, bodies in bodies, and labels that hold a label or a table part are outside the tree form; `RunPrintable` and `RunAccounted` hold for them too.
- HTML tokenisation, Excel output and command-line handling of the scripts; reading and writing text files, with Python's translation of line ends (texts are taken as read); digits other than ASCII digits in `\d` and `isdigit`.
- DesktopSession: a role is one of the two declared ones or any other name; `isAuthenticated` reads off one line.
- StoredSession: encryption, JSON and the file system are abstract: a file is absent, decodable one way or the other, or garbage. The keychain and the packaging do not change within a process. `storeEncryptedSession` and `storeSessionTokenToFile` only wrap the write.
- RestoreSession.Restore: the awaited calls are answered from outside, each with its own clock reading, and no other handler runs in between; the login's own effects are not modelled.
- Other handlers of `authHandlers.ts` (login, logout, `getCurrentSessionToken`, ending other sessions): a check and a call into a service each.
- Manifest.BuildManifest: the list of id tables is a parameter, each table once and at most a thousand; `offlineTableIndex` throws for a table outside the list, which is a precondition here.
- Manifest.ServerAgrees: schema validation, review items and read writes of the server's comparison; its result is a map, so its order by table name is not modelled.
- DbPath.PathSettings.ChangePath: each write of the two files is done or not done; a torn write of a path file is not modelled, nor are failing writes at boot.
- DbPath.RollbackSticks: the default path is taken to be non-empty and trimmed, as the joined default paths are.
- Allocator.Allocate: amounts are integers in minor units with the tolerances the callers pass (half a unit at most); rows come already sorted, and row identities are positions. A take found for a row is recorded at once rather than after the list of takes is complete; `TakesCover` says that this comes to the same.
- Allocator: the deferred cash-out commission, a sum over closed credits. Where the contract document says that no commission take is ever made, the later code makes them when the commission covers; the model follows the code.
- LargestRemainder.AllocateProportional: totals and weights are whole numbers of one unit, as the settlement calls it, and proportions are exact; floating-point shares and other units are not modelled.
- CommissionSplit.AllocateCommission: gives an amount for each row, so a listed share of zero and a row that is not listed look the same.
- NettingPairs.PairNetting: pairs are keyed by the two members rather than by a text of them.
- EdgeHeaders: the IPv6 pattern is only its character class; header names are taken as lower-case.
- ShopName: lower-casing is ASCII.
- DebtRounding: amounts are real numbers; floating-point rounding is not modelled.
- Everything else in the repository: the other desktop handlers, the web frontend and backend services, licensing, backups, updates, printing and voice.
