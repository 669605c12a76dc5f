# Smart-contract audit service: a verified model of its core

The service takes Solidity source code and sends it to a language model for a security
audit. It can render the findings as a PDF report. It can also anchor the result: the
audit text is pinned to IPFS and the (sender, code hash) pair is to be bound to the IPFS
locator by an on-chain `AuditStorage` ledger. In the code as shipped the ledger call
`sendToBlockchain` is a simulation stub that returns a fixed transaction hash, so nothing
reaches the ledger; the ledger itself is modelled from its contract's test suite. This
project models four pieces of that system in Dafny and proves properties of each.

- `audit_ledger.dfy` (module `AuditLedger`): the `AuditStorage` contract as its test suite
  pins it down. The class `AuditStorage` holds the storage and the latest block time.
  `storeAudit` writes to the sender's entry; `getAudit` and `getAuditedCodeHashes` read any
  account. The pure function `Store` specifies a write, and the lemmas about it state the
  invariants: no duplicate hashes, hashes listed exactly when written, timestamps in the
  past, isolation between senders, and last write wins.
- `ai_service.dfy` (module `AiService`): `chooseModel`, the prompt, the fence-stripping
  chain applied to the model's reply, and `callAI`'s settle contract. The HTTP POST and
  `JSON.parse` are parameters.
- `pdf_helper.dfy` (module `PdfHelper`): the HTML page `generateAuditPDF` renders,
  character for character, stylesheet included. Also the path the PDF is written to.
- `store_audit_helper.dfy` (module `StoreAuditHelper`): `storeAuditHelper`, the ordered
  hash, upload, ledger and database-update sequence. Every remote step is a parameter,
  and the `Audit` table is a class whose row sequence is updated in place. `Anchor` is the
  function that specifies the method.
- `strings.dfy` (module `Strings`) and `wrappers.dfy` (module `Wrappers`): the JavaScript
  string operations the core relies on, plus `Option` and `Result`.

The system's design description promises more than the code does; where the two
disagree, the model follows the code:

- The design routes a contract by its line count to one of four model tiers (light
  below 100 lines, medium below 300, coder below 800, long otherwise).
  `chooseModel` computes the line count, but its threshold branches are commented
  out, so every input gets the light model.
- The design asks for one error contract. `callAI` resolves with an error-shaped object
  on every failure of the request or the parse, and it only rejects when `code` has no
  `split` method.
- The design describes an audit status state machine, a scheduler and deferred
  execution. None of these exists in the modelled files.

## Model

| member | source | states |
|---|---|---|
| AuditLedger.Store | test/AuditStorage.test.js:20-25 | after a write the sender reads back the new locator and block time; every other (address, hash) pair and every other account is unchanged; the hash is listed for the sender |
| AuditLedger.StorePreservesValid | test/AuditStorage.test.js:60-67 | a write in a later block keeps every account well formed: no duplicate hashes, a hash listed exactly when it has an entry, every timestamp positive and no later than the current block |
| AuditLedger.OverwriteRefreshes | test/AuditStorage.test.js:48-67 | rewriting a listed hash keeps the hash list as it was, replaces the locator and makes the timestamp strictly larger |
| AuditLedger.LastWriteWins | test/AuditStorage.test.js:27-32 | two writes by the same sender for the same hash leave the same ledger as the second write alone |
| AuditLedger.HashCountMatchesEntries | test/AuditStorage.test.js:34-41 | in a well-formed ledger the length of a sender's hash list equals the number of its entries |
| AuditLedger.StoreAllIsolated | test/AuditStorage.test.js:83-91 | any sequence of writes by one sender leaves every other address's account unchanged |
| AuditLedger.StoreAppendsNewHash | test/AuditStorage.test.js:34-41 | a hash the sender has not listed is appended at the end of its list |
| AuditLedger.StoreAllAppends | test/AuditStorage.test.js:68-82 | writing distinct new hashes appends them to the sender's list in the order written |
| AuditLedger.StoreAllReadsBack | test/AuditStorage.test.js:68-82 | when the written hashes are distinct, each write reads back its own locator and time afterwards |
| AuditLedger.FreshLedgerListsEveryWrite | test/AuditStorage.test.js:68-82 | on a fresh deployment, n distinct writes list exactly those n hashes and each reads back its locator |
| AuditLedger.AuditStorage.constructor | test/AuditStorage.test.js:121-131 | a fresh deployment holds no entries and is well formed |
| AuditLedger.AuditStorage.StoreAudit | test/AuditStorage.test.js:132-137 | `storeAudit` applies `Store` for the transaction sender, advances the block time and keeps the storage well formed |
| AuditLedger.AuditStorage.GetAudit | test/AuditStorage.test.js:43-47 | `getAudit` returns the stored pair; the timestamp is zero exactly when the hash is not listed for that address, in which case the locator is empty; it never exceeds the block time |
| AuditLedger.AuditStorage.GetAuditedCodeHashes | test/AuditStorage.test.js:60-67 | `getAuditedCodeHashes` returns the address's list, which has no duplicates and holds exactly the hashes with a positive timestamp |
| AuditLedger.StoreEach | test/AuditStorage.test.js:71-75 | the 20-write loop leaves the ledger equal to `StoreAll` of the writes and the block time at the last write's, and keeps the storage well formed |
| Strings.SplitLength | backend/services/aiService.js:13 | `split` on one character yields one more piece than there are separators |
| Strings.JoinSplit | backend/services/aiService.js:13 | joining the pieces of a split with the separator gives back the string |
| Strings.SplitPiecesSeparatorFree | backend/services/aiService.js:13 | no piece returned by `split` contains the separator, so `SplitJoin` applies to the pieces of any split |
| Strings.SplitJoin | backend/services/aiService.js:13 | splitting a join of separator-free pieces gives back the pieces |
| Strings.Trim | backend/services/aiService.js:51 | `trim` leaves no whitespace at either end and never grows the string |
| Strings.TrimIsInfix | backend/services/aiService.js:51 | `trim` only cuts characters off the two ends |
| Strings.TrimUnique | backend/services/aiService.js:51 | any split of a string into whitespace, a trimmed middle and whitespace has `trim`'s result as its middle |
| AiService.LineCountIsNewlinesPlusOne | backend/services/aiService.js:13 | the line count is the number of newline characters plus one |
| AiService.ChooseModel | backend/services/aiService.js:12-20 | a string is routed successfully, anything else throws a TypeError |
| AiService.RouterIgnoresSize | backend/services/aiService.js:15-19 | with the thresholds disabled, any two sources get the same model, the light one |
| AiService.PromptCarriesCode | backend/services/aiService.js:25-35 | the source text appears verbatim in the prompt |
| AiService.StripLeading | backend/services/aiService.js:51 | `replace(/^p/, '')` removes `p` once when the string starts with it and otherwise changes nothing |
| AiService.StripTrailing | backend/services/aiService.js:51 | `replace(/p$/, '')` removes `p` once when the string ends with it and otherwise changes nothing |
| AiService.CleanReply | backend/services/aiService.js:51 | the cleaned reply has no whitespace at either end and is no longer than the raw reply |
| AiService.CleanReplyIsInfix | backend/services/aiService.js:51 | cleaning only cuts characters off the two ends of the reply |
| AiService.CleanUnfenced | backend/services/aiService.js:51 | a reply with no fence at either end is only trimmed |
| AiService.CleanJsonFenced | backend/services/aiService.js:51 | a trimmed payload between a ```json line and a closing ``` comes back exactly |
| AiService.CleanPlainFenced | backend/services/aiService.js:51 | the same for a payload between bare ``` fences |
| AiService.CleanKeepsFenceBeforeNewline | backend/services/aiService.js:51 | `trim` runs last, so a closing fence followed by a newline is kept |
| AiService.CleanStripsJsonFenceOnce | backend/services/aiService.js:51 | a doubled ```json prefix is removed only once and leaves "json" in front of the payload |
| AiService.CallAI | backend/services/aiService.js:22-68 | rejects exactly when the code is not a string; otherwise resolves with the request's error message, or `{result}` when the cleaned reply parses, or `{error: "Invalid AI response format", raw}` with the cleaned reply |
| PdfHelper.LowerCase | backend/utils/pdfHelper.js:68 | `toLowerCase` keeps the length, leaves no upper-case letter, keeps every other character, and changes a character only by moving an upper-case letter to its lower-case counterpart |
| PdfHelper.UpperCase | backend/utils/pdfHelper.js:68 | `toUpperCase` keeps the length, leaves no lower-case letter, keeps every other character, and changes a character only by moving a lower-case letter to its upper-case counterpart |
| PdfHelper.CaseMappingIdempotent | backend/utils/pdfHelper.js:68 | lower-casing the lower-cased severity, or upper-casing the upper-cased label, changes nothing |
| PdfHelper.UpperCaseIgnoresCase | backend/utils/pdfHelper.js:68 | two severities equal up to case get the same upper-case label |
| PdfHelper.ClassMatchesLabel | backend/utils/pdfHelper.js:68 | lowering the label gives the CSS class suffix |
| PdfHelper.VulnerabilitiesSection | backend/utils/pdfHelper.js:66-72 | the section is the "No vulnerabilities found." placeholder exactly when the list is empty |
| PdfHelper.SuggestionsSection | backend/utils/pdfHelper.js:78-83 | the section is the "No gas optimization suggestions found." placeholder exactly when the list is empty |
| PdfHelper.VulnerabilitiesInOrder | backend/utils/pdfHelper.js:66-72 | the section of a concatenation of two non-empty lists is the first section followed by the second |
| PdfHelper.SingleVulnerability | backend/utils/pdfHelper.js:66-72 | a single vulnerability renders as exactly its block, with no placeholder |
| PdfHelper.SuggestionsInOrder | backend/utils/pdfHelper.js:78-83 | the same order property for suggestions |
| PdfHelper.SingleSuggestion | backend/utils/pdfHelper.js:78-83 | a single suggestion renders as exactly its block |
| PdfHelper.SeverityCaseInsensitive | backend/utils/pdfHelper.js:67-71 | two vulnerabilities that differ only in the case of their severity get the same block |
| PdfHelper.VulnerabilityBlockShowsFields | backend/utils/pdfHelper.js:67-71 | a block shows the lower- and upper-cased severity, the formatted line, and the issue and recommendation verbatim |
| PdfHelper.SuggestionBlockShowsFields | backend/utils/pdfHelper.js:79-81 | a suggestion block shows the formatted line, the description verbatim and the locale-formatted estimated savings |
| PdfHelper.HeadingShowsAuditId | backend/utils/pdfHelper.js:63 | the page contains the `<h1>` heading with the audit id |
| PdfHelper.GasBlockAlwaysPresent | backend/utils/pdfHelper.js:74-77 | the estimated-gas block is on every page, whatever the suggestions |
| PdfHelper.VulnerabilityInSection | backend/utils/pdfHelper.js:66-72 | the i-th vulnerability's block is part of the joined vulnerabilities section |
| PdfHelper.SuggestionInSection | backend/utils/pdfHelper.js:78-83 | the i-th suggestion's block is part of the joined suggestions section |
| PdfHelper.EveryVulnerabilityRendered | backend/utils/pdfHelper.js:65-72 | every vulnerability's block occurs in the page |
| PdfHelper.EverySuggestionRendered | backend/utils/pdfHelper.js:78-83 | every suggestion's block occurs in the page |
| PdfHelper.ReportPathInWorkingDirectory | backend/utils/pdfHelper.js:8 | an id without '/' puts the file directly in the working directory as `audit-<id>.pdf` |
| PdfHelper.ReportPathFollowsDotDot | backend/utils/pdfHelper.js:8 | the id is not sanitised: "x/../../y" writes `y.pdf` one directory above the working directory |
| PdfHelper.GenerateAuditPdf | backend/utils/pdfHelper.js:5-94 | the page carries the heading and the gas block; for an id without '/' the returned path ends in `/audit-<id>.pdf` |
| StoreAuditHelper.UploadToIpfs | backend/services/ipfsService.js:7-30 | every failure carries the one message "Failed to upload to IPFS via Pinata", including a string that is not JSON; success happens exactly when there is a payload and the pin succeeds, and it returns the pinned CID |
| StoreAuditHelper.UpdatedRows | backend/utils/storeAuditHelper.js:11-14 | the update keeps the row count and leaves rows with another id unchanged; rows with the id keep their id and other columns and get the new txHash and ipfsCID |
| StoreAuditHelper.UpdateIdempotent | backend/utils/storeAuditHelper.js:11-14 | repeating the same update changes nothing more |
| StoreAuditHelper.UnknownIdUpdatesNothing | backend/utils/storeAuditHelper.js:11-14 | an id no row carries leaves the table unchanged |
| StoreAuditHelper.AuditTable.Update | backend/utils/storeAuditHelper.js:11-16 | the table method applies `UpdatedRows` unless the database reports an error, which it passes on |
| StoreAuditHelper.StoreAuditHelper | backend/utils/storeAuditHelper.js:6-23 | the method's outcome, call trace and final table are those `Anchor` specifies for the starting table |
| StoreAuditHelper.StepsRunInOrder | backend/utils/storeAuditHelper.js:7-22 | the calls are upload, ledger, update, each made only after the previous one succeeded and fed with its result; the run returns exactly when the update reported no error, and then it returns the ledger's tx |
| StoreAuditHelper.LedgerGetsUploadedCid | backend/utils/storeAuditHelper.js:7-9 | the ledger receives the caller's wallet, the keccak hash of the code's bytes, and exactly the uploaded CID |
| StoreAuditHelper.UploadFailureAborts | backend/utils/storeAuditHelper.js:8 | a failed upload throws the upload error, with no ledger call and the table unchanged |
| StoreAuditHelper.DbErrorAfterLedgerCall | backend/utils/storeAuditHelper.js:16-19 | a database error throws "Storing audit failed" after the ledger call, with the table unchanged |
| StoreAuditHelper.OnlyAnchorColumnsChange | backend/utils/storeAuditHelper.js:11-14 | ids and other columns never change; anchor columns change only on rows with the request's id and only in a run that returns |
| StoreAuditHelper.UnknownIdStillReturnsTx | backend/utils/storeAuditHelper.js:11-22 | with an id no row carries and every step succeeding, the helper still returns the tx and the table is unchanged |
| StoreAuditHelper.StubRunStoresEcho | backend/utils/storeAuditHelper.js:9-22 | with the shipped stub, a successful run returns the stub's object and stores it and the CID on the request's rows |

## Left out

- HTTP wiring (the Express server, routes and controllers) is not part of this model. Neither are e-mail sending and `scripts/deploy.js`.
- The OpenRouter POST, the Pinata request, the Supabase client and `sendToBlockchain` are parameters with abstract outcomes. `keccak256`, the UTF-8 encoding of `Buffer.from` and `JSON.parse` are uninterpreted functions.
- Puppeteer's launch, `setContent` and `pdf` calls are left out. `GenerateAuditPdf` returns the page and the path the PDF would be written to.
- Logging (`console.log`, `console.error`) is left out.
- The Solidity source of `AuditStorage` is not part of this model. The ledger's behaviour comes from its test suite, and block times are a parameter that strictly increases between transactions.
- The gas-measurement test only logs, so it is not modelled. The test that two source texts hash differently checks keccak itself, not the contract.
- Where the tests fix only membership and length, the hash-list order is modelled as append on first write.
- CallAI: the message of the TypeError thrown for a non-string `code`, and any failure text of the HTTP layer, are abstract.
- PdfHelper.LowerCase: `toLowerCase` is modelled for ASCII letters only; the full Unicode case mapping is not modelled.
- PdfHelper.UpperCase: `toUpperCase` is modelled for ASCII letters only. JavaScript's full mapping can change the length ("ß" becomes "SS"), so "keeps the length" holds only for the modelled mapping. PdfHelper.ClassMatchesLabel, PdfHelper.UpperCaseIgnoresCase and PdfHelper.SeverityCaseInsensitive also hold only under the ASCII mapping: severity "ß" gets the class `severity-ß` but the label "SS", and "k" and the Kelvin sign lower-case alike but upper-case differently.
- PdfHelper.ReportPath: `path.resolve` is modelled with POSIX semantics (segments split on '/', an absolute working directory); Windows drive letters and backslash separators are not modelled.
- PdfHelper.GasBlock: `toLocaleString` and `${n}` number formatting are abstract formatters; locale rules and floating-point printing are not modelled.
- PdfHelper.ReportHtml: the number of `<div class="item">` blocks is stated structurally, as one block per list entry. Field text is inserted unescaped, so the marker could also occur inside a field, and a count of string occurrences would not hold.
- PdfHelper.ReportHtml: the input is typed, so the ways `generateAuditPDF` fails on a malformed model reply are not modelled. Those are a missing `vulnerabilities` or `gasOptimizations.suggestions` (reading `.length` throws a TypeError, pdfHelper.js lines 66 and 78), a non-string `severity` (`toLowerCase` throws, line 68), and a null or undefined `estimatedGas` or `estimatedSavings` (`toLocaleString` throws, lines 76 and 81). A missing `issue` or `description`, which renders as the text "undefined", is not modelled either. Such input can arrive, because `callAI` returns the parsed reply without checking its shape.
- ChooseModel: routing by line count to four tiers is not modelled, because the code's threshold branches are commented out.
- The status state machine, scheduler and deferred execution described for the wider system are not modelled, because none of them exists in these files.
- UploadToIpfs: a Pinata reply without `IpfsHash` (which resolves to `undefined`) is not distinguished from a CID.
- StoreAuditHelper: `code` and `id` are modelled as strings. A missing `code`, which makes `Buffer.from` throw before the upload, is not modelled.
- StoreAuditHelper.AuditTable.Update: a database error leaves the table unchanged; a partially applied update is not modelled.
- The `blockchainService` stub is not connected to the `AuditStorage` ledger, as in the code.
