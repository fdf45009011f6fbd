# Overdue invoice reminders — a Dafny model

This project models the logic of a small overdue-invoice reminder tool.
The browser app reads an accounts-receivable CSV export and guesses which
column holds the customer, e-mail, invoice, amount and due date. It stores
the usable rows under canonical keys, builds a dashboard (per-customer
totals, aging buckets, a top-ten ranking) and writes one reminder e-mail
per customer. An e-mail can be downloaded as an `.eml` file or posted to
Outlook as a draft. A server function sends the e-mails through Microsoft
Graph or Gmail, at most five at a time, and reports per-message results.

The model has three parts:

- **src/App.js**:
  - cell normalisation (`cleanNumber`, `toDate`, `daysOverdue`) in `Normalizer`;
  - column guessing (`autoMap`, `PRESETS`) in `ColumnMap`;
  - the two-tier lookup `pick` in `Records`;
  - the chunked upload loop in `Ingest` (class `Upload`);
  - the customer list and the "emailable" filter in `Customers`;
  - the dashboard fold in `Dashboard` and `Ranking`;
  - `money` in `Amounts`;
  - `generateEmail` in `Email`;
  - `buildEmlFile` and the download file name in `Eml`.
- **api/bulk-send.js**:
  - `toBase64Url` over the UTF-8 bytes of a string, in `Utf8` and `Base64Url`;
  - `buildRawRfc822`;
  - the worker pool `mapWithLimit`, as class `Pool`;
  - the status decision of `handler`, in `BulkSend`.
- **src/graph.js**:
  - `chunk`, the `$batch` body and the collection of created drafts, in `Drafts`.

**Modelling choices:**

- **Values.** Spreadsheet values are `Cells.Cell`: undefined, null, a
  boolean, an exact decimal number, or a string. JavaScript truthiness,
  `String(v)` and `??` are written out for them.
- **Amounts** are exact `real`s.
- **Dates** are integer millisecond timestamps. `new Date(v)` is a parameter
  of `Normalizer.Clock`, and so is the current instant. One instant is used
  for a whole dashboard.
- **Imperative code stays imperative.** Loops that push into buffers or
  mutate maps are `method`s with loop invariants. Each is proved equal to a
  specification function, and the properties are lemmas about those
  functions.
- **The upload** keeps its closure state in the class `Ingest.Upload`.
- **The worker pool** is a class whose `Settle` step is one worker's
  `await` completing. A scheduler parameter `pick` chooses the worker that
  settles next, so the pool's contract holds for every interleaving.
- **Sending and the Graph `$batch` call** are oracles: a function from the
  message, or from the request body, to an outcome.

Where the code and its written description differ, the model follows the code:

- `cleanNumber("1.234,56")` is 0, not 1234.56. The comma is followed by
  only two digits, so it stays, and since the text has a dot, it is not
  turned into one. "1.234,56" is not a number
  (`NormalizerExamples.CleanNumberEuropeanExample`).
- A customer is emailable when the sum of its *positive* amounts is
  positive, even if credits make its net total zero or negative
  (`Customers.EmailableMembers`).
- The `top` ranking holds `min(10, customers)` entries, customers with a
  zero total included (`Dashboard.DashboardFacts`).
- The contact is "" when the first e-mail cell of the customer is `false`
  or `0`. Such a cell reads as the text "false" or "0", so `find` selects
  the row, but `pick(...) || ""` then discards the value
  (`Email.ContactFacts`).

## Model

| member | source | states |
|---|---|---|
| Cells.OrEmpty | src/App.js:250 | `(v ?? "").toString()` is "" for null and undefined and the string itself for a string |
| Cells.Coalesce | src/App.js:322 | `v ?? ""` is never nullish and keeps every non-nullish value |
| Strings.TrimFacts | src/App.js:250 | the result of `trim` has no white space at either end and is no longer than its input; a trimmed text is left alone; the result is empty iff the text is all white space |
| Strings.TrimIdempotent | src/App.js:250 | trimming twice equals trimming once |
| Strings.Contains | src/App.js:161 | `h.includes(w)` holds iff `w` occurs in `h` at some position |
| Strings.ReplaceAll | src/App.js:463-468 | `replaceAll` with a non-empty pattern leaves text without the pattern unchanged |
| Strings.ReplaceAllSkips | src/App.js:463-468 | text holding no character that could start the pattern passes through unchanged, whatever follows it |
| Strings.ReplaceAllAtStart | src/App.js:463-468 | an occurrence at the start becomes the replacement, and the search resumes after it |
| Strings.ReplaceAllReplaces | src/App.js:463-468 | when no occurrence starts before a given one, the text before it is kept, that occurrence becomes the replacement and the search resumes after it, so occurrences are replaced left to right and never overlap |
| Strings.NatTextRoundTrip | src/graph.js:63 | `String(k)` of a natural number reads back as `k`, so distinct numbers give distinct ids |
| Normalizer.CleanNumber | src/App.js:139-149 | a number is returned unchanged; `null` and `undefined` give 0 |
| Normalizer.CleanString | src/App.js:142-148 | the definition of the string path: keep digits, `.`, `,` and `-`, delete grouping commas, read commas as dots only when no dot is left, then `Number` or 0; it has no contract of its own, and the `NormalizerFacts` and `ReadBack` lemmas state what it yields |
| Normalizer.CommasToDots | src/App.js:146 | every comma becomes a dot and nothing else changes |
| Normalizer.DaysOverdue | src/App.js:53-57 | a falsy cell (the guard of `toDate`) or a text the date parser rejects gives 0; otherwise the floor of the elapsed milliseconds over 86400000 |
| NormalizerFacts.NonNumericIgnored | src/App.js:143 | removing a character other than a digit, `.`, `,` or `-` anywhere never changes the amount |
| NormalizerFacts.KeepNumericAppend | src/App.js:143 | the character filter distributes over concatenation |
| NormalizerFacts.ParseDigits | src/App.js:147 | `Number` reads a run of digits as the integer it spells |
| NormalizerFacts.ParseDigitsDot | src/App.js:147 | `Number` reads digits, a dot and digits as the exact decimal they spell |
| NormalizerFacts.ScaledTextParse | src/App.js:142 | `Number` reads the decimal rendering of `a / 10^e` back as that value |
| NormalizerFacts.SignedTextRead | src/App.js:142-148 | an optional minus sign before a clean unsigned literal is read exactly |
| NormalizerFacts.NumTextRoundTrip | src/App.js:139-149 | `cleanNumber(String(x)) == x` for every number `x` that `String` writes in plain decimal notation, that is `x == 0` or `1e-6 <= abs(x) < 1e21` |
| ReadBack.MoneyReadsBack | src/App.js:139-149 | `cleanNumber(money(n))` is `abs(n)` rounded to cents: the dollar sign and every thousands comma are removed and the two cent digits are read after the dot |
| ReadBack.TwoDotsGiveZero | src/App.js:142-148 | any text holding two dots, whatever else it holds, gives 0 |
| NormalizerExamples.CleanNumberGroupedExample | src/App.js:139-149 | "1,234.56" gives 1234.56 |
| NormalizerExamples.CleanNumberCurrencyExample | src/App.js:139-149 | "$1,209,927.14" gives 1209927.14 |
| NormalizerExamples.CleanNumberDecimalCommaExample | src/App.js:139-149 | "12,5" gives 12.5 |
| NormalizerExamples.CleanNumberEuropeanExample | src/App.js:139-149 | "1.234,56" gives 0 |
| NormalizerExamples.CleanNumberInnerMinusExample | src/App.js:139-149 | "1-2" gives 0 |
| NormalizerExamples.CleanNumberEmptyExamples | src/App.js:139-149 | "", "abc" and `true` give 0 |
| ColumnMap.Presets | src/App.js:104-137 | every field has a non-empty list of aliases, none of them empty |
| ColumnMap.LowerAll | src/App.js:152 | the lowered header list is aligned with the headers |
| ColumnMap.IndexOf | src/App.js:157 | `indexOf` is the first index holding the word, or -1 when there is none |
| ColumnMap.FindContaining | src/App.js:161 | `findIndex(includes)` is the first index containing the word, or -1 when there is none |
| ColumnMap.AliasPick | src/App.js:155-165 | the pick is "" or one of the headers, in its original case |
| ColumnMap.PickHeader | src/App.js:155-165 | the two early-return loops compute the alias pick |
| ColumnMap.AutoMap | src/App.js:151-174 | `autoMap` applies the pick to each field's alias list |
| ColumnMap.ExactMatchWins | src/App.js:156-159 | the header matching the earliest alias exactly (ignoring case) is chosen, and the first such header among equals |
| ColumnMap.ContainedMatchWins | src/App.js:160-163 | with no exact match, the first header containing the earliest contained alias is chosen |
| ColumnMap.NoMatchGivesEmpty | src/App.js:164 | with no header containing any alias, the field maps to "" |
| ColumnMap.MatchGivesHeader | src/App.js:155-165 | a header containing some alias guarantees that a header is chosen |
| ColumnMapExamples.AutoMapSampleExample | src/App.js:151-174 | the header row "Customer Name, Email, Invoice #, Amount, Due Date" maps each field to its own column |
| Records.CanonKey | src/App.js:14-20 | every canonical key starts with "__" |
| Records.Pick | src/App.js:29-40 | the canonical key wins when present; otherwise the mapped header when one is set and present; otherwise undefined |
| Records.PickIgnoresMapping | src/App.js:29-40 | on a row holding the five canonical keys, the mapping in force does not matter |
| Records.CustomerLinesMembers | src/App.js:400-402 | the customer's rows are exactly the rows carrying its name |
| Ingest.Upload.constructor | src/App.js:240-247 | an upload starts with no headers, no guessed mapping and an empty buffer |
| Ingest.Upload.AdoptHeaders | src/App.js:241-247 | the first chunk fixes the headers and the guessed mapping; later chunks leave them alone |
| Ingest.Upload.StoreRows | src/App.js:249-263 | the buffer grows by the canonical forms of the kept rows, in order |
| Ingest.Upload.Chunk | src/App.js:240-264 | one chunk callback: adopt the headers once, then store the kept rows |
| Ingest.Canonicalize | src/App.js:249-263 | the definition of the rows one chunk stores: the rows with a non-blank name and a non-zero amount, each in canonical form, in order; `CanonicalizeSelects` and `CanonicalizeStored` state its properties |
| Ingest.CanonicalRowFacts | src/App.js:256-262 | a stored row has exactly the five canonical keys, each holding the raw cell under the guessed header |
| Ingest.CanonicalizeAppend | src/App.js:249-263 | where the parser cuts its chunks makes no difference to the buffer |
| Ingest.TwoChunks | src/App.js:240-264 | two successive chunks leave the same buffer as one chunk holding both |
| Ingest.CanonicalizeSelects | src/App.js:249-263 | the stored rows are the kept raw rows, in their original order, and every kept row is stored |
| Ingest.StoredRow | src/App.js:250-262 | through any mapping, a stored row reads back the raw row's customer name and amount |
| Ingest.CanonicalizeStored | src/App.js:250-253 | every stored row is canonical, with a non-blank name and a non-zero amount |
| Customers.SetAdd | src/App.js:282 | an insertion-ordered `Set.add` appends a new name and ignores a present one |
| Customers.ListCustomers | src/App.js:277-285 | the memo's loop computes the customer list |
| Customers.CustomerListDistinct | src/App.js:277-285 | no customer is listed twice |
| Customers.CustomerListMembers | src/App.js:280-283 | a name is listed iff it is non-blank and some row carries it |
| Customers.CustomerListOrder | src/App.js:277-285 | customers are listed in order of first appearance |
| Customers.OverdueTotal | src/App.js:288-295 | the definition of `overdueTotalFor`: the sum of the customer's positive amounts, other rows and non-positive amounts skipped; `OverdueTotalPositive` states its properties |
| Customers.OverdueTotalPositive | src/App.js:288-295 | the overdue total is never negative, and is positive iff the customer has a positive row |
| Customers.EmailableMembers | src/App.js:298-301 | a customer is emailable iff it is listed and has a positive row |
| Customers.Emailable | src/App.js:298-301 | the definition of `emailableCustomers`: the listed customers whose overdue total is positive, in list order; `EmailableMembers` and `EmailableOrder` state its properties |
| Customers.EmailableOrder | src/App.js:298-301 | the emailable customers keep the order of the customer list |
| Dashboard.Aggregate | src/App.js:317-340 | the fold over the rows builds the per-customer map, in first-appearance order |
| Dashboard.Accumulate | src/App.js:325-337 | the update of one entry for one more row |
| Dashboard.SummaryFirst | src/App.js:325-337 | a customer's first row gives the entry that `per.get(name) \|\| {…}` starts from, updated once |
| Dashboard.SummaryNext | src/App.js:331-337 | each further row updates the entry exactly as the loop body does |
| Dashboard.PerAdd | src/App.js:339 | a named row changes only its own customer's entry |
| Dashboard.PerSkip | src/App.js:318-319 | a row with a blank name changes nothing |
| Dashboard.PerFacts | src/App.js:317-340 | `total` is the sum and `count` the number of the customer's rows; `oldestDays` is their largest day count; `oldestDue` is the due date of the first row reaching it |
| Dashboard.OldestFacts | src/App.js:334-337 | the largest day count bounds every row and is first reached at one position, so ties keep the first-seen due date |
| Dashboard.TotalIsSum | src/App.js:331 | the running total is the sum of the amounts |
| Dashboard.Totals | src/App.js:343-356 | `totalOverdueAll` is the sum of `max(0, total)` over the customers, and `withEmail` counts the customers having a row with an e-mail |
| Dashboard.Buckets | src/App.js:359-365 | each bucket sums `max(0, total)` over the customers whose `oldestDays` falls in it (up to 30, up to 60, beyond) |
| Dashboard.BucketsAddUp | src/App.js:359-365 | the three buckets add up to the clamped total of all customers |
| Dashboard.ComputeDashboard | src/App.js:312-391 | the memo returns the customer count, the e-mail count, the selection size, the rounded overall total, the pie and the top ten |
| Dashboard.DashboardFacts | src/App.js:343-378 | the pie adds up to `totalOverdueAll` before rounding; `top` has `min(10, customers)` entries in non-increasing order, ties in first-appearance order |
| Ranking.InsertSorted | src/App.js:377 | inserting into a sorted ranking keeps it sorted |
| Ranking.SortDescSorted | src/App.js:377 | the ranking is in non-increasing order of total |
| Ranking.SortDescPermutes | src/App.js:372-377 | the ranking is a permutation of the entries |
| Ranking.SortDescStable | src/App.js:377 | entries with equal totals keep their order |
| Ranking.TopFacts | src/App.js:372-378 | the top ten are the first `min(10, n)` of the sorted entries, and none is smaller than any entry left out |
| Amounts.Abs | src/App.js:23 | `Math.abs` is non-negative and `x` or `-x` |
| Amounts.Max0 | src/App.js:348 | `Math.max(0, x)` is non-negative, at least `x`, and `x` or 0 |
| Amounts.RoundCentsClose | src/App.js:369 | rounding to cents moves an amount by at most half a cent |
| Amounts.RoundCentsIdempotent | src/App.js:375 | a rounded amount rounds to itself |
| Amounts.RoundCentsMonotone | src/App.js:375 | rounding keeps the order of amounts, so the ranking order is not reversed |
| Amounts.Money | src/App.js:22-26 | the definition of `money`: a dollar sign, the whole dollars of `abs(n)` with a comma between groups of three digits, a dot and two cent digits; it has no contract of its own, and `MoneyIgnoresSign` and `ReadBack.MoneyReadsBack` state its properties |
| Amounts.MoneyIgnoresSign | src/App.js:22-26 | `money(-n) == money(n)` |
| Email.ChooseTemplate | src/App.js:448-449 | "Custom" gives the user's text, "Firm" and "Final Notice" their templates, any other key the friendly one |
| Email.GenerateEmail | src/App.js:399-470 | the definition of `generateEmail`: the contact, the subject and the body of one customer; `DraftFacts`, `ContactFacts` and `TemplateGreetings` state its properties |
| Email.Body | src/App.js:463-468 | the definition of the body: the four `replaceAll` calls in order, customer name first |
| Email.InvoiceLinesText | src/App.js:465 | the definition of the invoice-lines slot: the overdue lines joined by LF, or "(none)"; `InvoiceLinesNoneIff` states when it is "(none)" |
| Email.CreditsSection | src/App.js:450-461 | the definition of the credits section: the credit lines, the total credits and the net amount due, or "" without credits; `CreditsSectionEmptyIff` states when it is "" |
| Email.Contact | src/App.js:435-443 | the definition of the contact: the trimmed e-mail of the first row having one, or ""; `ContactFacts` states its properties |
| Email.NetIsTotal | src/App.js:424-432 | net payable is the plain sum of the customer's amounts; both partial totals are non-negative |
| Email.CreditLinesIff | src/App.js:407-422 | there are credit lines iff some row of the customer is negative |
| Email.CreditsSectionEmptyIff | src/App.js:450-461 | the credits section is "" iff the customer has no negative row |
| Email.InvoiceLinesNoneIff | src/App.js:465 | the invoice-lines slot is "(none)" iff the customer has no positive row |
| Email.FirstWithEmailFacts | src/App.js:435-437 | `find` yields nothing iff no row has an e-mail, and otherwise the first row that has one |
| Email.ContactFacts | src/App.js:435-443 | the contact is the e-mail of the first row having one, "" if that cell is falsy, and "" when there is none |
| Email.DraftFacts | src/App.js:399-470 | the template choice affects only the body; the subject is the fixed prefix followed by the customer's name |
| Email.TemplateGreetings | src/App.js:60-101 | each named template opens with its greeting followed by the customer's name |
| Email.GreetingKept | src/App.js:463-468 | text before the customer slot that has no brace passes all four replacements unchanged |
| Eml.ToCrlfFacts | src/App.js:184 | after the LF to CR LF conversion no LF is bare, and one CR per LF was added |
| Eml.CrlfRoundTrip | src/App.js:184 | turning each CR LF back into LF gives the original body |
| Eml.BuildEmlFile | src/App.js:176-185 | the definition of `buildEmlFile`; `EmlLayout` and `EmlCrlfOnly` state its properties |
| Eml.EmlLayout | src/App.js:176-185 | the file is the five headers joined by CR LF, an empty line, the body with every LF turned into CR LF (no bare LF, one extra character per LF, reading back as the body), and a final CR LF |
| Eml.EmlCrlfOnly | src/App.js:176-185 | with a recipient and subject free of LF, every LF of the file follows a CR |
| Eml.SafeName | src/App.js:535 | the definition of `name.replace(/[^a-z0-9]/gi, "_")`, one `_` per UTF-16 code unit; `SafeNameFacts` and `SafeNamePositions` state its properties |
| Eml.SafeNameFacts | src/App.js:535 | the file name holds only ASCII letters, digits and '_', and sanitising it again changes nothing |
| Eml.SafeNamePositions | src/App.js:535 | inside the Basic Multilingual Plane the length is kept, each letter and digit stays in place and every other character becomes '_' |
| Eml.FileNamesCollide | src/App.js:535-537 | "A&B" and "A B" get the same file name |
| Utf8.EncodeChar | api/bulk-send.js:9 | a character takes one to four bytes, one exactly when it is ASCII |
| Utf8.Utf8RoundTrip | api/bulk-send.js:9 | decoding the UTF-8 bytes of a string of Unicode scalar values gives the string back |
| Utf8.Utf8Injective | api/bulk-send.js:9 | different strings have different encodings |
| Utf8.Utf8Ascii | api/bulk-send.js:9 | ASCII text encodes byte for byte |
| Base64Url.Sextets | api/bulk-send.js:10 | `n` bytes give `ceil(4n/3)` six-bit groups |
| Base64Url.ToBase64Url | api/bulk-send.js:8-14 | the definition of `toBase64Url`: base64 of the UTF-8 bytes, `+` to `-`, `/` to `_`, trailing `=` removed; the lemmas below state its properties |
| Base64Url.ToBase64UrlIsUrlEncode | api/bulk-send.js:8-14 | the three replacements turn standard base64 into the URL-safe alphabet of section 5 of RFC 4648 without padding |
| Base64Url.ToBase64UrlFacts | api/bulk-send.js:8-14 | the output uses only `[A-Za-z0-9_-]`, has no '=', and has length `ceil(4n/3)` for `n` bytes |
| Base64Url.UrlRoundTrip | api/bulk-send.js:8-14 | decoding the URL-safe text gives the bytes back |
| Base64Url.ToBase64UrlRoundTrip | api/bulk-send.js:8-14 | decoding and reading the UTF-8 gives the original string of Unicode scalar values |
| BulkSend.BuildRawRfc822 | api/bulk-send.js:16-24 | the definition of `buildRawRfc822`; `RawLayout` and `GmailRawRoundTrip` state its properties |
| BulkSend.RawLayout | api/bulk-send.js:16-24 | `To`, then `Subject`, then `Reply-To` exactly when the reply address is truthy, then `Content-Type`; then an empty line, the text unchanged, and a final CR LF |
| BulkSend.GmailRawRoundTrip | api/bulk-send.js:55-56 | the `raw` field sent to Gmail decodes to the message, for a message of Unicode scalar values |
| BulkSend.SettleKeeps | api/bulk-send.js:82-93 | one worker's call settling writes its own slot once, logs it, and claims the next index, keeping the pool invariant |
| BulkSend.Finished | api/bulk-send.js:82-96 | when no worker is waiting, every slot holds its own report if there was a worker, and none was claimed if there was none |
| BulkSend.Pool.constructor | api/bulk-send.js:77-83 | `min(limit, n)` workers start, worker j claiming index j |
| BulkSend.Pool.Settle | api/bulk-send.js:83-93 | the step writes the worker's own report into its slot and nothing else into `results`, logs it, gives the worker index `i++` while items remain (and nothing otherwise) without touching the other workers, and keeps the invariant |
| BulkSend.Pool.Done | api/bulk-send.js:96-97 | after `Promise.all` every slot is written with its own report |
| BulkSend.MapWithLimit | api/bulk-send.js:76-98 | a negative worker count is a RangeError; with `limit >= 1` every slot `k` holds `{index: k, ok}` from the k-th call, `fn` is called once per item in index order, and each slot is written once; with `limit < 1` nothing is called or written |
| BulkSend.Handle | api/bulk-send.js:101-140 | non-POST gives 405; a missing user, provider or token, or no messages, gives 400; an unknown provider gives 400; otherwise one result per message, with status 200 iff all were sent and 207 otherwise |
| Drafts.Slice | src/graph.js:55 | `slice(i, j)` holds the items from index `i` up to `j`, or to the end when `j` is past it, in order |
| Drafts.Chunk | src/graph.js:55 | the definition of `chunk` as the `reduce` it is; `ChunkShape`, `ChunkSizes` and `ChunkFlatten` state its properties |
| Drafts.ChunkShape | src/graph.js:55-56 | `chunk` yields `ceil(len/n)` batches, batch `b` holding the items from `b*n` up to `b*n + n` |
| Drafts.ChunkSizes | src/graph.js:55-56 | an empty input gives no batch; every batch but the last has `n` items, and the last has 1 to `n` |
| Drafts.ChunkFlatten | src/graph.js:55-56 | concatenating the batches gives the messages back |
| Drafts.BatchesWithinLimit | src/graph.js:50-56 | every `$batch` request has 1 to 20 sub-requests |
| Drafts.RequestFor | src/graph.js:62-73 | the definition of one sub-request; `BatchIds` and `RequestOptionals` state its properties |
| Drafts.BatchBody | src/graph.js:61-74 | the definition of the `requests` array; `BatchIds` states its properties |
| Drafts.BatchIds | src/graph.js:61-66 | one request per message, in order; request k is a POST to `/me/messages` with id "k+1", and no two ids are equal |
| Drafts.RequestOptionals | src/graph.js:69-71 | `replyTo` is empty iff the reply address is falsy and otherwise holds that one address; a missing body becomes "" |
| Drafts.PushCreated | src/graph.js:81-91 | each 2xx response pushes its draft, in response order; a 2xx response without a body throws |
| Drafts.CreatedEntries | src/graph.js:81-91 | created entry k comes from a 2xx response, every 2xx response gives exactly one entry, and a non-2xx response gives none |
| Drafts.PostBatches | src/graph.js:59-92 | batches are posted in order; the first failure ends the call; on success the result is the 2xx drafts of all responses, in order |
| Drafts.CreateDrafts | src/graph.js:54-95 | `createDrafts` posts the batches of twenty in turn and returns the 2xx drafts in order, or the first error |

## Left out

- React rendering, JSX and `useState`/`useEffect` wiring are not modelled: they are UI state. This includes the selection-sync effect and the action counters.
- `handleCreateOutlookDrafts` is not modelled, because it reads fields that nothing produces. `slimRow` is not modelled because nothing calls it.
- Papa.parse streaming and worker mode, JSZip, Blob downloads, `window.open` and mailto links are browser I/O. The parser's chunks are inputs of `Ingest.Upload.Chunk`.
- `Number()` parsing is modelled only for texts over digits, `.`, `,` and `-`, which is all `cleanNumber` hands it. Floating-point rounding is not modelled: amounts are exact.
- Amounts.RoundCents: `toFixed(2)` is modelled as exact round-half-up to cents. Binary floating-point rounding can differ at exact half cents.
- Amounts.Money: `toLocaleString` is modelled as comma grouping with two decimals for a fixed en-US locale. Other locales are not modelled.
- Normalizer.DaysOverdue: `new Date(v)` parsing is a parameter (`toDate`'s own guard is modelled). The current clock is a parameter too, read once per dashboard instead of once per row.
- Cells.NumText: `String(x)` is modelled in plain decimal notation for every number. JavaScript switches to exponent notation when `abs(x) >= 1e21` or `0 < abs(x) < 1e-6`: `String(1e21)` is "1e+21", which `cleanNumber` reads as 121, and `String(1e-7)` is "1e-7", which it reads as 0. So `NumTextRoundTrip` describes the program only inside that range. Numeric cells come from the parser's `dynamicTyping`.
- Utf8.Utf8RoundTrip: strings are sequences of Unicode scalar values. A JavaScript string is a sequence of UTF-16 code units and can hold a lone surrogate, for example from a JSON `"\ud800"` in the request body. `Buffer.from` writes a lone surrogate as the bytes EF BF BD (U+FFFD), so for such a string `toBase64Url` does not read back to the same string, and the file-name sanitiser writes one `_` for it. Lone surrogates are not represented, so `Utf8RoundTrip`, `ToBase64UrlRoundTrip` and `GmailRawRoundTrip` describe only strings without them.
- Strings.Lower: `toLowerCase` is modelled for the ASCII letters only; the full Unicode case mapping is not modelled, so a non-ASCII header matches an alias only when the two are equal as written.
- Strings.ReplaceAll: the `$` patterns in a replacement string are not modelled; the replacement is inserted literally. Because the four replacements run in order, a customer name containing a later placeholder is itself substituted.
- The customer list, the dashboard and the e-mails are modelled over the rows read through one mapping. Editing the mapping in the UI is not modelled.
- `sendViaMicrosoftGraph`, `sendViaGmail`, `graphFetch`, MSAL `getToken` and `sendDraft` are network and authentication calls. Each is an oracle returning success, or failure with a message.
- BulkSend.Message: the request body's JSON fields are taken to be strings, except `replyTo`. Other JSON values and a missing `req.body` are not modelled.
- BulkSend.Handle: the 500 branch of `handler` is kept, but it cannot be reached. The only exception the model raises is the RangeError of a negative worker count, and that cannot happen with `CONCURRENCY` at 5.
- BulkSend.MapWithLimit: the text of `String(e.message || e)` is whatever the oracle reports. The real interleaving of promises is replaced by the `pick` scheduler.
- Drafts.CreateDrafts: a 204 answer (`null`) or a missing `responses` array is folded into the oracle's failure. The optional chain `toRecipients?.[0]?.emailAddress?.address` is the given `to` of a response body. A 2xx response without a body gives one fixed TypeError message. `console.warn` is not modelled.
- `chunk` with a size of 0 is modelled (every index starts an empty batch), but only size 20 is used, and its properties are proved for positive sizes.
- src/apiClient.js, public/sw.js, src/index.js and src/components/BulkSendTable.jsx are not part of this model: they are fetch glue, cache I/O, bootstrap and UI selection state.
