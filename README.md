# WhatsApp bookkeeping page — verified model of its state rules

The page turns pasted chat text into typed money movements (INCOMING, OUTGOING,
UNKNOWN) with the help of an external extraction service. It keeps them per
account together with a currency → rate map (units per US dollar), shows one
summary per currency and a headline USD total, and runs a small local account
store with a single active session per account.

All of that logic lives in `App.tsx`. This project models its bookkeeping
state with the UI and storage stripped away:

- `summaries.dfy` (module `Summaries`): the per-currency aggregation and the
  headline total. `ComputeSummaries` is the page's single loop over the list
  with an insertion-ordered map. It is proved equal to `Summarize`, a pure
  "group by currency, then sum" specification. The lemmas then state what
  the summaries mean: one entry per currency in first-seen order, a partition
  of the list into incoming and outgoing totals, the USD conversion, and
  totals under append.
- `transactions.dfy` (module `Transactions`): the list edits (append a batch,
  replace by id, delete by id).
- `ledger.dfy` (module `Ledger`): the ledger page state and its handlers:
  process text, save an edit, delete, clear, load, backup export, staged
  import and restore.
- `rates.dfy` (module `Rates`): rate edits and adding a currency.
- `accounts.dfy` (module `Accounts`): sign-in, sign-out, the supersession
  check, and adding, deleting and editing accounts with their
  at-least-one-administrator guards.
- `text.dfy`, `seqs.dfy`, `wrappers.dfy`: `trim`/`toUpperCase`,
  `findIndex`/`filter`, and `Option`/`Result`.

Every React handler replaces state wholesale (`setX(prev => …)`). So the
handlers are functions from the old state record to the new one. Only
`summaries`, which mutates a `Map` inside a `forEach`, is a method with a loop.

Amounts and rates are JavaScript numbers. They are modelled as `real`.
Inputs from the outside world are parameters:

- the extraction service's reply: a `Result`;
- `parseFloat` of a rate input: `Option<real>`, None for NaN;
- `prompt` and `confirm` answers;
- the session id of this browser context;
- the clock stamp used in new account ids;
- lists read back from storage.

The model follows the code, including these behaviours a reader might not
expect:

- Adding a currency whose stored rate is 0 overwrites it with 1 instead of
  reporting that it already exists. `!exchangeRates[upper]` is true for 0.
- Saving an account edit guards only against demoting *oneself* while there
  is at most one administrator. It does not guard demoting any sole
  administrator. Only an administrator can open the panel, and
  `SaveUserEditKeepsAnAdmin` shows that this guard still keeps an
  administrator. The page's edit row only offers username and password
  inputs and starts from a copy of the record (App.tsx:217, 411-414), so
  no edit saved from the page changes a role and the self-demotion refusal
  is not reachable from it. The model lets `edited` be any account, which
  covers more than the page can produce; the guard lemmas hold for all
  of it.
- Adding an account has no duplicate-username check.
- UNKNOWN transactions count as outgoing in the totals. They are not
  excluded.

## Model

| member | source | states |
|---|---|---|
| `Summaries.ComputeSummaries` | App.tsx:287-299 | the page's single-pass loop over an insertion-ordered map returns exactly `Summarize`, the group-then-sum specification |
| `Summaries.UsdValue` | App.tsx:294-295 | the USD value times a positive rate gives back the balance; a zero, negative or missing rate gives exactly 0, never a division by zero |
| `Summaries.StepSummaries` | App.tsx:290-293 | one more transaction adds its amount to its currency's incoming total if INCOMING and to the outgoing total otherwise (UNKNOWN included); every other currency's summary is unchanged; a new currency is appended to the order |
| `Summaries.AbsentCurrencyHasZeroTotals` | App.tsx:290 | a currency not yet seen starts from zero totals, like the fresh summary object |
| `Summaries.CurrenciesAreThoseOccurring` | App.tsx:288-298 | a currency has a summary iff some transaction is in that currency |
| `Summaries.CurrenciesAreDistinct` | App.tsx:296-298 | no currency is summarised twice |
| `Summaries.CurrenciesInFirstSeenOrder` | App.tsx:296-298 | summaries are ordered by each currency's first occurrence: wherever a later currency occurs, every earlier one has already occurred |
| `Summaries.SummaryFields` | App.tsx:290-295 | each summary's totals are its currency's INCOMING and non-INCOMING sums over the whole list, balance = incoming − outgoing, and usdValue is balance / rate for a positive rate and 0 otherwise |
| `Summaries.SummariesPartition` | App.tsx:289-293 | every transaction is counted once, in one summary: the incoming totals add up to all INCOMING amounts and the outgoing totals to all other amounts |
| `Summaries.PartitionStep` | App.tsx:289-293 | one more transaction raises the summed incoming totals by its amount if INCOMING, and the summed outgoing totals otherwise |
| `Summaries.TotalsOfAppend` | App.tsx:309 | the totals of a concatenation are the sums of the parts' totals |
| `Summaries.TotalUsd` | App.tsx:301 | the headline total adds up the summaries' USD values: 0 for no summaries, never negative when no value is negative and never positive when no value is positive |
| `Summaries.TotalUsdAppend` | App.tsx:301 | the reduce counts each summary once: the total of a concatenation is the sum of the parts' totals |
| `Summaries.TotalUsdAtParity` | App.tsx:301 | when every currency used has rate 1, the headline total is all incoming minus all other amounts |
| `Summaries.EmptyLedgerTotal` | App.tsx:301 | an empty ledger has no summaries and a headline total of 0 |
| `Summaries.WorkedExample` | App.tsx:287-301 | 100 USD in, 30 USD out, 5000 TRY in at 34.5 give summaries USD (100, 30, 70, 70) then TRY (5000, 0, 5000, 5000/34.5) and total 70 + 5000/34.5 |
| `Transactions.AppendBatch` | App.tsx:309 | the old list is kept as a prefix and the batch follows it in order |
| `Transactions.ReplaceById` | App.tsx:600 | length and ids are kept; only records with the edited id become the edit; an absent id leaves the list unchanged |
| `Transactions.DeleteById` | App.tsx:600 | no record with the id survives, every survivor was in the list, an absent id changes nothing |
| `Transactions.DeleteByIdKeepsOthers` | App.tsx:600 | every record with another id occurs as often after the delete as before |
| `Transactions.DeleteByIdAppend` | App.tsx:600 | deleting distributes over concatenation, so survivors keep their order |
| `Transactions.DeleteEach` | App.tsx:600 | deleting a list of ids one after another leaves only records of the list, none carrying any of those ids |
| `Transactions.DeleteEachAppend` | App.tsx:600 | deleting ids the list does not use from the list followed by records that all use them gives back the list |
| `Transactions.AppendThenDeleteRestores` | App.tsx:309 | appending an extracted batch whose ids the list does not use, with each record its own id, and then deleting each of the batch's records by id gives back the original list |
| `Ledger.LoadLedger` | App.tsx:130-137 | an opened ledger has the stored transactions, or none, and the stored rates, or the defaults |
| `Ledger.ProcessText` | App.tsx:303-313 | blank text does nothing; a successful reply is appended whole and clears the text; a failed reply appends nothing and shows its message (or a generic one); rates are never touched |
| `Ledger.ProcessTextAddsBatchTotals` | App.tsx:309 | after processing non-blank text with a successful reply, each currency's totals are the old totals plus the batch's |
| `Ledger.SaveTransactionEdit` | App.tsx:600 | a saved edit replaces by id and keeps the list length; no edit, no change |
| `Ledger.DeleteTransaction` | App.tsx:600 | after deleting, no transaction has that id and nothing else in the page changes |
| `Ledger.ClearTransactions` | App.tsx:458 | only the list changes, and it becomes empty, so there are no summaries and the total is 0; rates, input text, staged restore and error stay |
| `Ledger.ExportBackup` | App.tsx:233-234 | the backup holds the current transactions and rates, the export time and the owner |
| `Ledger.StageImport` | App.tsx:246-262 | an unreadable file or one missing transactions or rates is refused with its own message; otherwise the data, its count and its date (or now) are staged and nothing is applied |
| `Ledger.ExecuteRestore` | App.tsx:264-271 | a staged restore replaces transactions and rates outright and is dropped; nothing staged, no change |
| `Ledger.BackupRoundTrip` | App.tsx:233-270 | export, import into any ledger and confirm reproduce the exported transactions, rates and summaries |
| `Rates.RateOf` | App.tsx:294 | `exchangeRates[c] \|\| 0`: a missing currency reads as 0, a stored one as its rate |
| `Rates.RateOfAfterChange` | App.tsx:273-276 | a rate edit changes the rate read for that currency to the new value and for no other currency |
| `Rates.HandleRateChange` | App.tsx:273-276 | an unparsable input leaves the map unchanged; a number sets that currency's rate and keeps every other entry |
| `Rates.AddNewCurrency` | App.tsx:278-285 | a dismissed or blank answer does nothing; otherwise the trimmed, upper-cased code is inserted with rate 1 iff its current value is missing or 0, and is reported as existing with the map unchanged otherwise |
| `Rates.CurrencyCode` | App.tsx:281 | the code of an answer is empty iff the answer is all whitespace, and otherwise has no surrounding whitespace and no lower-case ASCII letter |
| `Rates.CurrencyCodeOfPadded` | App.tsx:281 | an answer made of a core padded with whitespace stands for the upper-cased core, so case and surrounding space do not matter |
| `Rates.CurrencyCodeIdempotent` | App.tsx:281 | a code that is already normalised stands for itself |
| `Rates.PaddedCodeFindsStored` | App.tsx:281-284 | an answer whose trimmed, upper-cased form is a stored code with a non-zero rate is reported as existing, and the map is kept; a stored key that is not upper-case (from a restored backup, say) is not found this way |
| `Rates.SpacedLowerCaseEur` | App.tsx:281-284 | " eur " is reported as existing when "EUR" is stored with rate 0.92 |
| `Rates.AddReportedCodeAgain` | App.tsx:281-284 | typing in the code an add just inserted reports it as existing and keeps the map |
| `Rates.AddNewCurrencyTwice` | App.tsx:282-283 | giving the same answer twice: the second add changes nothing, and reports the code as existing unless the answer is blank |
| `Rates.AddedCodeIsNormalised` | App.tsx:281-282 | every code an add reports, added or already present, is non-empty, has no surrounding space and no lower-case letter |
| `Text.Trim` | App.tsx:281 | the result is the slice of the input left after a leading and a trailing run of JavaScript whitespace; it has no outer whitespace and is empty iff the input is all whitespace |
| `Text.TrimOfPadded` | App.tsx:281 | trimming a core without outer whitespace, padded by whitespace, gives back exactly that core |
| `Text.TrimStart` | App.tsx:281 | the result is a suffix of the input, everything dropped is whitespace, and it does not start with whitespace |
| `Text.TrimEnd` | App.tsx:281 | the result is a prefix of the input, everything dropped is whitespace, and it does not end with whitespace |
| `Text.ToUpper` | App.tsx:281 | same length, each character mapped by `UpperChar` (a–z to A–Z, all others kept), so no lower-case ASCII letter is left |
| `Text.UpperChar` | App.tsx:281 | a lower-case ASCII letter becomes its capital, every other character is kept |
| `Seqs.FindIndex` | App.tsx:162 | the index of the first element satisfying the test, or none when no element does |
| `Seqs.Filter` | App.tsx:209 | only accepted elements of the input survive; a list of accepted elements is unchanged and a list of rejected ones becomes empty |
| `Seqs.FilterCounts` | App.tsx:209 | each accepted element keeps its multiplicity |
| `Seqs.FilterAppend` | App.tsx:209 | filtering a concatenation filters each part, so the survivors keep their order |
| `Accounts.InitialUsers` | App.tsx:49-55 | the stored account list, or exactly the built-in administrator (`admin-0`, `abd999`, `732234`, no session) alone |
| `Accounts.Login` | App.tsx:159-174 | sign-in succeeds iff some account matches both username and password; then exactly the first match gets this context's session id and becomes current; otherwise the list is unchanged and the credentials error is shown |
| `Accounts.Logout` | App.tsx:176-187 | only the current account's records lose their session id; the context is signed out |
| `Accounts.SupersededIn` | App.tsx:112-113 | true iff the first account with the current id holds a non-empty session id other than this context's |
| `Accounts.CheckSession` | App.tsx:106-118 | the state changes iff signed in, a list was read back and the session is superseded; the change is a sign-out with the supersession message |
| `Accounts.OwnLoginIsNotSuperseded` | App.tsx:162-170 | with unique account ids, right after signing in, this context's own check keeps it signed in |
| `Accounts.SecondLoginSupersedesFirst` | App.tsx:108-118 | with unique, non-empty account ids and a non-empty second session id, when a second context signs in to the same account with another session id, the first context's next check signs it out as superseded |
| `Accounts.AddUser` | App.tsx:189-195 | an empty username or password is refused; otherwise the account is appended with id `user-<stamp>` and no session |
| `Accounts.AddUserAdminCount` | App.tsx:189-195 | adding raises the administrator count by one exactly when a complete form creates an administrator, and otherwise leaves it |
| `Accounts.AddUserKeepsIdsUnique` | App.tsx:189-195 | a stamp that gives an unused id keeps account ids unique |
| `Accounts.AdminCount` | App.tsx:202 | the administrator count is at most the list length, 0 iff no account is an administrator, and the length iff every account is one |
| `Accounts.TargetIsAdmin` | App.tsx:203-204 | true iff the first account carrying the id is an administrator |
| `Accounts.DeleteUser` | App.tsx:197-213 | self-deletion and deleting an administrator while at most one exists are refused; otherwise, when confirmed, exactly the records with that id are removed |
| `Accounts.AdminCountAfterRemoval` | App.tsx:202-209 | with unique ids, removing an id lowers the administrator count by one iff the account found by that id is an administrator |
| `Accounts.DeleteUserKeepsAnAdmin` | App.tsx:197-212 | with unique ids, no deletion takes the administrator count from at least one to zero |
| `Accounts.SharedIdDefeatsLastAdminGuard` | App.tsx:202-209 | two administrators sharing an id are both removed by one deletion, so the guard depends on unique ids |
| `Accounts.SaveUserEdit` | App.tsx:220-231 | demoting oneself while at most one administrator exists is refused; otherwise exactly the records with the edited id are replaced |
| `Accounts.SaveUserEditKeepsAnAdmin` | App.tsx:220-231 | with unique ids and an administrator making the edit, no saved edit leaves zero administrators |
| `Accounts.SessionsKeepAdminCount` | App.tsx:164-178 | signing in and out never change the number of administrators |

## Left out

- geminiService.ts is not part of this model. It makes one call to the hosted extraction API, parses the reply as JSON and stamps ids from the clock. Its outcome enters `Ledger.ProcessText` as the `reply` parameter.
- Storage I/O (App.tsx:51-62, 130-154) is not modelled. Values read back from storage are parameters (`InitialUsers`, `LoadLedger`, the `latest` list of `CheckSession`). Writes are not modelled. The removal of a deleted account's stored ledger (App.tsx:210-211) is left out too.
- The 2-second poll and the `storage` event wiring (App.tsx:119-127) are timers and cross-tab events. Only the decision made on each run is modelled.
- Random session ids (App.tsx:98-104) and clock-based account ids (App.tsx:192) are parameters.
- File reading, `Blob` downloads and `JSON.parse`/`JSON.stringify` (App.tsx:233-262) are abstracted. A chosen file is an `ImportedFile`, and re-reading an exported backup is `Reread`.
- PDF and spreadsheet export (App.tsx:315-333), all rendering, and the `alert`/`confirm`/`prompt` dialogs are left out. Dialog answers are parameters.
- Floating point is not modelled: amounts and rates are reals. `parseFloat` is an `Option<real>`, so a NaN rate can never be stored, and `toFixed`/`toLocaleString` formatting is left out.
- Ledger.ProcessText: the handler awaits the extraction call (App.tsx:308) and the model runs it as one atomic step. Changes to the state during the wait are not modelled. Text typed meanwhile is cleared, and a sign-out and a different sign-in during the wait would put the batch into the second account's ledger.
- Accounts.OwnLoginIsNotSuperseded: assumes unique account ids. With a repeated id, `find` (App.tsx:112) reads the first record with that id, not the one just stamped, so this context can be signed out at once.
- Accounts.SecondLoginSupersedesFirst: assumes unique, non-empty account ids and a non-empty second session id. An empty session id is falsy (App.tsx:113), and the random id of App.tsx:101 can be empty, so such a sign-in supersedes nothing.
- Rates.PaddedCodeFindsStored: assumes the stored key is already upper-case. A lower-case key, which a restored backup can bring in, is not matched by the normalised answer, and that answer is added as a new code.
- A reply type outside INCOMING, OUTGOING and UNKNOWN is represented as `Unknown`. The page treats every such string like UNKNOWN (App.tsx:292), and so does every modelled operation.
- Text.ToUpper, Text.UpperChar: only map ASCII a–z; the full Unicode case mapping of `toUpperCase` (including length-changing ones) is not modelled, because currency codes are ASCII.
- The rate map is modelled as a plain map. Inherited JavaScript object keys such as `toString` are not modelled.
- `summaries` mutates the summary object it took from the `Map`. The model instead updates a copy and stores it back with `set`. The final map is the same, since each entry is reachable only through the map.
- In-progress form values (`editValues`, `userEditValues`, the add-user form reset) and the `loading` flag are not modelled. So the rule that only one ingestion may be in flight is not modelled either.
- Accounts.DeleteUserKeepsAnAdmin: assumes unique account ids. Nothing in the code enforces them, and `SharedIdDefeatsLastAdminGuard` shows what happens without them.
- Accounts.SaveUserEditKeepsAnAdmin: assumes unique ids and that the editor is an administrator, as only administrators see the panel (App.tsx:374).
