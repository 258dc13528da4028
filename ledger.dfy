/** The ledger page of one signed-in account: its transactions, its rates,
    the text waiting to be processed, a staged restore and the error banner.
    Every handler replaces this state wholesale, as the page's setters do. */
module Ledger {
  import opened Wrappers
  import opened Text
  import opened Transactions
  import opened Rates
  import opened Summaries

  /** The messages the page can show in its error banner. */
  datatype Notice =
    | ExtractionFailed(message: string)  // the extraction call failed with this message
    | ProcessingFailed                   // it failed without a message
    | InvalidFile                        // a backup without transactions or rates
    | FileReadFailed                     // a backup that is not JSON

  /** A parsed backup waiting for the user's confirmation. */
  datatype PendingRestore = PendingRestore(
    transactions: seq<Transaction>,
    rates: ExchangeRates,
    count: nat,
    date: string)

  datatype LedgerState = LedgerState(
    transactions: seq<Transaction>,
    rates: ExchangeRates,
    inputText: string,
    pending: Option<PendingRestore>,
    error: Option<Notice>)

  /** What a backup file holds: the ledger, the rates, when and by whom. */
  datatype Backup = Backup(
    transactions: seq<Transaction>,
    exchangeRates: ExchangeRates,
    exportDate: string,
    owner: Option<string>)

  /** A chosen backup file after `JSON.parse`: not JSON at all, or an object
      whose `transactions`, `exchangeRates` and `exportDate` fields may each
      be missing. */
  datatype ImportedFile =
    | Unreadable
    | Parsed(transactions: Option<seq<Transaction>>,
             exchangeRates: Option<ExchangeRates>,
             exportDate: Option<string>)

  /** Opening an account's ledger: its stored transactions (none when
      nothing is stored) and its stored rates (the default rates when none
      are stored); the rest of the page state is kept. */
  function LoadLedger(l: LedgerState, savedTransactions: Option<seq<Transaction>>,
                      savedRates: Option<ExchangeRates>): (r: LedgerState)
    ensures r.transactions == (if savedTransactions.Some? then savedTransactions.value else [])
    ensures r.rates == (if savedRates.Some? then savedRates.value else DefaultRates)
    ensures r.inputText == l.inputText && r.pending == l.pending && r.error == l.error
  {
    l.(transactions := if savedTransactions.Some? then savedTransactions.value else [],
       rates := if savedRates.Some? then savedRates.value else DefaultRates)
  }

  /** Processing the pasted text. `reply` is the outcome of the one call to
      the extraction service. Blank text does nothing; a successful reply is
      appended in full and clears the text; a failed one appends nothing and
      shows its message, or a generic one when the message is empty. */
  function ProcessText(l: LedgerState, reply: Result<seq<Transaction>, string>): (r: LedgerState)
    ensures Trim(l.inputText) == [] ==> r == l
    ensures r.rates == l.rates && r.pending == l.pending
    ensures Trim(l.inputText) != [] && reply.Ok? ==>
              r.transactions == AppendBatch(l.transactions, reply.value) && r.inputText == [] && r.error == None
    ensures Trim(l.inputText) != [] && reply.Err? ==>
              r.transactions == l.transactions && r.inputText == l.inputText
              && r.error == Some(if reply.error != [] then ExtractionFailed(reply.error) else ProcessingFailed)
  {
    if Trim(l.inputText) == [] then l
    else match reply
      case Ok(batch) => l.(transactions := AppendBatch(l.transactions, batch), inputText := [], error := None)
      case Err(message) =>
        l.(error := Some(if message != [] then ExtractionFailed(message) else ProcessingFailed))
  }

  /** After a successful processing of non-blank text, every currency's
      totals are its old totals plus those of the extracted batch. */
  lemma ProcessTextAddsBatchTotals(l: LedgerState, batch: seq<Transaction>, c: string)
    ensures var r := ProcessText(l, Ok(batch));
      Trim(l.inputText) != [] ==>
        && IncomingOf(r.transactions, c) == IncomingOf(l.transactions, c) + IncomingOf(batch, c)
        && OutgoingOf(r.transactions, c) == OutgoingOf(l.transactions, c) + OutgoingOf(batch, c)
  {
    TotalsOfAppend(l.transactions, batch, c);
  }

  /** Saving an edited transaction: only the record with its id is replaced. */
  function SaveTransactionEdit(l: LedgerState, edited: Option<Transaction>): (r: LedgerState)
    ensures edited.None? ==> r == l
    ensures edited.Some? ==> r == l.(transactions := ReplaceById(l.transactions, edited.value))
    ensures |r.transactions| == |l.transactions|
  {
    match edited
    case None => l
    case Some(e) => l.(transactions := ReplaceById(l.transactions, e))
  }

  /** Deleting a transaction by its id. */
  function DeleteTransaction(l: LedgerState, id: string): (r: LedgerState)
    ensures r == l.(transactions := DeleteById(l.transactions, id))
    ensures forall i :: 0 <= i < |r.transactions| ==> r.transactions[i].id != id
  {
    l.(transactions := DeleteById(l.transactions, id))
  }

  /** Clearing the ledger after confirmation: no transactions are left, so
      there are no summaries and the headline total is 0; the rates stay. */
  function ClearTransactions(l: LedgerState): (r: LedgerState)
    ensures r == l.(transactions := [])
    ensures r.rates == l.rates && r.transactions == []
    ensures Summarize(r.transactions, r.rates) == [] && TotalUsd(Summarize(r.transactions, r.rates)) == 0.0
  {
    l.(transactions := [])
  }

  /** The backup the page offers for download; `now` is the export time and
      `owner` the signed-in user's name, if any. */
  function ExportBackup(l: LedgerState, now: string, owner: Option<string>): (b: Backup)
    ensures b.transactions == l.transactions && b.exchangeRates == l.rates
    ensures b.exportDate == now && b.owner == owner
  {
    Backup(l.transactions, l.rates, now, owner)
  }

  /** Reading a downloaded backup back: `JSON.parse(JSON.stringify(b))` gives
      the same three fields. */
  function Reread(b: Backup): ImportedFile {
    Parsed(Some(b.transactions), Some(b.exchangeRates), Some(b.exportDate))
  }

  /** Importing a backup stages it for confirmation and never applies it. A
      file that is not JSON, or that lacks the transactions or the rates, is
      refused with its own message. The staged date is the export date, or
      `now` when the file has none. */
  function StageImport(l: LedgerState, file: ImportedFile, now: string): (r: LedgerState)
    ensures r.transactions == l.transactions && r.rates == l.rates && r.inputText == l.inputText
    ensures file.Unreadable? ==> r == l.(error := Some(FileReadFailed))
    ensures file.Parsed? && (file.transactions.None? || file.exchangeRates.None?) ==>
              r == l.(error := Some(InvalidFile))
    ensures file.Parsed? && file.transactions.Some? && file.exchangeRates.Some? ==>
              && r.error == l.error
              && r.pending.Some?
              && r.pending.value.transactions == file.transactions.value
              && r.pending.value.rates == file.exchangeRates.value
              && r.pending.value.count == |file.transactions.value|
              && r.pending.value.date == (if file.exportDate.Some? && file.exportDate.value != [] then file.exportDate.value else now)
  {
    match file
    case Unreadable => l.(error := Some(FileReadFailed))
    case Parsed(txs, rates, date) =>
      if txs.Some? && rates.Some? then
        var when := if date.Some? && date.value != [] then date.value else now;
        l.(pending := Some(PendingRestore(txs.value, rates.value, |txs.value|, when)))
      else l.(error := Some(InvalidFile))
  }

  /** Confirming a staged restore replaces the transactions and the rates
      outright (no merge) and drops the staged copy; with nothing staged it
      does nothing. */
  function ExecuteRestore(l: LedgerState): (r: LedgerState)
    ensures l.pending.None? ==> r == l
    ensures l.pending.Some? ==>
              && r.transactions == l.pending.value.transactions
              && r.rates == l.pending.value.rates
              && r.pending.None?
              && r.inputText == l.inputText && r.error == l.error
  {
    match l.pending
    case None => l
    case Some(p) => l.(transactions := p.transactions, rates := p.rates, pending := None)
  }

  /** Exporting a ledger, importing the file into any ledger and confirming
      reproduces the exported transactions and rates, and so its summaries
      and headline total. */
  lemma BackupRoundTrip(exported: LedgerState, now: string, owner: Option<string>,
                        current: LedgerState, later: string)
    ensures var r := ExecuteRestore(StageImport(current, Reread(ExportBackup(exported, now, owner)), later));
      && r.transactions == exported.transactions
      && r.rates == exported.rates
      && Summarize(r.transactions, r.rates) == Summarize(exported.transactions, exported.rates)
  {
  }
}
