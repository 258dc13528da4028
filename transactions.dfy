/** The ledger's transaction list and the whole-list replacements the page
    hands to its state setter (App.tsx:309, 458, 600). */
module Transactions {
  import Seqs

  /** INCOMING, OUTGOING and UNKNOWN, the three types the extraction is asked
      for. The reply's type is a free string; anything that is not INCOMING
      is counted as outgoing, so `Unknown` stands for every other string. */
  datatype TransactionType = Incoming | Outgoing | Unknown

  /** One money movement. Amounts are JavaScript numbers, modelled as reals. */
  datatype Transaction = Transaction(
    id: string,
    kind: TransactionType,
    amount: real,
    currency: string,
    description: string)

  /** Processing text appends the extracted batch after what is there:
      `[...prev, ...newTransactions]`. */
  function AppendBatch(txs: seq<Transaction>, batch: seq<Transaction>): (r: seq<Transaction>)
    ensures |r| == |txs| + |batch|
    ensures r[..|txs|] == txs && r[|txs|..] == batch
  {
    txs + batch
  }

  /** Saving an edit: `prev.map(t => t.id === edited.id ? edited : t)`. Only
      the records carrying the edited id change, ids and length are kept,
      and an id that is not present leaves the list as it was. */
  function ReplaceById(txs: seq<Transaction>, edited: Transaction): (r: seq<Transaction>)
    ensures |r| == |txs|
    ensures forall i :: 0 <= i < |txs| ==> r[i].id == txs[i].id
    ensures forall i :: 0 <= i < |txs| && txs[i].id != edited.id ==> r[i] == txs[i]
    ensures forall i :: 0 <= i < |txs| && txs[i].id == edited.id ==> r[i] == edited
    ensures (forall i :: 0 <= i < |txs| ==> txs[i].id != edited.id) ==> r == txs
  {
    Seqs.ReplaceWhere(txs, HasId(edited.id), (t: Transaction) => edited)
  }

  /** Deleting: `prev.filter(item => item.id !== id)`. No record with the id
      survives, every survivor was there before, and an absent id leaves the
      list as it was. */
  function DeleteById(txs: seq<Transaction>, id: string): (r: seq<Transaction>)
    ensures |r| <= |txs|
    ensures forall i :: 0 <= i < |r| ==> r[i] in txs && r[i].id != id
    ensures (forall i :: 0 <= i < |txs| ==> txs[i].id != id) ==> r == txs
  {
    Seqs.Filter(txs, OtherThan(id))
  }

  /** Deleting keeps every record with another id as often as it occurred. */
  lemma DeleteByIdKeepsOthers(txs: seq<Transaction>, id: string, t: Transaction)
    requires t.id != id
    ensures multiset(DeleteById(txs, id))[t] == multiset(txs)[t]
  {
    Seqs.FilterCounts(txs, OtherThan(id), t);
  }

  /** The test of an edit's `map`: the record carries the edited id. */
  function HasId(id: string): Transaction -> bool {
    (t: Transaction) => t.id == id
  }

  /** The `filter` callback of a delete: keep the records with another id. */
  function OtherThan(id: string): Transaction -> bool {
    (t: Transaction) => t.id != id
  }

  /** Deleting distributes over concatenation, so the survivors keep their order. */
  lemma DeleteByIdAppend(a: seq<Transaction>, b: seq<Transaction>, id: string)
    ensures DeleteById(a + b, id) == DeleteById(a, id) + DeleteById(b, id)
  {
    Seqs.FilterAppend(a, b, OtherThan(id));
  }

  /** The ids of a list, in order. */
  function IdsOf(txs: seq<Transaction>): (ids: seq<string>)
    ensures |ids| == |txs| && forall i :: 0 <= i < |txs| ==> ids[i] == txs[i].id
  {
    seq(|txs|, i requires 0 <= i < |txs| => txs[i].id)
  }

  /** Deleting each id of `ids` in turn: what is left comes from the list and
      carries none of those ids. */
  function DeleteEach(txs: seq<Transaction>, ids: seq<string>): (r: seq<Transaction>)
    ensures forall i :: 0 <= i < |r| ==> r[i] in txs && r[i].id !in ids
    decreases |ids|
  {
    if ids == [] then txs else DeleteEach(DeleteById(txs, ids[0]), ids[1..])
  }

  /** Deleting a set of ids that the list does not use from the list followed
      by records that all use them gives back the list. */
  lemma {:induction false} DeleteEachAppend(txs: seq<Transaction>, b: seq<Transaction>, ids: seq<string>)
    requires forall i :: 0 <= i < |txs| ==> txs[i].id !in ids
    requires forall i :: 0 <= i < |b| ==> b[i].id in ids
    ensures DeleteEach(txs + b, ids) == txs
    decreases |ids|
  {
    if ids == [] {
      assert |b| == 0;
      assert txs + b == txs;
    } else {
      var id := ids[0];
      DeleteByIdAppend(txs, b, id);
      assert forall i :: 0 <= i < |txs| ==> txs[i].id != id;
      var rest := DeleteById(b, id);
      assert forall i :: 0 <= i < |rest| ==> rest[i].id in ids[1..] by {
        forall i | 0 <= i < |rest| ensures rest[i].id in ids[1..] {
          assert rest[i] in b;
          assert rest[i].id in ids && rest[i].id != id;
          assert ids == [id] + ids[1..];
        }
      }
      DeleteEachAppend(txs, rest, ids[1..]);
    }
  }

  /** Appending an extracted batch whose ids the list does not use, then
      deleting each of the batch's records by id, gives back the list before
      the append. */
  lemma AppendThenDeleteRestores(txs: seq<Transaction>, batch: seq<Transaction>)
    requires forall i, j :: 0 <= i < |txs| && 0 <= j < |batch| ==> txs[i].id != batch[j].id
    ensures DeleteEach(AppendBatch(txs, batch), IdsOf(batch)) == txs
  {
    var ids := IdsOf(batch);
    forall i | 0 <= i < |batch| ensures batch[i].id in ids {
      assert ids[i] == batch[i].id;
    }
    DeleteEachAppend(txs, batch, ids);
  }
}
