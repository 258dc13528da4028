/** Per-currency summaries and the headline USD total (App.tsx:287-301):
    a pure "group by currency, then sum" specification, the page's
    single-pass loop over an insertion-ordered map proved equal to it, and
    the properties the summaries promise. */
module Summaries {
  import opened Transactions
  import opened Rates

  datatype CurrencySummary = CurrencySummary(
    currency: string,
    totalIncoming: real,
    totalOutgoing: real,
    balance: real,
    usdValue: real)

  /** `rate > 0 ? balance / rate : 0`: the USD value of a balance; zero for a
      rate that is zero, negative or missing, never a division by zero. */
  function UsdValue(balance: real, rate: real): (v: real)
    ensures rate > 0.0 ==> v * rate == balance
    ensures rate <= 0.0 ==> v == 0.0
  {
    if rate > 0.0 then balance / rate else 0.0
  }

  /** Whether a transaction feeds the incoming total of currency `c`. */
  predicate CountsAsIncoming(t: Transaction, c: string) {
    t.currency == c && t.kind == Incoming
  }

  /** Whether a transaction feeds the outgoing total of currency `c`: every
      type other than INCOMING does, UNKNOWN included. */
  predicate CountsAsOutgoing(t: Transaction, c: string) {
    t.currency == c && t.kind != Incoming
  }

  /** Sum of the INCOMING amounts in currency `c`. */
  function IncomingOf(txs: seq<Transaction>, c: string): real {
    if txs == [] then 0.0
    else
      var t := txs[|txs| - 1];
      IncomingOf(txs[..|txs| - 1], c) + (if CountsAsIncoming(t, c) then t.amount else 0.0)
  }

  /** Sum of the non-INCOMING amounts in currency `c`. */
  function OutgoingOf(txs: seq<Transaction>, c: string): real {
    if txs == [] then 0.0
    else
      var t := txs[|txs| - 1];
      OutgoingOf(txs[..|txs| - 1], c) + (if CountsAsOutgoing(t, c) then t.amount else 0.0)
  }

  /** The distinct currencies of `txs`, each at the place of its first occurrence. */
  function Currencies(txs: seq<Transaction>): seq<string> {
    if txs == [] then []
    else
      var seen := Currencies(txs[..|txs| - 1]);
      var c := txs[|txs| - 1].currency;
      if c in seen then seen else seen + [c]
  }

  /** The summary of one currency, from the totals of the whole list. */
  function SummaryOf(txs: seq<Transaction>, rates: ExchangeRates, c: string): CurrencySummary {
    var inc := IncomingOf(txs, c);
    var out := OutgoingOf(txs, c);
    CurrencySummary(c, inc, out, inc - out, UsdValue(inc - out, RateOf(rates, c)))
  }

  /** The specification of `summaries`: one summary per distinct currency,
      in first-seen order. */
  function Summarize(txs: seq<Transaction>, rates: ExchangeRates): seq<CurrencySummary> {
    var cs := Currencies(txs);
    seq(|cs|, k requires 0 <= k < |cs| => SummaryOf(txs, rates, cs[k]))
  }

  /** `totalUsdBalance`: `summaries.reduce((acc, curr) => acc + curr.usdValue, 0)`. */
  function TotalUsd(summaries: seq<CurrencySummary>): (total: real)
    ensures summaries == [] ==> total == 0.0
    ensures (forall k :: 0 <= k < |summaries| ==> summaries[k].usdValue >= 0.0) ==> total >= 0.0
    ensures (forall k :: 0 <= k < |summaries| ==> summaries[k].usdValue <= 0.0) ==> total <= 0.0
  {
    if summaries == [] then 0.0
    else TotalUsd(summaries[..|summaries| - 1]) + summaries[|summaries| - 1].usdValue
  }

  /** The page's map after reading the prefix `p`: keys in first-seen order,
      and the entry of each key the summary of that currency over `p`. */
  ghost predicate Tracks(order: seq<string>, acc: map<string, CurrencySummary>,
                         p: seq<Transaction>, rates: ExchangeRates)
  {
    && order == Currencies(p)
    && (forall c :: c in acc <==> c in order)
    && (forall c :: c in acc ==> acc[c] == SummaryOf(p, rates, c))
  }

  /** The `summaries` memo as the page runs it: one pass over the list,
      looking each currency up in an insertion-ordered map (`order` keeps the
      map's key order, `acc` its entries), adding the amount to one total and
      recomputing balance and USD value in place, then listing the entries in
      key order. It computes exactly the specification. */
  method ComputeSummaries(txs: seq<Transaction>, rates: ExchangeRates) returns (summaries: seq<CurrencySummary>)
    ensures summaries == Summarize(txs, rates)
  {
    var order: seq<string> := [];
    var acc: map<string, CurrencySummary> := map[];
    var i := 0;
    while i < |txs|
      invariant 0 <= i <= |txs|
      invariant Tracks(order, acc, txs[..i], rates)
    {
      var t := txs[i];
      ghost var next := txs[..i + 1];
      assert next == txs[..i] + [t];
      TracksLookup(order, acc, txs[..i], next, t, rates);
      var current := if t.currency in acc then acc[t.currency]
                     else CurrencySummary(t.currency, 0.0, 0.0, 0.0, 0.0);
      if t.kind == Incoming {
        current := current.(totalIncoming := current.totalIncoming + t.amount);
      } else {
        current := current.(totalOutgoing := current.totalOutgoing + t.amount);
      }
      current := current.(balance := current.totalIncoming - current.totalOutgoing);
      var rate := RateOf(rates, t.currency);
      current := current.(usdValue := UsdValue(current.balance, rate));
      assert current == SummaryOf(next, rates, t.currency);
      TracksExtend(order, acc, txs[..i], next, t, rates, current);
      if t.currency !in acc {
        order := order + [t.currency];
      }
      acc := acc[t.currency := current];
      i := i + 1;
    }
    assert txs[..i] == txs;
    summaries := seq(|order|, k requires 0 <= k < |order| => acc[order[k]]);
    TracksDone(order, acc, txs, rates, summaries);
  }

  /** Listing the entries of a map that tracks the whole list, in key order,
      gives the specification. */
  lemma TracksDone(order: seq<string>, acc: map<string, CurrencySummary>,
                   txs: seq<Transaction>, rates: ExchangeRates, listed: seq<CurrencySummary>)
    requires Tracks(order, acc, txs, rates)
    requires |listed| == |order| && forall k :: 0 <= k < |order| ==> order[k] in acc && listed[k] == acc[order[k]]
    ensures listed == Summarize(txs, rates)
  {
  }

  /** Looking the next transaction's currency up in the map finds its totals
      over the prefix read so far (zero when it is new). */
  lemma TracksLookup(order: seq<string>, acc: map<string, CurrencySummary>,
                     p: seq<Transaction>, next: seq<Transaction>, t: Transaction, rates: ExchangeRates)
    requires Tracks(order, acc, p, rates) && next == p + [t]
    ensures var cur := if t.currency in acc then acc[t.currency]
                       else CurrencySummary(t.currency, 0.0, 0.0, 0.0, 0.0);
            && cur.currency == t.currency
            && cur.totalIncoming + (if t.kind == Incoming then t.amount else 0.0) == IncomingOf(next, t.currency)
            && cur.totalOutgoing + (if t.kind != Incoming then t.amount else 0.0) == OutgoingOf(next, t.currency)
  {
    StepSummaries(p, t, rates);
  }

  /** Storing the updated entry keeps the map in step with the longer prefix. */
  lemma TracksExtend(order: seq<string>, acc: map<string, CurrencySummary>,
                     p: seq<Transaction>, next: seq<Transaction>, t: Transaction, rates: ExchangeRates,
                     current: CurrencySummary)
    requires Tracks(order, acc, p, rates) && next == p + [t]
    requires current == SummaryOf(next, rates, t.currency)
    ensures Tracks(if t.currency in acc then order else order + [t.currency],
                   acc[t.currency := current], next, rates)
  {
    StepSummaries(p, t, rates);
  }

  /** A currency that does not occur has zero totals. */
  lemma {:induction false} AbsentCurrencyHasZeroTotals(txs: seq<Transaction>, c: string)
    requires c !in Currencies(txs)
    ensures IncomingOf(txs, c) == 0.0 && OutgoingOf(txs, c) == 0.0
  {
    if txs != [] {
      AbsentCurrencyHasZeroTotals(txs[..|txs| - 1], c);
    }
  }

  /** One transaction `t` appended to `p` adds its amount to exactly one total
      of its own currency and leaves every other currency's totals alone. */
  lemma StepSummaries(p: seq<Transaction>, t: Transaction, rates: ExchangeRates)
    ensures var q := p + [t];
      && Currencies(q) == (if t.currency in Currencies(p) then Currencies(p) else Currencies(p) + [t.currency])
      && (forall c :: c != t.currency ==> SummaryOf(q, rates, c) == SummaryOf(p, rates, c))
      && IncomingOf(q, t.currency) == IncomingOf(p, t.currency) + (if t.kind == Incoming then t.amount else 0.0)
      && OutgoingOf(q, t.currency) == OutgoingOf(p, t.currency) + (if t.kind != Incoming then t.amount else 0.0)
      && (t.currency !in Currencies(p) ==> IncomingOf(p, t.currency) == 0.0 && OutgoingOf(p, t.currency) == 0.0)
  {
    var q := p + [t];
    assert q[..|q| - 1] == p;
    if t.currency !in Currencies(p) {
      AbsentCurrencyHasZeroTotals(p, t.currency);
    }
  }

  /** Some transaction before position `k` is in currency `c`. */
  ghost predicate OccursBefore(txs: seq<Transaction>, c: string, k: int) {
    exists m :: 0 <= m < k && m < |txs| && txs[m].currency == c
  }

  /** Occurrences in a prefix are occurrences in the whole list. */
  lemma OccursInPrefix(txs: seq<Transaction>, n: nat, c: string, k: int)
    requires n <= |txs| && k <= n
    requires OccursBefore(txs[..n], c, k)
    ensures OccursBefore(txs, c, k)
  {
    var m :| 0 <= m < k && m < n && txs[..n][m].currency == c;
    assert txs[m].currency == c;
  }

  /** The summaries name each currency of the list, and only those. */
  lemma {:induction false} CurrenciesAreThoseOccurring(txs: seq<Transaction>)
    ensures forall c :: c in Currencies(txs) <==> OccursBefore(txs, c, |txs|)
  {
    if txs != [] {
      var n := |txs| - 1;
      var p, t := txs[..n], txs[n];
      CurrenciesAreThoseOccurring(p);
      forall c ensures c in Currencies(txs) <==> OccursBefore(txs, c, |txs|) {
        if c in Currencies(p) {
          OccursInPrefix(txs, n, c, n);
        }
      }
    }
  }

  /** Each currency is summarised once. */
  lemma {:induction false} CurrenciesAreDistinct(txs: seq<Transaction>)
    ensures forall i, j :: 0 <= i < j < |Currencies(txs)| ==> Currencies(txs)[i] != Currencies(txs)[j]
  {
    if txs != [] {
      CurrenciesAreDistinct(txs[..|txs| - 1]);
    }
  }

  /** The summaries come in the order of each currency's first occurrence:
      wherever the later one occurs, the earlier one has already occurred. */
  lemma {:induction false} CurrenciesInFirstSeenOrder(txs: seq<Transaction>)
    ensures forall i, j, k :: 0 <= i < j < |Currencies(txs)| && 0 <= k < |txs| && txs[k].currency == Currencies(txs)[j]
              ==> OccursBefore(txs, Currencies(txs)[i], k)
  {
    if txs != [] {
      var n := |txs| - 1;
      var p, t := txs[..n], txs[n];
      var cp, cs := Currencies(p), Currencies(txs);
      CurrenciesInFirstSeenOrder(p);
      CurrenciesAreThoseOccurring(p);
      forall i, j, k | 0 <= i < j < |cs| && 0 <= k < |txs| && txs[k].currency == cs[j]
        ensures OccursBefore(txs, cs[i], k)
      {
        assert cs[i] == cp[i];
        if j < |cp| {
          assert cs[j] == cp[j];
          var k0 := k;
          if k == n {
            assert OccursBefore(p, cp[j], n);
            k0 :| 0 <= k0 < n && p[k0].currency == cp[j];
          }
          assert p[k0].currency == cp[j];
          OccursInPrefix(txs, n, cp[i], k0);
        } else {
          assert cs[j] == t.currency && t.currency !in cp;
          assert OccursBefore(p, cp[i], n);
          OccursInPrefix(txs, n, cp[i], n);
        }
      }
    }
  }

  /** Every summary reports its currency's totals over the whole list, a
      balance equal to incoming minus outgoing, and that balance converted at
      the currency's rate, or zero when the rate is zero or missing. */
  lemma SummaryFields(txs: seq<Transaction>, rates: ExchangeRates, k: nat)
    requires k < |Summarize(txs, rates)|
    ensures var s := Summarize(txs, rates)[k];
      && s.currency == Currencies(txs)[k]
      && s.totalIncoming == IncomingOf(txs, s.currency)
      && s.totalOutgoing == OutgoingOf(txs, s.currency)
      && s.balance == s.totalIncoming - s.totalOutgoing
      && (RateOf(rates, s.currency) > 0.0 ==> s.usdValue * RateOf(rates, s.currency) == s.balance)
      && (RateOf(rates, s.currency) <= 0.0 ==> s.usdValue == 0.0)
  {
  }

  /** Sum of the INCOMING amounts of the whole list, whatever the currency. */
  function AllIncoming(txs: seq<Transaction>): real {
    if txs == [] then 0.0
    else
      var t := txs[|txs| - 1];
      AllIncoming(txs[..|txs| - 1]) + (if t.kind == Incoming then t.amount else 0.0)
  }

  /** Sum of the other amounts of the whole list, whatever the currency. */
  function AllOutgoing(txs: seq<Transaction>): real {
    if txs == [] then 0.0
    else
      var t := txs[|txs| - 1];
      AllOutgoing(txs[..|txs| - 1]) + (if t.kind != Incoming then t.amount else 0.0)
  }

  function SumIncoming(ss: seq<CurrencySummary>): real {
    if ss == [] then 0.0 else SumIncoming(ss[..|ss| - 1]) + ss[|ss| - 1].totalIncoming
  }

  function SumOutgoing(ss: seq<CurrencySummary>): real {
    if ss == [] then 0.0 else SumOutgoing(ss[..|ss| - 1]) + ss[|ss| - 1].totalOutgoing
  }

  /** Raising the totals of one entry raises the sums by as much. */
  lemma {:induction false} SumsShift(a: seq<CurrencySummary>, b: seq<CurrencySummary>, k: nat, dIn: real, dOut: real)
    requires |a| == |b| && k < |a|
    requires forall j :: 0 <= j < |a| && j != k ==> a[j] == b[j]
    requires b[k].totalIncoming == a[k].totalIncoming + dIn
    requires b[k].totalOutgoing == a[k].totalOutgoing + dOut
    ensures SumIncoming(b) == SumIncoming(a) + dIn
    ensures SumOutgoing(b) == SumOutgoing(a) + dOut
  {
    var n := |a| - 1;
    if k < n {
      SumsShift(a[..n], b[..n], k, dIn, dOut);
    } else {
      assert a[..n] == b[..n];
    }
  }

  /** The summaries partition the list: every transaction is counted in
      exactly one summary, on exactly one side, so the incoming totals add
      up to all INCOMING amounts and the outgoing totals to all others. */
  lemma {:induction false} SummariesPartition(txs: seq<Transaction>, rates: ExchangeRates)
    ensures SumIncoming(Summarize(txs, rates)) == AllIncoming(txs)
    ensures SumOutgoing(Summarize(txs, rates)) == AllOutgoing(txs)
  {
    if txs != [] {
      var n := |txs| - 1;
      var p, t := txs[..n], txs[n];
      assert txs == p + [t];
      SummariesPartition(p, rates);
      PartitionStep(p, t, rates);
    }
  }

  /** One more transaction raises the summed totals by its amount, on its
      own side. */
  lemma PartitionStep(p: seq<Transaction>, t: Transaction, rates: ExchangeRates)
    ensures SumIncoming(Summarize(p + [t], rates)) ==
            SumIncoming(Summarize(p, rates)) + (if t.kind == Incoming then t.amount else 0.0)
    ensures SumOutgoing(Summarize(p + [t], rates)) ==
            SumOutgoing(Summarize(p, rates)) + (if t.kind != Incoming then t.amount else 0.0)
  {
    StepSummaries(p, t, rates);
    var a, b := Summarize(p, rates), Summarize(p + [t], rates);
    var dIn := if t.kind == Incoming then t.amount else 0.0;
    var dOut := if t.kind != Incoming then t.amount else 0.0;
    if t.currency in Currencies(p) {
      var k :| 0 <= k < |Currencies(p)| && Currencies(p)[k] == t.currency;
      CurrenciesAreDistinct(p);
      SumsShift(a, b, k, dIn, dOut);
    } else {
      CurrenciesAreDistinct(p + [t]);
      assert b[..|b| - 1] == a by {
        forall j | 0 <= j < |a| ensures b[j] == a[j] {
          assert Currencies(p)[j] != t.currency;
        }
      }
    }
  }

  /** Appending to the list adds the totals of the appended part. */
  lemma {:induction false} TotalsOfAppend(a: seq<Transaction>, b: seq<Transaction>, c: string)
    ensures IncomingOf(a + b, c) == IncomingOf(a, c) + IncomingOf(b, c)
    ensures OutgoingOf(a + b, c) == OutgoingOf(a, c) + OutgoingOf(b, c)
  {
    if b == [] {
      assert a + b == a;
    } else {
      var n := |b| - 1;
      assert (a + b)[..|a + b| - 1] == a + b[..n];
      TotalsOfAppend(a, b[..n], c);
    }
  }

  /** A list whose currencies all have rate 1 has a USD total equal to its
      net amount: everything incoming minus everything else. */
  lemma {:induction false} TotalUsdAtParity(txs: seq<Transaction>, rates: ExchangeRates)
    requires forall i :: 0 <= i < |txs| ==> RateOf(rates, txs[i].currency) == 1.0
    ensures TotalUsd(Summarize(txs, rates)) == AllIncoming(txs) - AllOutgoing(txs)
  {
    var ss := Summarize(txs, rates);
    CurrenciesAreThoseOccurring(txs);
    forall k | 0 <= k < |ss| ensures ss[k].usdValue == ss[k].totalIncoming - ss[k].totalOutgoing {
      var c := Currencies(txs)[k];
      assert OccursBefore(txs, c, |txs|);
    }
    UsdTotalOfBalances(ss);
    SummariesPartition(txs, rates);
  }

  /** The reduce adds up every summary once: the total of a concatenation is
      the sum of the parts' totals, whatever the split. */
  lemma {:induction false} TotalUsdAppend(a: seq<CurrencySummary>, b: seq<CurrencySummary>)
    ensures TotalUsd(a + b) == TotalUsd(a) + TotalUsd(b)
    decreases |b|
  {
    if b == [] {
      assert a + b == a;
    } else {
      var front := b[..|b| - 1];
      assert (a + b)[..|a + b| - 1] == a + front;
      TotalUsdAppend(a, front);
    }
  }

  /** When every entry's USD value is its balance, the total is the
      difference of the summed totals. */
  lemma {:induction false} UsdTotalOfBalances(ss: seq<CurrencySummary>)
    requires forall k :: 0 <= k < |ss| ==> ss[k].usdValue == ss[k].totalIncoming - ss[k].totalOutgoing
    ensures TotalUsd(ss) == SumIncoming(ss) - SumOutgoing(ss)
  {
    if ss != [] {
      UsdTotalOfBalances(ss[..|ss| - 1]);
    }
  }

  /** The headline total of an empty ledger is 0, whatever the rates. */
  lemma EmptyLedgerTotal(rates: ExchangeRates)
    ensures Summarize([], rates) == [] && TotalUsd(Summarize([], rates)) == 0.0
  {
  }

  /** A worked example: 100 USD in, 30 USD out and 5000 TRY in at 34.5 TRY
      per dollar give two summaries, USD first, and a total of
      70 + 5000 / 34.5 dollars. */
  lemma WorkedExample()
    ensures var txs := [
        Transaction("1", Incoming, 100.0, "USD", "a"),
        Transaction("2", Outgoing, 30.0, "USD", "b"),
        Transaction("3", Incoming, 5000.0, "TRY", "c")];
      var ss := Summarize(txs, map["USD" := 1.0, "TRY" := 34.5]);
      && ss == [CurrencySummary("USD", 100.0, 30.0, 70.0, 70.0),
                CurrencySummary("TRY", 5000.0, 0.0, 5000.0, 5000.0 / 34.5)]
      && TotalUsd(ss) == 70.0 + 5000.0 / 34.5
  {
    var txs := [
        Transaction("1", Incoming, 100.0, "USD", "a"),
        Transaction("2", Outgoing, 30.0, "USD", "b"),
        Transaction("3", Incoming, 5000.0, "TRY", "c")];
    assert txs[..2][..1] == txs[..1] && txs[..1][..0] == [];
    assert Currencies(txs[..1]) == ["USD"];
    assert Currencies(txs[..2]) == ["USD"];
    assert Currencies(txs) == ["USD", "TRY"];
    assert IncomingOf(txs[..1], "USD") == 100.0 && OutgoingOf(txs[..1], "USD") == 0.0;
    assert IncomingOf(txs[..2], "USD") == 100.0 && OutgoingOf(txs[..2], "USD") == 30.0;
    assert IncomingOf(txs, "USD") == 100.0 && OutgoingOf(txs, "USD") == 30.0;
    AbsentCurrencyHasZeroTotals(txs[..2], "TRY");
    assert IncomingOf(txs, "TRY") == 5000.0 && OutgoingOf(txs, "TRY") == 0.0;
    var ss := Summarize(txs, map["USD" := 1.0, "TRY" := 34.5]);
    assert ss[..1][..0] == [] && ss[..2][..1] == ss[..1];
  }
}
