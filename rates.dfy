/** The exchange-rate map (units of a currency per one US dollar) and the two
    edits the page offers on it (App.tsx:273-285). */
module Rates {
  import opened Wrappers
  import opened Text

  type ExchangeRates = map<string, real>

  /** The rates a fresh ledger starts from. */
  const DefaultRates: ExchangeRates := map["USD" := 1.0, "TRY" := 34.5, "SYP" := 14500.0]

  /** `exchangeRates[c] || 0`: a missing entry reads as 0. */
  function RateOf(rates: ExchangeRates, c: string): (r: real)
    ensures c !in rates ==> r == 0.0
    ensures c in rates ==> r == rates[c]
  {
    if c in rates then rates[c] else 0.0
  }

  /** A rate edit. `parsed` is what `parseFloat` made of the input, None for
      NaN: an unparsable input leaves the map alone, a number overwrites (or
      inserts) that one currency's entry and no other. */
  function HandleRateChange(rates: ExchangeRates, currency: string, parsed: Option<real>): (r: ExchangeRates)
    ensures parsed.None? ==> r == rates
    ensures parsed.Some? ==> r.Keys == rates.Keys + {currency} && r[currency] == parsed.value
    ensures forall c :: c in rates && c != currency ==> c in r && r[c] == rates[c]
  {
    match parsed
    case None => rates
    case Some(v) => rates[currency := v]
  }

  /** A rate edit changes what `RateOf` reads for that currency alone. */
  lemma RateOfAfterChange(rates: ExchangeRates, currency: string, v: real, c: string)
    ensures RateOf(HandleRateChange(rates, currency, Some(v)), c) ==
            if c == currency then v else RateOf(rates, c)
  {
  }

  /** The code a user's answer stands for: trimmed, then upper-cased. It is
      empty only for an all-space answer, and otherwise has no surrounding
      space and no lower-case letter. */
  function CurrencyCode(answer: string): (code: string)
    ensures code == [] <==> forall i :: 0 <= i < |answer| ==> IsJsSpace(answer[i])
    ensures code == [] || (!IsJsSpace(code[0]) && !IsJsSpace(code[|code| - 1]))
    ensures forall i :: 0 <= i < |code| ==> !('a' <= code[i] <= 'z')
  {
    CodeShape(answer);
    ToUpper(Trim(answer))
  }

  lemma CodeShape(answer: string)
    ensures var code := ToUpper(Trim(answer));
            && (code == [] <==> forall i :: 0 <= i < |answer| ==> IsJsSpace(answer[i]))
            && (code == [] || (!IsJsSpace(code[0]) && !IsJsSpace(code[|code| - 1])))
            && (forall i :: 0 <= i < |code| ==> !('a' <= code[i] <= 'z'))
  {
    var t := Trim(answer);
    assert t == [] || (!IsJsSpace(t[0]) && !IsJsSpace(t[|t| - 1])) by {
      TrimEdges(answer);
    }
    assert (t == []) == (forall i :: 0 <= i < |answer| ==> IsJsSpace(answer[i])) by {
      TrimEdges(answer);
    }
    ToUpperKeepsEdges(t);
  }

  /** Surrounding spaces do not matter and case does not matter: an answer
      made of a core padded with spaces stands for the upper-cased core. */
  lemma CurrencyCodeOfPadded(pre: string, core: string, post: string)
    requires forall i :: 0 <= i < |pre| ==> IsJsSpace(pre[i])
    requires forall i :: 0 <= i < |post| ==> IsJsSpace(post[i])
    requires core == [] || (!IsJsSpace(core[0]) && !IsJsSpace(core[|core| - 1]))
    ensures CurrencyCode(pre + core + post) == ToUpper(core)
  {
    TrimOfPadded(pre, core, post);
  }

  /** A code already normalised stands for itself, so typing in a reported
      code gives that same code back. */
  lemma CurrencyCodeIdempotent(answer: string)
    ensures CurrencyCode(CurrencyCode(answer)) == CurrencyCode(answer)
  {
    var t := Trim(answer);
    var code := ToUpper(t);
    if code != [] {
      assert IsJsSpace(code[0]) == IsJsSpace(t[0]);
      assert IsJsSpace(code[|code| - 1]) == IsJsSpace(t[|t| - 1]);
    }
    TrimOfTrimmed(code);
    ToUpperIdempotent(t);
  }

  /** An answer that differs from a stored code only in letter case and
      surrounding space finds that code: when its rate is non-zero the add
      reports it as existing and leaves the map alone. */
  lemma PaddedCodeFindsStored(rates: ExchangeRates, pre: string, core: string, post: string)
    requires forall i :: 0 <= i < |pre| ==> IsJsSpace(pre[i])
    requires forall i :: 0 <= i < |post| ==> IsJsSpace(post[i])
    requires core != [] && !IsJsSpace(core[0]) && !IsJsSpace(core[|core| - 1])
    requires ToUpper(core) in rates && rates[ToUpper(core)] != 0.0
    ensures AddNewCurrency(rates, Some(pre + core + post)) ==
            CurrencyAddition(rates, AlreadyExists(ToUpper(core)))
  {
    CurrencyCodeOfPadded(pre, core, post);
  }

  /** " eur " is reported as existing when "EUR" is stored. */
  lemma SpacedLowerCaseEur()
    ensures AddNewCurrency(map["EUR" := 0.92], Some(" eur ")) ==
            CurrencyAddition(map["EUR" := 0.92], AlreadyExists("EUR"))
  {
    assert " eur " == " " + "eur" + " ";
    assert ToUpper("eur") == "EUR" by {
      assert ToUpper("r") == "R";
      assert ToUpper("ur") == "UR";
    }
    PaddedCodeFindsStored(map["EUR" := 0.92], " ", "eur", " ");
  }

  datatype AddOutcome =
    | Cancelled                 // the prompt was dismissed, or the answer was blank
    | Added(code: string)       // inserted with rate 1
    | AlreadyExists(code: string)  // a truthy rate is already stored; alerted

  datatype CurrencyAddition = CurrencyAddition(rates: ExchangeRates, outcome: AddOutcome)

  /** Adding a currency. `answer` is what `prompt` returned (None for null).
      A blank answer does nothing; otherwise the normalised code is inserted
      with rate 1 exactly when its current value is falsy, which is the case
      for a missing entry and also for a stored rate of 0; any other stored
      rate is reported as already existing and kept. */
  function AddNewCurrency(rates: ExchangeRates, answer: Option<string>): (r: CurrencyAddition)
    ensures r.outcome.Cancelled? <==> answer.None? || CurrencyCode(answer.value) == []
    ensures !r.outcome.Cancelled? ==> r.outcome.code == CurrencyCode(answer.value)
    ensures r.outcome.Added? <==> !r.outcome.Cancelled? && RateOf(rates, r.outcome.code) == 0.0
    ensures r.outcome.Added? ==> r.rates == rates[r.outcome.code := 1.0]
    ensures !r.outcome.Added? ==> r.rates == rates
  {
    match answer
    case None => CurrencyAddition(rates, Cancelled)
    case Some(text) =>
      if text == [] then CurrencyAddition(rates, Cancelled)
      else
        var upper := CurrencyCode(text);
        if upper == [] then CurrencyAddition(rates, Cancelled)
        else if upper !in rates || rates[upper] == 0.0 then
          CurrencyAddition(rates[upper := 1.0], Added(upper))
        else CurrencyAddition(rates, AlreadyExists(upper))
  }

  /** Giving the same answer twice: the second add leaves the map as the
      first add made it, and reports a non-blank code as already present. */
  lemma AddNewCurrencyTwice(rates: ExchangeRates, answer: string)
    ensures var first := AddNewCurrency(rates, Some(answer));
            var second := AddNewCurrency(first.rates, Some(answer));
            && second.rates == first.rates
            && (CurrencyCode(answer) != [] ==> second.outcome == AlreadyExists(CurrencyCode(answer)))
            && (CurrencyCode(answer) == [] ==> second.outcome == Cancelled)
  {
  }

  /** After an add, typing in the code it reported finds that code: the
      second add reports it as existing and keeps the map. */
  lemma AddReportedCodeAgain(rates: ExchangeRates, answer: Option<string>)
    ensures var first := AddNewCurrency(rates, answer);
            first.outcome.Added? ==>
              AddNewCurrency(first.rates, Some(first.outcome.code)) ==
              CurrencyAddition(first.rates, AlreadyExists(first.outcome.code))
  {
    if answer.Some? {
      CurrencyCodeIdempotent(answer.value);
    }
  }

  /** Every code an add reports, added or already present, is non-empty, has
      no lower-case letter and no surrounding space. */
  lemma AddedCodeIsNormalised(rates: ExchangeRates, answer: Option<string>)
    ensures var outcome := AddNewCurrency(rates, answer).outcome;
            !outcome.Cancelled? ==>
              && outcome.code != []
              && !IsJsSpace(outcome.code[0]) && !IsJsSpace(outcome.code[|outcome.code| - 1])
              && forall i :: 0 <= i < |outcome.code| ==> !('a' <= outcome.code[i] <= 'z')
  {
    if answer.Some? {
      var t := Trim(answer.value);
      assert !AddNewCurrency(rates, answer).outcome.Cancelled? ==>
        AddNewCurrency(rates, answer).outcome.code == ToUpper(t);
    }
  }
}
