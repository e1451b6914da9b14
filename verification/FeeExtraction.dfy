/** `extractFeesFromTrades`: the fee of an order from the trades that filled it. */
module FeeExtraction {
  import opened Tables

  /** A fee as the exchange reports it; the cost may be absent. */
  datatype RawFee = RawFee(cost: Option<real>, currency: string)

  datatype Trade = Trade(fee: Option<RawFee>, fees: seq<RawFee>)

  datatype Extracted = Extracted(amount: real, currency: string)

  predicate Counts(f: RawFee) {
    f.cost.Some? && f.currency != "" && f.cost.value > 0.0
  }

  function Counted(fees: seq<RawFee>): (r: seq<RawFee>)
    ensures forall f <- r :: Counts(f)
  {
    if fees == [] then []
    else
      var f := fees[|fees| - 1];
      var rest := Counted(fees[..|fees| - 1]);
      if Counts(f) then rest + [f] else rest
  }

  /** The fees of a trade: the single one, then the list. */
  function FeesOf(t: Trade): seq<RawFee> {
    (if t.fee.Some? then [t.fee.value] else []) + t.fees
  }

  function AllFees(trades: seq<Trade>): seq<RawFee> {
    if trades == [] then [] else AllFees(trades[..|trades| - 1]) + FeesOf(trades[|trades| - 1])
  }

  function TotalIn(fees: seq<RawFee>, currency: string): real {
    if fees == [] then 0.0
    else
      var f := fees[|fees| - 1];
      TotalIn(fees[..|fees| - 1], currency) + if Counts(f) && f.currency == currency then f.cost.value else 0.0
  }

  /** The currencies that have a fee, in the order in which they first occur. */
  function Currencies(fees: seq<RawFee>): seq<string> {
    if fees == [] then []
    else
      var f := fees[|fees| - 1];
      var before := Currencies(fees[..|fees| - 1]);
      if Counts(f) && f.currency !in before then before + [f.currency] else before
  }

  /** `feesByCurrency`, an object whose keys keep their insertion order. */
  class Accumulator {
    var keys: seq<string>
    var sums: map<string, real>

    ghost predicate Holds(fees: seq<RawFee>)
      reads this
    {
      && keys == Currencies(fees)
      && (forall c :: c in sums <==> c in keys)
      && forall c <- sums :: sums[c] == TotalIn(fees, c)
    }

    constructor ()
      ensures Holds([])
    {
      keys, sums := [], map[];
    }

    method Add(f: RawFee, ghost before: seq<RawFee>)
      requires Holds(before)
      modifies this
      ensures Holds(before + [f])
    {
      assert (before + [f])[..|before|] == before;
      if f.cost.Some? && f.currency != "" {
        var cost := f.cost.value;
        if cost > 0.0 {
          if f.currency in sums {
            sums := sums[f.currency := sums[f.currency] + cost];
          } else {
            NoneIn(before, f.currency);
            keys, sums := keys + [f.currency], sums[f.currency := 0.0 + cost];
          }
        }
      }
    }
  }

  lemma {:induction false} NoneIn(fees: seq<RawFee>, currency: string)
    requires currency !in Currencies(fees)
    ensures TotalIn(fees, currency) == 0.0
  {
    if fees != [] {
      NoneIn(fees[..|fees| - 1], currency);
    }
  }

  lemma {:induction false} CurrenciesCounted(fees: seq<RawFee>)
    ensures Currencies(fees) == [] <==> Counted(fees) == []
    ensures Counted(fees) != [] ==> Currencies(fees)[0] == Counted(fees)[0].currency
    ensures forall c <- Currencies(fees) :: c != "" && TotalIn(fees, c) > 0.0
    ensures forall c :: TotalIn(fees, c) >= 0.0
  {
    if fees != [] {
      CurrenciesCounted(fees[..|fees| - 1]);
    }
  }

  method AddList(acc: Accumulator, fees: seq<RawFee>, ghost before: seq<RawFee>)
    requires acc.Holds(before)
    modifies acc
    ensures acc.Holds(before + fees)
  {
    assert before + fees[..0] == before;
    for k := 0 to |fees|
      invariant acc.Holds(before + fees[..k])
    {
      acc.Add(fees[k], before + fees[..k]);
      assert before + fees[..k + 1] == before + fees[..k] + [fees[k]];
    }
    assert fees[..|fees|] == fees;
  }

  method AddTrade(acc: Accumulator, t: Trade, ghost before: seq<RawFee>)
    requires acc.Holds(before)
    modifies acc
    ensures acc.Holds(before + FeesOf(t))
  {
    if t.fee.Some? {
      acc.Add(t.fee.value, before);
      AddList(acc, t.fees, before + [t.fee.value]);
      assert before + [t.fee.value] + t.fees == before + FeesOf(t);
    } else {
      AddList(acc, t.fees, before);
      assert FeesOf(t) == t.fees;
    }
  }

  method AddAll(acc: Accumulator, trades: seq<Trade>)
    requires acc.Holds([])
    modifies acc
    ensures acc.Holds(AllFees(trades))
  {
    for i := 0 to |trades|
      invariant acc.Holds(AllFees(trades[..i]))
    {
      assert trades[..i + 1][..i] == trades[..i];
      AddTrade(acc, trades[i], AllFees(trades[..i]));
    }
    assert trades[..|trades|] == trades;
  }

  /** The result is the sum, over all the fees listed, in the currency of the first one that counts; there
      is a currency exactly when there is a positive amount. */
  method ExtractFeesFromTrades(trades: seq<Trade>) returns (r: Extracted)
    ensures Counted(AllFees(trades)) == [] ==> r == Extracted(0.0, "")
    ensures Counted(AllFees(trades)) != [] ==>
      r.currency == Counted(AllFees(trades))[0].currency && r.amount == TotalIn(AllFees(trades), r.currency)
    ensures r.amount > 0.0 <==> r.currency != ""
    ensures r.amount >= 0.0
  {
    var acc := new Accumulator();
    AddAll(acc, trades);
    CurrenciesCounted(AllFees(trades));
    if |acc.keys| == 0 {
      return Extracted(0.0, "");
    }
    var mainCurrency := acc.keys[0];
    r := Extracted(acc.sums[mainCurrency], mainCurrency);
  }

  function Total(fees: seq<RawFee>): real {
    if fees == [] then 0.0
    else
      var f := fees[|fees| - 1];
      Total(fees[..|fees| - 1]) + if Counts(f) then f.cost.value else 0.0
  }

  /** Main result: only one currency is returned; nothing is left out exactly when all the fees that count
      are in it. */
  lemma {:induction false} NothingLeftOutIff(fees: seq<RawFee>, currency: string)
    ensures TotalIn(fees, currency) <= Total(fees)
    ensures TotalIn(fees, currency) == Total(fees) <==> forall f <- Counted(fees) :: f.currency == currency
  {
    if fees != [] {
      var f, rest := fees[|fees| - 1], fees[..|fees| - 1];
      NothingLeftOutIff(rest, currency);
      assert forall g :: g in Counted(fees) <==> g in Counted(rest) || (Counts(f) && g == f);
    }
  }

  lemma {:induction false} TotalInAppend(a: seq<RawFee>, b: seq<RawFee>, currency: string)
    ensures TotalIn(a + b, currency) == TotalIn(a, currency) + TotalIn(b, currency)
  {
    if b == [] {
      assert a + b == a;
    } else {
      assert (a + b)[..|a + b| - 1] == a + b[..|b| - 1];
      TotalInAppend(a, b[..|b| - 1], currency);
    }
  }

  function SingleFees(trades: seq<Trade>): seq<RawFee> {
    if trades == [] then []
    else
      var t := trades[|trades| - 1];
      var rest := SingleFees(trades[..|trades| - 1]);
      if t.fee.Some? then rest + [t.fee.value] else rest
  }

  /** A trade that lists its fee both ways is counted twice, so such trades give twice their fees. */
  lemma {:induction false} ListedTwiceCountsTwice(trades: seq<Trade>, currency: string)
    requires forall t <- trades :: t.fee.Some? && t.fees == [t.fee.value]
    ensures TotalIn(AllFees(trades), currency) == 2.0 * TotalIn(SingleFees(trades), currency)
  {
    if trades != [] {
      var t, rest := trades[|trades| - 1], trades[..|trades| - 1];
      assert t in trades;
      ListedTwiceCountsTwice(rest, currency);
      TotalInAppend(AllFees(rest), FeesOf(t), currency);
      TotalInAppend(SingleFees(rest), [t.fee.value], currency);
      TotalInAppend([t.fee.value], [t.fee.value], currency);
    }
  }

  /** The currency returned is the first one even where another one has the larger total. */
  lemma LargerFeeLeftOut()
    ensures
      var fees := AllFees([Trade(Some(RawFee(Some(1.0), "BNB")), [RawFee(Some(2.0), "USDT")])]);
      && Counted(fees) != [] && Counted(fees)[0].currency == "BNB"
      && TotalIn(fees, "USDT") > TotalIn(fees, "BNB")
  {
    var a, b := RawFee(Some(1.0), "BNB"), RawFee(Some(2.0), "USDT");
    var trade := Trade(Some(a), [b]);
    assert [trade][..0] == [] && [a] + [b] == [a, b];
    assert AllFees([trade]) == [a, b];
    assert [a, b][..1] == [a] && [a][..0] == [];
    assert "BNB"[0] != "USDT"[0];
    assert Counted([a]) == [a] && TotalIn([a], "BNB") == 1.0 && TotalIn([a], "USDT") == 0.0;
  }
}
