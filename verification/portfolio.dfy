/** The portfolio aggregator: the entry point that values every holding of
    an investor, keeps the positive ones in a breakdown, totals them and
    assigns each its rounded share of the total. */
module Portfolio {
  import opened Wrappers
  import opened Entities
  import Seqs
  import InvestorRepository
  import InvestmentRepository
  import Valuation
  import DecimalRounding
  import ValuationLemmas
  import Valuators

  /** One line of the breakdown. */
  datatype InvestmentResponse = InvestmentResponse(
    investmentId: int,
    investmentCode: string,
    investmentType: string,
    value: real,
    percentageOfPortfolio: real)

  /** The answer; the wall-clock calculation timestamp is not modelled. */
  datatype PortfolioValueResponse = PortfolioValueResponse(
    investorId: int,
    investorCode: string,
    referenceDate: Date,
    totalValue: real,
    investmentValues: seq<InvestmentResponse>)

  datatype PortfolioError = InvestorNotFound(investorId: int)

  function RowValue(row: InvestmentResponse): real { row.value }
  function RowPercentage(row: InvestmentResponse): real { row.percentageOfPortfolio }
  function RowInvestmentKey(row: InvestmentResponse): int { row.investmentId }

  /** The unrounded share of `total`, in per cent, that a row represents
      (only ever taken of a positive total). */
  function ShareOf(total: real): InvestmentResponse -> real
  {
    (row: InvestmentResponse) => if total == 0.0 then 0.0 else row.value / total * 100.0
  }

  /** The value of a held instrument: each holding starts from an empty
      visited set. */
  function HoldingValue(db: Store, inv: Investment, investorId: int, referenceDate: Date): (r: real)
    ensures inv.investmentTypeId == Some(StockTypeId) ==> r == Valuators.StockValue(db, inv, referenceDate)
    ensures inv.investmentTypeId == Some(RealEstateTypeId) ==> r == Valuators.RealEstateValue(db, inv, referenceDate)
    ensures inv.investmentTypeId.None? ==> r == 0.0
    ensures Valuation.NonNegativeSnapshots(db) ==> r >= 0.0
  {
    Valuation.CalculateInvestmentValue(db, inv, investorId, referenceDate, {}).0
  }

  /** Two investors holding the same instrument are credited the same value
      for it: the fund percentage is not per investor. */
  lemma HoldingValueIgnoresInvestor(db: Store, inv: Investment, i1: int, i2: int, referenceDate: Date)
    ensures HoldingValue(db, inv, i1, referenceDate) == HoldingValue(db, inv, i2, referenceDate)
  {
    ValuationLemmas.ValueIgnoresInvestor(db, inv, i1, i2, referenceDate, {});
  }

  /** The fixed names of the three known type ids, used when the type row
      cannot be loaded. */
  function FallbackTypeName(investmentTypeId: Option<int>): string
  {
    if investmentTypeId == Some(FundTypeId) then "Fund"
    else if investmentTypeId == Some(StockTypeId) then "Stock"
    else if investmentTypeId == Some(RealEstateTypeId) then "Real Estate"
    else "Unknown"
  }

  /** The display name of an instrument's type: the stored type row's name,
      else the fixed name of a known id, else "Unknown". */
  function TypeName(db: Store, inv: Investment): (name: string)
    ensures (forall t :: t in db.investmentTypes ==> Some(t.investmentTypeId) != inv.investmentTypeId)
            ==> name == FallbackTypeName(inv.investmentTypeId)
    ensures Seqs.DistinctBy(db.investmentTypes, InvestmentTypeKey)
            ==> forall t | t in db.investmentTypes && Some(t.investmentTypeId) == inv.investmentTypeId
                  :: name == t.typeName
  {
    var navigation :=
      if inv.investmentTypeId.Some?
      then InvestmentRepository.GetInvestmentType(db.investmentTypes, inv.investmentTypeId.value)
      else None;
    assert Seqs.DistinctBy(db.investmentTypes, InvestmentTypeKey)
           ==> forall t | t in db.investmentTypes && Some(t.investmentTypeId) == inv.investmentTypeId
                 :: navigation == Some(t) by {
      if Seqs.DistinctBy(db.investmentTypes, InvestmentTypeKey) {
        forall t | t in db.investmentTypes && Some(t.investmentTypeId) == inv.investmentTypeId
          ensures navigation == Some(t)
        {
          InvestmentRepository.TypeLookupByKey(db.investmentTypes, t);
        }
      }
    }
    if navigation.Some? then navigation.value.typeName else FallbackTypeName(inv.investmentTypeId)
  }

  function CreateInvestmentResponse(db: Store, inv: Investment, value: real): (r: InvestmentResponse)
    ensures r.investmentId == inv.investmentId && r.investmentCode == inv.investmentCode
    ensures r.investmentType == TypeName(db, inv)
    ensures r.value == value && r.percentageOfPortfolio == 0.0
  {
    InvestmentResponse(inv.investmentId, inv.investmentCode, TypeName(db, inv), value, 0.0)
  }

  /** The breakdown line a holding contributes: none when its instrument
      record is missing or its value is not positive. */
  function Valued(db: Store, h: InvestorInvestment, investorId: int, referenceDate: Date): (r: Option<InvestmentResponse>)
    ensures r.Some? ==> r.value.investmentId == h.investmentId
    ensures r.Some? ==> r.value.value > 0.0 && r.value.percentageOfPortfolio == 0.0
    ensures var found := InvestmentRepository.GetInvestmentWithDetails(db.investments, h.investmentId);
            r.Some? <==> found.Some? && HoldingValue(db, found.value, investorId, referenceDate) > 0.0
    ensures var found := InvestmentRepository.GetInvestmentWithDetails(db.investments, h.investmentId);
            r.Some? ==> r.value.value == HoldingValue(db, found.value, investorId, referenceDate)
                        && r.value.investmentType == TypeName(db, found.value)
    ensures var found := InvestmentRepository.GetInvestmentWithDetails(db.investments, h.investmentId);
            r.Some? ==> r.value == CreateInvestmentResponse(db, found.value, HoldingValue(db, found.value, investorId, referenceDate))
  {
    match InvestmentRepository.GetInvestmentWithDetails(db.investments, h.investmentId)
    case None => None
    case Some(inv) =>
      var value := HoldingValue(db, inv, investorId, referenceDate);
      if value > 0.0 then Some(CreateInvestmentResponse(db, inv, value)) else None
  }

  function AsSeq(o: Option<InvestmentResponse>): seq<InvestmentResponse>
  {
    if o.Some? then [o.value] else []
  }

  /** The breakdown of a sequence of holdings, in holding order. */
  function IncludedRows(db: Store, holdings: seq<InvestorInvestment>, investorId: int, referenceDate: Date)
    : (rows: seq<InvestmentResponse>)
    ensures |rows| <= |holdings|
    ensures forall k :: 0 <= k < |rows| ==> rows[k].value > 0.0 && rows[k].percentageOfPortfolio == 0.0
  {
    if |holdings| == 0 then []
    else
      var prefix := holdings[..|holdings| - 1];
      var last := holdings[|holdings| - 1];
      IncludedRows(db, prefix, investorId, referenceDate) + AsSeq(Valued(db, last, investorId, referenceDate))
  }

  /** A line is in the breakdown exactly when some holding is valued to it. */
  lemma {:induction false} IncludedRowsMembers(
    db: Store, holdings: seq<InvestorInvestment>, investorId: int, referenceDate: Date)
    ensures forall row :: row in IncludedRows(db, holdings, investorId, referenceDate)
              <==> exists h :: h in holdings && Valued(db, h, investorId, referenceDate) == Some(row)
  {
    if |holdings| > 0 {
      var prefix := holdings[..|holdings| - 1];
      var last := holdings[|holdings| - 1];
      assert forall h :: h in holdings <==> h in prefix || h == last;
      IncludedRowsMembers(db, prefix, investorId, referenceDate);
    }
  }

  /** A line from the earlier holdings is for an instrument other than the
      one the last holding names, when no instrument is held twice. */
  lemma EarlierLineDiffers(
    db: Store, holdings: seq<InvestorInvestment>, investorId: int, referenceDate: Date, row: InvestmentResponse)
    requires |holdings| > 0
    requires Seqs.DistinctBy(holdings, InvestorRepository.HoldingInvestmentKey)
    requires row in IncludedRows(db, holdings[..|holdings| - 1], investorId, referenceDate)
    ensures row.investmentId != holdings[|holdings| - 1].investmentId
  {
    var prefix := holdings[..|holdings| - 1];
    IncludedRowsMembers(db, prefix, investorId, referenceDate);
    var h :| h in prefix && Valued(db, h, investorId, referenceDate) == Some(row);
    var m :| 0 <= m < |prefix| && prefix[m] == h;
    assert holdings[m] == h;
    assert InvestorRepository.HoldingInvestmentKey(holdings[m])
        != InvestorRepository.HoldingInvestmentKey(holdings[|holdings| - 1]);
  }

  /** When no instrument is held twice, none is listed twice. */
  lemma {:induction false} IncludedRowsDistinct(
    db: Store, holdings: seq<InvestorInvestment>, investorId: int, referenceDate: Date)
    requires Seqs.DistinctBy(holdings, InvestorRepository.HoldingInvestmentKey)
    ensures Seqs.DistinctBy(IncludedRows(db, holdings, investorId, referenceDate), RowInvestmentKey)
  {
    if |holdings| > 0 {
      var prefix := holdings[..|holdings| - 1];
      var last := holdings[|holdings| - 1];
      assert Seqs.DistinctBy(prefix, InvestorRepository.HoldingInvestmentKey) by {
        forall i, j | 0 <= i < j < |prefix|
          ensures InvestorRepository.HoldingInvestmentKey(prefix[i]) != InvestorRepository.HoldingInvestmentKey(prefix[j])
        {
          assert prefix[i] == holdings[i] && prefix[j] == holdings[j];
        }
      }
      IncludedRowsDistinct(db, prefix, investorId, referenceDate);
      var front := IncludedRows(db, prefix, investorId, referenceDate);
      var tail := AsSeq(Valued(db, last, investorId, referenceDate));
      var rows := front + tail;
      forall i, j | 0 <= i < j < |rows|
        ensures RowInvestmentKey(rows[i]) != RowInvestmentKey(rows[j])
      {
        if j >= |front| {
          assert rows[j] == tail[0] && rows[i] == front[i];
          EarlierLineDiffers(db, holdings, investorId, referenceDate, front[i]);
        } else {
          assert rows[i] == front[i] && rows[j] == front[j];
        }
      }
    }
  }

  /** Handling one more holding appends its line, if any. */
  lemma IncludedRowsStep(db: Store, holdings: seq<InvestorInvestment>, i: nat, investorId: int, referenceDate: Date)
    requires i < |holdings|
    ensures IncludedRows(db, holdings[..i + 1], investorId, referenceDate)
         == IncludedRows(db, holdings[..i], investorId, referenceDate) + AsSeq(Valued(db, holdings[i], investorId, referenceDate))
  {
    assert holdings[..i + 1][..i] == holdings[..i];
  }

  /** The three outcomes of valuing a holding, as the loop below meets them. */
  lemma ValuedCases(db: Store, h: InvestorInvestment, investorId: int, referenceDate: Date)
    ensures var found := InvestmentRepository.GetInvestmentWithDetails(db.investments, h.investmentId);
            found.None? ==> Valued(db, h, investorId, referenceDate) == None
    ensures var found := InvestmentRepository.GetInvestmentWithDetails(db.investments, h.investmentId);
            found.Some? && HoldingValue(db, found.value, investorId, referenceDate) <= 0.0
            ==> Valued(db, h, investorId, referenceDate) == None
    ensures var found := InvestmentRepository.GetInvestmentWithDetails(db.investments, h.investmentId);
            found.Some? && HoldingValue(db, found.value, investorId, referenceDate) > 0.0
            ==> Valued(db, h, investorId, referenceDate)
                == Some(CreateInvestmentResponse(db, found.value, HoldingValue(db, found.value, investorId, referenceDate)))
  {
  }

  /** `CalculateAllInvestmentValuesAsync`: the breakdown and its total. */
  method CalculateAllInvestmentValues(
    db: Store, holdings: seq<InvestorInvestment>, investorId: int, referenceDate: Date)
    returns (totalValue: real, investmentValues: seq<InvestmentResponse>)
    ensures investmentValues == IncludedRows(db, holdings, investorId, referenceDate)
    ensures totalValue == Seqs.SumOf(investmentValues, RowValue)
  {
    totalValue := 0.0;
    investmentValues := [];
    for i := 0 to |holdings|
      invariant investmentValues == IncludedRows(db, holdings[..i], investorId, referenceDate)
      invariant totalValue == Seqs.SumOf(investmentValues, RowValue)
    {
      IncludedRowsStep(db, holdings, i, investorId, referenceDate);
      ValuedCases(db, holdings[i], investorId, referenceDate);
      var investment := InvestmentRepository.GetInvestmentWithDetails(db.investments, holdings[i].investmentId);
      if investment.None? {
        continue;
      }
      var investmentValue := HoldingValue(db, investment.value, investorId, referenceDate);
      if investmentValue > 0.0 {
        var row := CreateInvestmentResponse(db, investment.value, investmentValue);
        Seqs.SumOfAppend(investmentValues, [row], RowValue);
        investmentValues := investmentValues + [row];
        totalValue := totalValue + investmentValue;
      }
    }
    assert holdings[..|holdings|] == holdings;
  }

  /** `CalculatePortfolioPercentages`: with a positive total each line gets
      its share of the total rounded to two decimals; otherwise nothing
      changes. */
  function CalculatePortfolioPercentages(rows: seq<InvestmentResponse>, totalValue: real)
    : (r: seq<InvestmentResponse>)
    ensures |r| == |rows|
    ensures forall k :: 0 <= k < |r| ==> r[k] == rows[k].(percentageOfPortfolio := r[k].percentageOfPortfolio)
    ensures totalValue <= 0.0 ==> r == rows
    ensures totalValue > 0.0 ==> forall k :: 0 <= k < |r| ==>
              r[k].percentageOfPortfolio == DecimalRounding.Round2(ShareOf(totalValue)(rows[k]))
    ensures totalValue > 0.0 ==> forall k :: 0 <= k < |r| ==>
              ShareOf(totalValue)(rows[k]) - 0.005 <= r[k].percentageOfPortfolio <= ShareOf(totalValue)(rows[k]) + 0.005
    ensures totalValue > 0.0 ==> forall k :: 0 <= k < |r| && 0.0 <= rows[k].value <= totalValue ==>
              0.0 <= r[k].percentageOfPortfolio <= 100.0
  {
    if totalValue > 0.0 then
      var r := seq(|rows|, k requires 0 <= k < |rows| =>
        rows[k].(percentageOfPortfolio := DecimalRounding.Round2(rows[k].value / totalValue * 100.0)));
      assert forall k :: 0 <= k < |r| && 0.0 <= rows[k].value <= totalValue ==>
        0.0 <= rows[k].value / totalValue * 100.0 <= 100.0 by {
        forall k | 0 <= k < |r| && 0.0 <= rows[k].value <= totalValue
          ensures 0.0 <= rows[k].value / totalValue * 100.0 <= 100.0
        {
          assert rows[k].value / totalValue <= 1.0;
        }
      }
      forall k | 0 <= k < |r| && 0.0 <= rows[k].value <= totalValue
        ensures 0.0 <= r[k].percentageOfPortfolio <= 100.0
      {
        DecimalRounding.Round2PercentInRange(rows[k].value / totalValue * 100.0);
      }
      r
    else rows
  }

  /** Before rounding, the shares of a breakdown add up to exactly 100. */
  lemma SharesSumToHundred(rows: seq<InvestmentResponse>, totalValue: real)
    requires totalValue > 0.0
    requires totalValue == Seqs.SumOf(rows, RowValue)
    ensures Seqs.SumOf(rows, ShareOf(totalValue)) == 100.0
  {
    Seqs.SumOfScaled(rows, RowValue, ShareOf(totalValue), 100.0 / totalValue);
  }

  /** After rounding, the shares add up to 100 within half a hundredth per
      line. They need not add up to at most 100: see `SixEqualHoldings`. */
  lemma RoundedSharesNearHundred(rows: seq<InvestmentResponse>, totalValue: real)
    requires totalValue > 0.0
    requires totalValue == Seqs.SumOf(rows, RowValue)
    ensures var r := CalculatePortfolioPercentages(rows, totalValue);
            100.0 - |rows| as real * 0.005 <= Seqs.SumOf(r, RowPercentage) <= 100.0 + |rows| as real * 0.005
  {
    var r := CalculatePortfolioPercentages(rows, totalValue);
    SharesSumToHundred(rows, totalValue);
    Seqs.SumOfPointwise(rows, ShareOf(totalValue), r, ShareOf(totalValue));
    assert forall x | x in r :: ShareOf(totalValue)(x) - 0.005 <= RowPercentage(x) <= ShareOf(totalValue)(x) + 0.005 by {
      forall x | x in r
        ensures ShareOf(totalValue)(x) - 0.005 <= RowPercentage(x) <= ShareOf(totalValue)(x) + 0.005
      {
        var k :| 0 <= k < |r| && r[k] == x;
        assert ShareOf(totalValue)(x) == ShareOf(totalValue)(rows[k]);
      }
    }
    RoundingErrorBound(r, totalValue);
  }

  lemma RoundingErrorBound(r: seq<InvestmentResponse>, totalValue: real)
    requires forall x | x in r :: ShareOf(totalValue)(x) - 0.005 <= RowPercentage(x) <= ShareOf(totalValue)(x) + 0.005
    ensures var exact := Seqs.SumOf(r, ShareOf(totalValue));
            exact - |r| as real * 0.005 <= Seqs.SumOf(r, RowPercentage) <= exact + |r| as real * 0.005
  {
    Seqs.SumOfClose(r, ShareOf(totalValue), RowPercentage, 0.005);
  }

  /** What the entry point promises of a breakdown once its shares are set. */
  lemma BreakdownProperties(
    db: Store, holdings: seq<InvestorInvestment>, investorId: int, referenceDate: Date,
    totalValue: real, rows: seq<InvestmentResponse>)
    requires rows == IncludedRows(db, holdings, investorId, referenceDate)
    requires totalValue == Seqs.SumOf(rows, RowValue)
    ensures totalValue == Seqs.SumOf(CalculatePortfolioPercentages(rows, totalValue), RowValue)
    ensures totalValue == 0.0 <==> CalculatePortfolioPercentages(rows, totalValue) == []
    ensures var w := CalculatePortfolioPercentages(rows, totalValue);
            forall k :: 0 <= k < |w| ==> 0.0 < w[k].value <= totalValue && 0.0 <= w[k].percentageOfPortfolio <= 100.0
    ensures var w := CalculatePortfolioPercentages(rows, totalValue);
            totalValue > 0.0 ==> 100.0 - |w| as real * 0.005 <= Seqs.SumOf(w, RowPercentage) <= 100.0 + |w| as real * 0.005
    ensures Seqs.DistinctBy(holdings, InvestorRepository.HoldingInvestmentKey)
            ==> Seqs.DistinctBy(CalculatePortfolioPercentages(rows, totalValue), RowInvestmentKey)
  {
    var w := CalculatePortfolioPercentages(rows, totalValue);
    forall k | 0 <= k < |rows|
      ensures rows[k].value <= totalValue
    {
      Seqs.TermAtMostSum(rows, RowValue, k);
    }
    if rows != [] {
      Seqs.TermAtMostSum(rows, RowValue, 0);
    }
    Seqs.SumOfPointwise(rows, RowValue, w, RowValue);
    if totalValue > 0.0 {
      RoundedSharesNearHundred(rows, totalValue);
    }
    if Seqs.DistinctBy(holdings, InvestorRepository.HoldingInvestmentKey) {
      IncludedRowsDistinct(db, holdings, investorId, referenceDate);
      forall i, j | 0 <= i < j < |w|
        ensures RowInvestmentKey(w[i]) != RowInvestmentKey(w[j])
      {
        assert RowInvestmentKey(rows[i]) != RowInvestmentKey(rows[j]);
      }
    }
  }

  /** `CalculatePortfolioValueAsync`. */
  method CalculatePortfolioValue(db: Store, investorId: int, referenceDate: Date)
    returns (r: Result<PortfolioValueResponse, PortfolioError>)
    ensures r.Err? <==> InvestorRepository.GetInvestorById(db.investors, investorId).None?
    ensures r.Err? ==> r.error == InvestorNotFound(investorId)
    ensures r.Ok? ==> r.value.investorId == investorId && r.value.referenceDate == referenceDate
                      && r.value.investorCode == InvestorRepository.GetInvestorById(db.investors, investorId).value.investorCode
    ensures r.Ok? ==>
      var holdings := InvestorRepository.GetInvestorInvestments(db.investorInvestments, investorId);
      r.value.investmentValues
        == CalculatePortfolioPercentages(IncludedRows(db, holdings, investorId, referenceDate), r.value.totalValue)
    ensures r.Ok? ==> r.value.totalValue == Seqs.SumOf(r.value.investmentValues, RowValue)
    ensures r.Ok? ==> (r.value.totalValue == 0.0 <==> r.value.investmentValues == [])
    ensures r.Ok? ==> forall k :: 0 <= k < |r.value.investmentValues| ==>
              0.0 < r.value.investmentValues[k].value <= r.value.totalValue
              && 0.0 <= r.value.investmentValues[k].percentageOfPortfolio <= 100.0
    ensures r.Ok? && r.value.totalValue > 0.0 ==>
              var n := |r.value.investmentValues| as real;
              100.0 - n * 0.005 <= Seqs.SumOf(r.value.investmentValues, RowPercentage) <= 100.0 + n * 0.005
    ensures r.Ok? && WellFormed(db) ==> Seqs.DistinctBy(r.value.investmentValues, RowInvestmentKey)
  {
    var investor := InvestorRepository.GetInvestorById(db.investors, investorId);
    if investor.None? {
      return Err(InvestorNotFound(investorId));
    }
    var holdings := InvestorRepository.GetInvestorInvestments(db.investorInvestments, investorId);
    if WellFormed(db) {
      InvestorRepository.HoldingsDistinct(db.investorInvestments, investorId);
    }
    if |holdings| == 0 {
      return Ok(PortfolioValueResponse(investorId, investor.value.investorCode, referenceDate, 0.0, []));
    }
    var totalValue, investmentValues := CalculateAllInvestmentValues(db, holdings, investorId, referenceDate);
    var withShares := CalculatePortfolioPercentages(investmentValues, totalValue);
    BreakdownProperties(db, holdings, investorId, referenceDate, totalValue, investmentValues);
    return Ok(PortfolioValueResponse(investorId, investor.value.investorCode, referenceDate, totalValue, withShares));
  }
}
