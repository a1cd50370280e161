/** Worked examples of the valuation rules on small stores, and the
    example that shows rounded shares can add up to more than 100. */
module Scenarios {
  import opened Wrappers
  import opened Entities
  import Seqs
  import Valuators
  import TransactionRepository
  import InvestmentRepository
  import Valuation
  import Portfolio
  import DecimalRounding

  const Jan1st2022: Date := 738155
  const Jun1st2022: Date := 738306
  const Jan1st2023: Date := 738520
  const May15th2023: Date := 738654
  const Jun1st2023: Date := 738671

  function Stock(id: int, isin: string, fundId: Option<int>): Investment
  {
    Investment(id, "S" , Some(StockTypeId), Some(isin), None, fundId)
  }

  function Fund(id: int, fundId: Option<int>): Investment
  {
    Investment(id, "F", Some(FundTypeId), None, None, fundId)
  }

  /** Ten shares bought on 2023-01-01, quoted at 5.00 on 2023-05-15, are
      worth 50.00 on 2023-06-01. */
  lemma StockScenario()
    ensures var e := Stock(10, "DE0001", None);
            var db := Store([], [e], [], [], [Transaction(1, 10, SharesTransactionId, Jan1st2023, 10.0)],
                            [Quote(1, "DE0001", May15th2023, 5.0)]);
            Valuation.CalculateInvestmentValue(db, e, 1, Jun1st2023, {}).0 == 50.0
  {
    var e := Stock(10, "DE0001", None);
    var db := Store([], [e], [], [], [Transaction(1, 10, SharesTransactionId, Jan1st2023, 10.0)],
                    [Quote(1, "DE0001", May15th2023, 5.0)]);
    Valuators.AggregateAppend([], db.transactions[0], 10, SharesTransactionId, Jun1st2023);
    assert [] + [db.transactions[0]] == db.transactions;
    assert Valuators.Aggregate(db.transactions, 10, SharesTransactionId, Jun1st2023) == 10.0;
    assert Valuators.LatestStockPrice(db.quotes, "DE0001", Jun1st2023) == 5.0;
  }

  /** Land at 100,000 from 2022-01-01 and a building at 50,000 from
      2022-06-01 make a parcel worth 150,000 on 2023-01-01. */
  lemma RealEstateScenario()
    ensures var r := Investment(20, "R", Some(RealEstateTypeId), None, None, None);
            var db := Store([], [r], [], [],
                            [Transaction(1, 20, EstateTransactionId, Jan1st2022, 100000.0),
                             Transaction(2, 20, BuildingTransactionId, Jun1st2022, 50000.0)], []);
            Valuation.CalculateInvestmentValue(db, r, 1, Jan1st2023, {}).0 == 150000.0
  {
    var r := Investment(20, "R", Some(RealEstateTypeId), None, None, None);
    var ledger := [Transaction(1, 20, EstateTransactionId, Jan1st2022, 100000.0),
                   Transaction(2, 20, BuildingTransactionId, Jun1st2022, 50000.0)];
    assert Valuators.LatestSnapshot(ledger, 20, EstateTransactionId, Jan1st2023) == 100000.0;
    assert Valuators.LatestSnapshot(ledger, 20, BuildingTransactionId, Jan1st2023) == 50000.0;
  }

  /** Forty per cent of a fund whose one stock is worth 1,000 is 400; a
      further sixty per cent bought after the reference date does not count. */
  lemma FundScenario()
    ensures var f := Fund(30, None);
            var e := Stock(10, "DE0001", Some(30));
            var db := Store([], [f, e], [], [],
                            [Transaction(1, 10, SharesTransactionId, Jan1st2023, 100.0),
                             Transaction(2, 30, PercentageTransactionId, Jan1st2023, 40.0),
                             Transaction(3, 30, PercentageTransactionId, Jun1st2023 + 1, 60.0)],
                            [Quote(1, "DE0001", May15th2023, 10.0)]);
            Valuation.CalculateInvestmentValue(db, f, 1, Jun1st2023, {}).0 == 400.0
  {
    var f := Fund(30, None);
    var e := Stock(10, "DE0001", Some(30));
    var db := Store([], [f, e], [], [],
                    [Transaction(1, 10, SharesTransactionId, Jan1st2023, 100.0),
                     Transaction(2, 30, PercentageTransactionId, Jan1st2023, 40.0),
                     Transaction(3, 30, PercentageTransactionId, Jun1st2023 + 1, 60.0)],
                    [Quote(1, "DE0001", May15th2023, 10.0)]);
    var ts := db.transactions;
    AggregateOfThree(ts, 10, SharesTransactionId, Jun1st2023);
    AggregateOfThree(ts, 30, PercentageTransactionId, Jun1st2023);
    assert Valuators.Aggregate(ts, 10, SharesTransactionId, Jun1st2023) == 100.0;
    assert Valuators.LatestStockPrice(db.quotes, "DE0001", Jun1st2023) == 10.0;
    assert Valuators.StockValue(db, e, Jun1st2023) == 1000.0;
    assert Valuators.FundInvestmentPercentage(ts, 30, Jun1st2023) == 40.0;
    assert db.investments[1..] == [e];
    assert InvestmentRepository.GetFundInvestments(db.investments, 30) == [e];
    var member := Valuation.CalculateInvestmentValue(db, e, 1, Jun1st2023, {});
    assert member.0 == 1000.0;
    var total := Valuation.SumConstituents(db, [e], 1, Jun1st2023, {});
    assert total.0 == 1000.0;
  }

  /** Fund A (id 1) is a constituent of fund B (id 2), which holds A back
      and a stock (id 3) of 100 shares quoted at 10.00. The investor owns
      50% of A; A owns 100% of B. */
  function CycleStore(): Store
  {
    Store([], [Fund(1, Some(2)), Fund(2, Some(1)), Stock(3, "DE0001", Some(2))], [], [],
          [Transaction(1, 3, SharesTransactionId, Jan1st2023, 100.0),
           Transaction(2, 1, PercentageTransactionId, Jan1st2023, 50.0),
           Transaction(3, 2, PercentageTransactionId, Jan1st2023, 100.0)],
          [Quote(1, "DE0001", May15th2023, 10.0)])
  }

  /** The ledger, quote and membership facts of `CycleStore` the scenario
      rests on. */
  lemma CycleStockFacts()
    ensures Valuators.StockValue(CycleStore(), Stock(3, "DE0001", Some(2)), Jun1st2023) == 1000.0
  {
    var db := CycleStore();
    AggregateOfThree(db.transactions, 3, SharesTransactionId, Jun1st2023);
    assert Valuators.LatestStockPrice(db.quotes, "DE0001", Jun1st2023) == 10.0;
  }

  lemma CyclePercentageFacts()
    ensures Valuators.FundInvestmentPercentage(CycleStore().transactions, 1, Jun1st2023) == 50.0
    ensures Valuators.FundInvestmentPercentage(CycleStore().transactions, 2, Jun1st2023) == 100.0
  {
    var ts := CycleStore().transactions;
    AggregateOfThree(ts, 1, PercentageTransactionId, Jun1st2023);
    AggregateOfThree(ts, 2, PercentageTransactionId, Jun1st2023);
  }

  lemma CycleMembersOfA()
    ensures InvestmentRepository.GetFundInvestments(CycleStore().investments, 1) == [Fund(2, Some(1))]
  {
    FundMembersOfThree(CycleStore().investments, 1);
  }

  lemma CycleMembersOfB()
    ensures InvestmentRepository.GetFundInvestments(CycleStore().investments, 2)
         == [Fund(1, Some(2)), Stock(3, "DE0001", Some(2))]
  {
    FundMembersOfThree(CycleStore().investments, 2);
  }

  lemma CycleStockStep()
    ensures var r := Valuation.CalculateInvestmentValue(CycleStore(), Stock(3, "DE0001", Some(2)), 1, Jun1st2023, {1, 2});
            r.0 == 1000.0 && r.1 == {1, 2, 3}
  {
    CycleStockFacts();
    assert Valuation.Mark(Stock(3, "DE0001", Some(2)), {1, 2}) == {1, 2, 3};
  }

  lemma CycleInnerSum()
    ensures var r := Valuation.SumConstituents(CycleStore(), [Fund(1, Some(2)), Stock(3, "DE0001", Some(2))],
                                               1, Jun1st2023, {1, 2});
            r.0 == 1000.0 && r.1 == {1, 2, 3}
  {
    var db := CycleStore();
    var a := Fund(1, Some(2));
    var s := Stock(3, "DE0001", Some(2));
    CycleStockStep();
    assert [a, s][1..] == [s] && [s][1..] == [];
    var sRest := Valuation.SumConstituents(db, [s], 1, Jun1st2023, {1, 2});
    assert sRest.0 == 1000.0 && sRest.1 == {1, 2, 3};
  }

  lemma CycleInnerTotal()
    ensures var r := Valuation.CalculateTotalFundValue(CycleStore(), Fund(2, Some(1)), 1, Jun1st2023, {1, 2});
            r.0 == 1000.0 && r.1 == {1, 2, 3}
  {
    CycleMembersOfB();
    CycleInnerSum();
  }

  lemma CycleInnerShare()
    ensures var r := Valuation.CalculateFundValue(CycleStore(), Fund(2, Some(1)), 1, Jun1st2023, {1, 2});
            r.0 == 1000.0 && r.1 == {1, 2, 3}
  {
    CyclePercentageFacts();
    CycleInnerTotal();
  }

  /** Inside A, fund B meets A again: A is already visited and counts 0,
      so B is worth all of its stock, and every id ends up visited. */
  lemma CycleInnerFund()
    ensures var r := Valuation.CalculateInvestmentValue(CycleStore(), Fund(2, Some(1)), 1, Jun1st2023, {1});
            r.0 == 1000.0 && r.1 == {1, 2, 3}
  {
    CycleInnerShare();
    assert Valuation.Mark(Fund(2, Some(1)), {1}) == {1, 2};
  }

  lemma CycleOuterTotal()
    ensures var r := Valuation.CalculateTotalFundValue(CycleStore(), Fund(1, Some(2)), 1, Jun1st2023, {1});
            r.0 == 1000.0 && r.1 == {1, 2, 3}
  {
    var b := Fund(2, Some(1));
    CycleMembersOfA();
    CycleInnerFund();
    assert [b][1..] == [];
    var rest := Valuation.SumConstituents(CycleStore(), [], 1, Jun1st2023, {1, 2, 3});
    assert rest.0 == 0.0 && rest.1 == {1, 2, 3};
  }

  /** The valuation of A terminates although A and B hold each other, and
      A is worth 50% of B's 1,000. */
  lemma CycleScenario()
    ensures var r := Valuation.CalculateInvestmentValue(CycleStore(), Fund(1, Some(2)), 1, Jun1st2023, {});
            r.0 == 500.0 && r.1 == {1, 2, 3}
  {
    CyclePercentageFacts();
    CycleOuterTotal();
    var share := Valuation.CalculateFundValue(CycleStore(), Fund(1, Some(2)), 1, Jun1st2023, {1});
    assert share.0 == 500.0 && share.1 == {1, 2, 3};
    assert Valuation.Mark(Fund(1, Some(2)), {}) == {1};
  }

  /** An aggregate over a three-entry ledger, one entry at a time. */
  lemma AggregateOfThree(ts: seq<Transaction>, investmentId: int, transactionTypeId: int, endDate: Date)
    requires |ts| == 3
    ensures Valuators.Aggregate(ts, investmentId, transactionTypeId, endDate)
         == (if TransactionRepository.Query(investmentId, transactionTypeId, endDate)(ts[0]) then ts[0].value else 0.0)
          + (if TransactionRepository.Query(investmentId, transactionTypeId, endDate)(ts[1]) then ts[1].value else 0.0)
          + (if TransactionRepository.Query(investmentId, transactionTypeId, endDate)(ts[2]) then ts[2].value else 0.0)
  {
    assert Valuators.Aggregate([], investmentId, transactionTypeId, endDate) == 0.0;
    Valuators.AggregateAppend([], ts[0], investmentId, transactionTypeId, endDate);
    Valuators.AggregateAppend([ts[0]], ts[1], investmentId, transactionTypeId, endDate);
    Valuators.AggregateAppend([ts[0], ts[1]], ts[2], investmentId, transactionTypeId, endDate);
    assert [] + [ts[0]] == [ts[0]];
    assert [ts[0]] + [ts[1]] == [ts[0], ts[1]];
    assert [ts[0], ts[1]] + [ts[2]] == ts;
  }

  /** The constituents of a fund in a three-instrument store, one
      instrument at a time. */
  lemma FundMembersOfThree(investments: seq<Investment>, fundId: int)
    requires |investments| == 3
    ensures InvestmentRepository.GetFundInvestments(investments, fundId)
         == (if investments[0].fundId == Some(fundId) then [investments[0]] else [])
          + (if investments[1].fundId == Some(fundId) then [investments[1]] else [])
          + (if investments[2].fundId == Some(fundId) then [investments[2]] else [])
  {
    var p := InvestmentRepository.InFund(fundId);
    assert investments == [investments[0]] + [investments[1]] + [investments[2]];
    Seqs.FilterAppend([investments[0]] + [investments[1]], [investments[2]], p);
    Seqs.FilterAppend([investments[0]], [investments[1]], p);
    FilterOne(investments[0], p);
    FilterOne(investments[1], p);
    FilterOne(investments[2], p);
  }

  lemma FilterOne(i: Investment, p: Investment -> bool)
    ensures Seqs.Filter([i], p) == if p(i) then [i] else []
  {
    assert [i][1..] == [];
  }

  /** `Math.Round(x, 2)` sends a value exactly half a hundredth away from
      two neighbours to the even one: 0.125 to 0.12 and 0.135 to 0.14. */
  lemma BankersRounding()
    ensures DecimalRounding.Round2(0.125) == 0.12
    ensures DecimalRounding.Round2(0.135) == 0.14
  {
    DecimalRounding.Round2Unique(0.125, 12);
    DecimalRounding.Round2Unique(0.135, 14);
  }

  function Row(id: int): Portfolio.InvestmentResponse
  {
    Portfolio.InvestmentResponse(id, "I", "Stock", 1.0, 0.0)
  }

  /** Six holdings of equal value: each is 16.666…% of the total, rounds
      to 16.67, and the rounded shares add up to 100.02. */
  lemma SixEqualHoldings()
    ensures var rows := [Row(1), Row(2), Row(3), Row(4), Row(5), Row(6)];
            Seqs.SumOf(Portfolio.CalculatePortfolioPercentages(rows, 6.0), Portfolio.RowPercentage) == 100.02
  {
    var rows := [Row(1), Row(2), Row(3), Row(4), Row(5), Row(6)];
    assert (1.0 / 6.0 * 100.0 * 100.0).Floor == 1666;
    assert DecimalRounding.Round2(1.0 / 6.0 * 100.0) == 16.67;
    var w := Portfolio.CalculatePortfolioPercentages(rows, 6.0);
    assert forall k :: 0 <= k < 6 ==> w[k].percentageOfPortfolio == 16.67;
    assert Seqs.SumOf(w[5..], Portfolio.RowPercentage) == 16.67;
    assert Seqs.SumOf(w[4..], Portfolio.RowPercentage) == 33.34;
    assert Seqs.SumOf(w[3..], Portfolio.RowPercentage) == 50.01;
    assert Seqs.SumOf(w[2..], Portfolio.RowPercentage) == 66.68;
    assert Seqs.SumOf(w[1..], Portfolio.RowPercentage) == 83.35;
  }
}
