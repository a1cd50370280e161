/** Properties of the recursive valuation that relate several calls. */
module ValuationLemmas {
  import opened Wrappers
  import opened Entities
  import Seqs
  import InvestmentRepository
  import Valuators
  import opened Valuation

  /* The investor id is threaded through every call but never read: the
     fund percentage is keyed by the fund alone. So two investors holding
     the same instrument are credited the same value for it. The five
     lemmas below follow the five mutually recursive functions. */

  lemma {:induction false} ValueIgnoresInvestor(
    db: Store, inv: Investment, i1: int, i2: int, referenceDate: Date, visited: set<int>)
    ensures CalculateInvestmentValue(db, inv, i1, referenceDate, visited)
         == CalculateInvestmentValue(db, inv, i2, referenceDate, visited)
    decreases if IsCycleDetected(inv, visited) then 0 else Unvisited(db, Mark(inv, visited)) + 1, 4, 0
  {
    if !IsCycleDetected(inv, visited) {
      DispatchIgnoresInvestor(db, inv, i1, i2, referenceDate, Mark(inv, visited));
    }
  }

  lemma {:induction false} DispatchIgnoresInvestor(
    db: Store, inv: Investment, i1: int, i2: int, referenceDate: Date, visited: set<int>)
    ensures CalculateValueByInvestmentType(db, inv, i1, referenceDate, visited)
         == CalculateValueByInvestmentType(db, inv, i2, referenceDate, visited)
    decreases Unvisited(db, visited) + 1, 3, 0
  {
    if inv.investmentTypeId == Some(FundTypeId) {
      FundIgnoresInvestor(db, inv, i1, i2, referenceDate, visited);
    }
  }

  lemma {:induction false} FundIgnoresInvestor(
    db: Store, fund: Investment, i1: int, i2: int, referenceDate: Date, visited: set<int>)
    ensures CalculateFundValue(db, fund, i1, referenceDate, visited)
         == CalculateFundValue(db, fund, i2, referenceDate, visited)
    decreases Unvisited(db, visited) + 1, 2, 0
  {
    TotalIgnoresInvestor(db, fund, i1, i2, referenceDate, visited);
    var pct := Valuators.FundInvestmentPercentage(db.transactions, fund.investmentId, referenceDate);
    var t1 := CalculateTotalFundValue(db, fund, i1, referenceDate, visited);
    var t2 := CalculateTotalFundValue(db, fund, i2, referenceDate, visited);
    assert t1 == t2;
    if pct > 0.0 {
      var r1 := CalculateFundValue(db, fund, i1, referenceDate, visited);
      var r2 := CalculateFundValue(db, fund, i2, referenceDate, visited);
      assert r1.0 == r2.0 && r1.1 == r2.1;
    }
  }

  lemma {:induction false} TotalIgnoresInvestor(
    db: Store, fund: Investment, i1: int, i2: int, referenceDate: Date, visited: set<int>)
    ensures CalculateTotalFundValue(db, fund, i1, referenceDate, visited)
         == CalculateTotalFundValue(db, fund, i2, referenceDate, visited)
    decreases Unvisited(db, visited) + 1, 1, 0
  {
    var cs := InvestmentRepository.GetFundInvestments(db.investments, fund.investmentId);
    if |cs| > 0 {
      assert forall c :: c in cs ==> c.fundId.Some? && c.investmentId in Universe(db);
      SumIgnoresInvestor(db, cs, i1, i2, referenceDate, visited);
    }
  }

  lemma {:induction false} SumIgnoresInvestor(
    db: Store, cs: seq<Investment>, i1: int, i2: int, referenceDate: Date, visited: set<int>)
    requires forall c :: c in cs ==> c.fundId.Some? && c.investmentId in Universe(db)
    ensures SumConstituents(db, cs, i1, referenceDate, visited)
         == SumConstituents(db, cs, i2, referenceDate, visited)
    decreases Unvisited(db, visited) + 1, 0, |cs|
  {
    if |cs| > 0 {
      var c := cs[0];
      assert c in cs;
      assert !IsCycleDetected(c, visited) ==> Universe(db) - Mark(c, visited) == (Universe(db) - visited) - {c.investmentId};
      ValueIgnoresInvestor(db, c, i1, i2, referenceDate, visited);
      var visited' := CalculateInvestmentValue(db, c, i1, referenceDate, visited).1;
      Seqs.SubsetCardinality(Universe(db) - visited', Universe(db) - visited);
      assert forall c' :: c' in cs[1..] ==> c' in cs;
      SumIgnoresInvestor(db, cs[1..], i1, i2, referenceDate, visited');
      var r1 := SumConstituents(db, cs, i1, referenceDate, visited);
      var r2 := SumConstituents(db, cs, i2, referenceDate, visited);
      assert r1.0 == r2.0 && r1.1 == r2.1;
    }
  }

  /** The value of an instrument that is not a fund, by its type alone. */
  function DirectValue(db: Store, referenceDate: Date): Investment -> real
  {
    (c: Investment) =>
      if c.investmentTypeId == Some(StockTypeId) then Valuators.StockValue(db, c, referenceDate)
      else if c.investmentTypeId == Some(RealEstateTypeId) then Valuators.RealEstateValue(db, c, referenceDate)
      else 0.0
  }

  /** Constituents that are not funds, with distinct ids none of which was
      visited before, add up to the plain sum of their direct values: the
      shared visited set never blocks one of them. */
  lemma {:induction false} SumOfDirectConstituents(
    db: Store, cs: seq<Investment>, investorId: int, referenceDate: Date, visited: set<int>)
    requires forall c :: c in cs ==> c.fundId.Some? && c.investmentId in Universe(db)
    requires forall c :: c in cs ==> c.investmentTypeId != Some(FundTypeId) && c.investmentId !in visited
    requires Seqs.DistinctBy(cs, InvestmentKey)
    ensures SumConstituents(db, cs, investorId, referenceDate, visited).0 == Seqs.SumOf(cs, DirectValue(db, referenceDate))
    decreases |cs|
  {
    if |cs| > 0 {
      var c := cs[0];
      assert c in cs;
      var visited' := visited + {c.investmentId};
      assert CalculateInvestmentValue(db, c, investorId, referenceDate, visited)
          == (DirectValue(db, referenceDate)(c), visited');
      var tail := cs[1..];
      forall c' | c' in tail
        ensures c'.fundId.Some? && c'.investmentId in Universe(db)
        ensures c'.investmentTypeId != Some(FundTypeId) && c'.investmentId !in visited'
      {
        var m :| 0 <= m < |tail| && tail[m] == c';
        assert cs[m + 1] == c';
        assert InvestmentKey(cs[0]) != InvestmentKey(cs[m + 1]);
      }
      assert Seqs.DistinctBy(tail, InvestmentKey) by {
        forall i, j | 0 <= i < j < |tail|
          ensures InvestmentKey(tail[i]) != InvestmentKey(tail[j])
        {
          assert tail[i] == cs[i + 1] && tail[j] == cs[j + 1];
        }
      }
      SumOfDirectConstituents(db, tail, investorId, referenceDate, visited');
    }
  }

  /** A fund holding only stocks and real estate, entered with no
      constituent yet visited, is worth its clamped percentage of the sum of
      their direct values. */
  lemma FundOfDirectHoldings(db: Store, fund: Investment, investorId: int, referenceDate: Date, visited: set<int>)
    requires Seqs.DistinctBy(db.investments, InvestmentKey)
    requires forall c | c in InvestmentRepository.GetFundInvestments(db.investments, fund.investmentId)
               :: c.investmentTypeId != Some(FundTypeId) && c.investmentId !in visited
    ensures CalculateFundValue(db, fund, investorId, referenceDate, visited).0
         == PercentOf(Valuators.FundInvestmentPercentage(db.transactions, fund.investmentId, referenceDate),
                      Seqs.SumOf(InvestmentRepository.GetFundInvestments(db.investments, fund.investmentId),
                                 DirectValue(db, referenceDate)))
  {
    var cs := InvestmentRepository.GetFundInvestments(db.investments, fund.investmentId);
    InvestmentRepository.ConstituentsDistinct(db.investments, fund.investmentId);
    assert forall c :: c in cs ==> c.fundId.Some? && c.investmentId in Universe(db);
    var total := CalculateTotalFundValue(db, fund, investorId, referenceDate, visited);
    if |cs| > 0 {
      SumOfDirectConstituents(db, cs, investorId, referenceDate, visited);
      assert total.0 == SumConstituents(db, cs, investorId, referenceDate, visited).0;
    }
    assert total.0 == Seqs.SumOf(cs, DirectValue(db, referenceDate));
  }

  /** Valuing a fund member a second time with the set the first valuation
      left behind hits the cycle guard: it counts 0 and visits nothing. */
  lemma RevisitCountsZero(db: Store, inv: Investment, investorId: int, referenceDate: Date, visited: set<int>)
    requires inv.fundId.Some?
    ensures var first := CalculateInvestmentValue(db, inv, investorId, referenceDate, visited);
            var again := CalculateInvestmentValue(db, inv, investorId, referenceDate, first.1);
            again.0 == 0.0 && again.1 == first.1
  {
  }
}
