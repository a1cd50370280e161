/** The recursive valuation of one instrument: the cycle guard, the
    dispatch on the investment type id and the fund rule, whose
    constituents are valued by the same rules.

    `CalculateInvestmentValueAsync` threads one mutable `HashSet` of
    instrument ids through the whole recursion: a constituent's additions
    are seen by the siblings valued after it. Here every function takes the
    set and returns the set as it stands afterwards.

    Termination: every constituent has `FundId` set and is a stored
    instrument, so valuing it either hits the guard or adds a new stored id
    to the set. The measure is the number of stored ids not yet visited
    (after the instrument's own id is added), then the rank of the function
    in the call chain, then the number of constituents left. */
module Valuation {
  import opened Wrappers
  import opened Entities
  import Seqs
  import InvestmentRepository
  import Valuators

  /** The ids of the stored instruments. */
  function Universe(db: Store): set<int>
  {
    set i | i in db.investments :: i.investmentId
  }

  /** `IsCycleDetected`: a fund member whose id was already visited. */
  predicate IsCycleDetected(inv: Investment, visited: set<int>)
  {
    inv.fundId.Some? && inv.investmentId in visited
  }

  /** The visited set once `inv` is entered: fund members are recorded. */
  function Mark(inv: Investment, visited: set<int>): (r: set<int>)
    ensures visited <= r <= visited + {inv.investmentId}
    ensures inv.investmentId !in visited ==> (inv.investmentId in r <==> inv.fundId.Some?)
  {
    if inv.fundId.Some? then visited + {inv.investmentId} else visited
  }

  /** No land or building snapshot is negative. */
  ghost predicate NonNegativeSnapshots(db: Store)
  {
    forall t | t in db.transactions
      && (t.transactionTypeId == EstateTransactionId || t.transactionTypeId == BuildingTransactionId)
      :: t.value >= 0.0
  }

  function Unvisited(db: Store, visited: set<int>): nat
  {
    |Universe(db) - visited|
  }

  /** `CalculateInvestmentValueAsync`: the value of `inv` and the visited
      set after valuing it. */
  function CalculateInvestmentValue(
    db: Store, inv: Investment, investorId: int, referenceDate: Date, visited: set<int>): (r: (real, set<int>))
    ensures visited <= r.1
    ensures IsCycleDetected(inv, visited) ==> r == (0.0, visited)
    ensures !IsCycleDetected(inv, visited) && inv.fundId.Some? ==> inv.investmentId in r.1
    ensures inv.investmentTypeId != Some(FundTypeId) ==> r.1 == Mark(inv, visited)
    ensures NonNegativeSnapshots(db) ==> r.0 >= 0.0
    decreases if IsCycleDetected(inv, visited) then 0 else Unvisited(db, Mark(inv, visited)) + 1, 4, 0
  {
    if IsCycleDetected(inv, visited) then (0.0, visited)
    else CalculateValueByInvestmentType(db, inv, investorId, referenceDate, Mark(inv, visited))
  }

  /** `CalculateValueByInvestmentTypeAsync`: 2 is a stock, 3 real estate,
      1 a fund; a missing or any other type id is worth 0. */
  function CalculateValueByInvestmentType(
    db: Store, inv: Investment, investorId: int, referenceDate: Date, visited: set<int>): (r: (real, set<int>))
    ensures visited <= r.1
    ensures inv.investmentTypeId != Some(FundTypeId) ==> r.1 == visited
    ensures inv.investmentTypeId == Some(StockTypeId) ==> r.0 == Valuators.StockValue(db, inv, referenceDate)
    ensures inv.investmentTypeId == Some(RealEstateTypeId) ==> r.0 == Valuators.RealEstateValue(db, inv, referenceDate)
    ensures inv.investmentTypeId == Some(FundTypeId)
            ==> r == CalculateFundValue(db, inv, investorId, referenceDate, visited)
    ensures inv.investmentTypeId.None? || inv.investmentTypeId.value !in {FundTypeId, StockTypeId, RealEstateTypeId}
            ==> r.0 == 0.0
    ensures NonNegativeSnapshots(db) ==> r.0 >= 0.0
    decreases Unvisited(db, visited) + 1, 3, 0
  {
    if inv.investmentTypeId.None? then (0.0, visited)
    else if inv.investmentTypeId.value == StockTypeId then
      (Valuators.StockValue(db, inv, referenceDate), visited)
    else if inv.investmentTypeId.value == RealEstateTypeId then
      (Valuators.RealEstateValue(db, inv, referenceDate), visited)
    else if inv.investmentTypeId.value == FundTypeId then
      CalculateFundValue(db, inv, investorId, referenceDate, visited)
    else (0.0, visited)
  }

  /** The investor's share of a fund: `percentage` per cent of `total`. */
  function PercentOf(percentage: real, total: real): (r: real)
    ensures percentage >= 0.0 && total >= 0.0 ==> r >= 0.0
    ensures percentage == 0.0 ==> r == 0.0
    ensures percentage == 100.0 ==> r == total
    ensures 0.0 <= percentage <= 100.0 && total >= 0.0 ==> r <= total
  {
    percentage / 100.0 * total
  }

  /** `CalculateFundValueAsync`: the fund's percentage of the total value of
      its constituents; nothing, and no constituent visited, when the
      percentage is not positive. */
  function CalculateFundValue(
    db: Store, fund: Investment, investorId: int, referenceDate: Date, visited: set<int>): (r: (real, set<int>))
    ensures visited <= r.1
    ensures Valuators.FundInvestmentPercentage(db.transactions, fund.investmentId, referenceDate) <= 0.0
            ==> r == (0.0, visited)
    ensures r.0 == PercentOf(Valuators.FundInvestmentPercentage(db.transactions, fund.investmentId, referenceDate),
                             CalculateTotalFundValue(db, fund, investorId, referenceDate, visited).0)
    ensures Valuators.FundInvestmentPercentage(db.transactions, fund.investmentId, referenceDate) > 0.0
            ==> r.1 == CalculateTotalFundValue(db, fund, investorId, referenceDate, visited).1
    ensures NonNegativeSnapshots(db) ==> r.0 >= 0.0
    decreases Unvisited(db, visited) + 1, 2, 0
  {
    var investmentPercentage := Valuators.FundInvestmentPercentage(db.transactions, fund.investmentId, referenceDate);
    if investmentPercentage <= 0.0 then (0.0, visited)
    else
      var total := CalculateTotalFundValue(db, fund, investorId, referenceDate, visited);
      (PercentOf(investmentPercentage, total.0), total.1)
  }

  /** `CalculateTotalFundValueAsync`: the sum of the constituents' values,
      0 for a fund without constituents. */
  function CalculateTotalFundValue(
    db: Store, fund: Investment, investorId: int, referenceDate: Date, visited: set<int>): (r: (real, set<int>))
    ensures visited <= r.1
    ensures |InvestmentRepository.GetFundInvestments(db.investments, fund.investmentId)| == 0 ==> r == (0.0, visited)
    ensures NonNegativeSnapshots(db) ==> r.0 >= 0.0
    decreases Unvisited(db, visited) + 1, 1, 0
  {
    var fundInvestments := InvestmentRepository.GetFundInvestments(db.investments, fund.investmentId);
    if |fundInvestments| == 0 then (0.0, visited)
    else
      assert forall c :: c in fundInvestments ==> c.fundId.Some? && c.investmentId in Universe(db);
      SumConstituents(db, fundInvestments, investorId, referenceDate, visited)
  }

  /** The loop over a fund's constituents, in order, each valued against
      the visited set its predecessors left behind. */
  function SumConstituents(
    db: Store, cs: seq<Investment>, investorId: int, referenceDate: Date, visited: set<int>): (r: (real, set<int>))
    requires forall c :: c in cs ==> c.fundId.Some? && c.investmentId in Universe(db)
    ensures visited <= r.1
    ensures |cs| == 0 ==> r == (0.0, visited)
    ensures NonNegativeSnapshots(db) ==> r.0 >= 0.0
    decreases Unvisited(db, visited) + 1, 0, |cs|
  {
    if |cs| == 0 then (0.0, visited)
    else
      var c := cs[0];
      assert c in cs;
      assert !IsCycleDetected(c, visited) ==> Universe(db) - Mark(c, visited) == (Universe(db) - visited) - {c.investmentId};
      var first := CalculateInvestmentValue(db, c, investorId, referenceDate, visited);
      Seqs.SubsetCardinality(Universe(db) - first.1, Universe(db) - visited);
      assert forall c' :: c' in cs[1..] ==> c' in cs;
      var rest := SumConstituents(db, cs[1..], investorId, referenceDate, first.1);
      (first.0 + rest.0, rest.1)
  }
}
