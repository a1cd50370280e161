/** The instrument queries: lookup by id, lookup of an investment type by
    id, and the constituents of a fund (the instruments whose `FundId` is
    that fund's id). */
module InvestmentRepository {
  import opened Wrappers
  import opened Entities
  import Seqs

  function HasId(investmentId: int): Investment -> bool
  {
    (i: Investment) => i.investmentId == investmentId
  }

  function HasTypeId(investmentTypeId: int): InvestmentType -> bool
  {
    (t: InvestmentType) => t.investmentTypeId == investmentTypeId
  }

  function InFund(fundId: int): Investment -> bool
  {
    (i: Investment) => i.fundId == Some(fundId)
  }

  function GetInvestmentWithDetails(investments: seq<Investment>, investmentId: int): (r: Option<Investment>)
    ensures r.None? <==> forall i :: i in investments ==> i.investmentId != investmentId
    ensures r.Some? ==> r.value in investments && r.value.investmentId == investmentId
  {
    Seqs.FindFirst(investments, HasId(investmentId))
  }

  function GetInvestmentType(types: seq<InvestmentType>, investmentTypeId: int): (r: Option<InvestmentType>)
    ensures r.None? <==> forall t :: t in types ==> t.investmentTypeId != investmentTypeId
    ensures r.Some? ==> r.value in types && r.value.investmentTypeId == investmentTypeId
  {
    Seqs.FindFirst(types, HasTypeId(investmentTypeId))
  }

  function GetFundInvestments(investments: seq<Investment>, fundId: int): (r: seq<Investment>)
    ensures forall i :: i in r <==> i in investments && i.fundId == Some(fundId)
  {
    Seqs.Filter(investments, InFund(fundId))
  }

  /** With `InvestmentId` as the key, the lookup finds the one stored row. */
  lemma LookupByKey(investments: seq<Investment>, inv: Investment)
    requires Seqs.DistinctBy(investments, InvestmentKey)
    requires inv in investments
    ensures GetInvestmentWithDetails(investments, inv.investmentId) == Some(inv)
  {
    var r := GetInvestmentWithDetails(investments, inv.investmentId).value;
    var i :| 0 <= i < |investments| && investments[i] == inv;
    var j :| 0 <= j < |investments| && investments[j] == r;
    assert InvestmentKey(investments[i]) == InvestmentKey(investments[j]);
    assert i == j;
  }

  /** With `InvestmentTypeId` as the key, the type lookup finds the one stored row. */
  lemma TypeLookupByKey(types: seq<InvestmentType>, t: InvestmentType)
    requires Seqs.DistinctBy(types, InvestmentTypeKey)
    requires t in types
    ensures GetInvestmentType(types, t.investmentTypeId) == Some(t)
  {
    var r := GetInvestmentType(types, t.investmentTypeId).value;
    var i :| 0 <= i < |types| && types[i] == t;
    var j :| 0 <= j < |types| && types[j] == r;
    assert InvestmentTypeKey(types[i]) == InvestmentTypeKey(types[j]);
    assert i == j;
  }

  /** `FundId` is single-valued: an instrument is a constituent of at most
      one fund, and of none when its `FundId` is null. */
  lemma ConstituentOfAtMostOneFund(investments: seq<Investment>, inv: Investment, f1: int, f2: int)
    requires inv in GetFundInvestments(investments, f1)
    requires inv in GetFundInvestments(investments, f2)
    ensures f1 == f2
    ensures inv.fundId == Some(f1)
  {
  }

  lemma UnownedIsNoConstituent(investments: seq<Investment>, inv: Investment, f: int)
    requires inv.fundId.None?
    ensures inv !in GetFundInvestments(investments, f)
  {
  }

  /** The constituents of a fund are distinct instruments. */
  lemma ConstituentsDistinct(investments: seq<Investment>, fundId: int)
    requires Seqs.DistinctBy(investments, InvestmentKey)
    ensures Seqs.DistinctBy(GetFundInvestments(investments, fundId), InvestmentKey)
  {
    Seqs.FilterDistinctBy(investments, InFund(fundId), InvestmentKey);
  }
}
