/** The investor queries: lookup by id and the holdings (investor to
    instrument edges) of one investor. */
module InvestorRepository {
  import opened Wrappers
  import opened Entities
  import Seqs

  function HasId(investorId: int): Investor -> bool
  {
    (i: Investor) => i.investorId == investorId
  }

  function HeldBy(investorId: int): InvestorInvestment -> bool
  {
    (h: InvestorInvestment) => h.investorId == investorId
  }

  function GetInvestorById(investors: seq<Investor>, investorId: int): (r: Option<Investor>)
    ensures r.None? <==> forall i :: i in investors ==> i.investorId != investorId
    ensures r.Some? ==> r.value in investors && r.value.investorId == investorId
  {
    Seqs.FindFirst(investors, HasId(investorId))
  }

  /** With `InvestorId` as the primary key, the lookup finds the one
      stored row. */
  lemma InvestorLookupByKey(investors: seq<Investor>, inv: Investor)
    requires Seqs.DistinctBy(investors, InvestorKey)
    requires inv in investors
    ensures GetInvestorById(investors, inv.investorId) == Some(inv)
  {
    var r := GetInvestorById(investors, inv.investorId).value;
    var i :| 0 <= i < |investors| && investors[i] == inv;
    var j :| 0 <= j < |investors| && investors[j] == r;
    assert InvestorKey(investors[i]) == InvestorKey(investors[j]);
    assert i == j;
  }

  function GetInvestorInvestments(edges: seq<InvestorInvestment>, investorId: int): (r: seq<InvestorInvestment>)
    ensures forall h :: h in r <==> h in edges && h.investorId == investorId
  {
    Seqs.Filter(edges, HeldBy(investorId))
  }

  function HoldingInvestmentKey(h: InvestorInvestment): int { h.investmentId }

  /** With (InvestorId, InvestmentId) as the edge key, no instrument appears
      twice among one investor's holdings. */
  lemma HoldingsDistinct(edges: seq<InvestorInvestment>, investorId: int)
    requires Seqs.DistinctBy(edges, HoldingKey)
    ensures Seqs.DistinctBy(GetInvestorInvestments(edges, investorId), HoldingInvestmentKey)
  {
    var r := GetInvestorInvestments(edges, investorId);
    Seqs.FilterDistinctBy(edges, HeldBy(investorId), HoldingKey);
    forall i, j | 0 <= i < j < |r|
      ensures HoldingInvestmentKey(r[i]) != HoldingInvestmentKey(r[j])
    {
      assert r[i] in r && r[j] in r;
      assert HoldingKey(r[i]) != HoldingKey(r[j]);
    }
  }
}
