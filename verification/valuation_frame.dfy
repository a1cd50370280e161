/** Why the shared visited set does not make a fund's value depend on the
    order of its constituents.

    Under the `InvestmentId` primary key every stored instrument has at
    most one `FundId`, so following `FundId` upwards from an instrument is
    a function: its parent chain. Valuing an instrument adds to the visited
    set only ids whose parent chain leads back to that instrument without
    passing through the set (`FootprintOfValue`). Two constituents of the
    same fund have disjoint such footprints once the fund itself is in the
    set (`SiblingsApart`), and adding ids outside an instrument's
    footprint to the set changes nothing about its valuation
    (`FrameOfValue`). Together: a fund's total is the plain sum of its
    constituents' values, each valued against the set the fund was
    entered with (`TotalIsSumOfConstituents`). */
module ValuationFrame {
  import opened Wrappers
  import opened Entities
  import Seqs
  import InvestmentRepository
  import Valuators
  import opened Valuation

  /* ---------- adding ids outside the footprint changes nothing ---------- */

  /** One step of the constituent loop shrinks the measure: the first
      constituent is entered with fewer unvisited ids, and the rest are
      valued with no more. */
  lemma SumStep(db: Store, cs: seq<Investment>, investorId: int, referenceDate: Date, visited: set<int>)
    requires |cs| > 0
    requires forall c :: c in cs ==> c.fundId.Some? && c.investmentId in Universe(db)
    ensures forall c :: c in cs[1..] ==> c.fundId.Some? && c.investmentId in Universe(db)
    ensures !IsCycleDetected(cs[0], visited) ==> Unvisited(db, Mark(cs[0], visited)) < Unvisited(db, visited)
    ensures Unvisited(db, CalculateInvestmentValue(db, cs[0], investorId, referenceDate, visited).1)
         <= Unvisited(db, visited)
  {
    var c := cs[0];
    assert c in cs;
    assert !IsCycleDetected(c, visited) ==> Universe(db) - Mark(c, visited) == (Universe(db) - visited) - {c.investmentId};
    var first := CalculateInvestmentValue(db, c, investorId, referenceDate, visited);
    Seqs.SubsetCardinality(Universe(db) - first.1, Universe(db) - visited);
    assert forall c' :: c' in cs[1..] ==> c' in cs;
  }

  /** Valuing with extra ids `x` that the valuation itself would never add
      gives the same value and the same set, plus `x`. */
  lemma {:induction false} FrameOfValue(
    db: Store, inv: Investment, investorId: int, referenceDate: Date, visited: set<int>, x: set<int>)
    requires x !! CalculateInvestmentValue(db, inv, investorId, referenceDate, visited).1 - visited
    ensures var r := CalculateInvestmentValue(db, inv, investorId, referenceDate, visited);
            CalculateInvestmentValue(db, inv, investorId, referenceDate, visited + x) == (r.0, r.1 + x)
    decreases if IsCycleDetected(inv, visited) then 0 else Unvisited(db, Mark(inv, visited)) + 1, 4, 0
  {
    if !IsCycleDetected(inv, visited) {
      var r := CalculateInvestmentValue(db, inv, investorId, referenceDate, visited);
      assert inv.fundId.Some? ==> inv.investmentId in r.1 - visited;
      assert !IsCycleDetected(inv, visited + x);
      assert Mark(inv, visited + x) == Mark(inv, visited) + x;
      FrameOfDispatch(db, inv, investorId, referenceDate, Mark(inv, visited), x);
    }
  }

  lemma {:induction false} FrameOfDispatch(
    db: Store, inv: Investment, investorId: int, referenceDate: Date, visited: set<int>, x: set<int>)
    requires x !! CalculateValueByInvestmentType(db, inv, investorId, referenceDate, visited).1 - visited
    ensures var r := CalculateValueByInvestmentType(db, inv, investorId, referenceDate, visited);
            CalculateValueByInvestmentType(db, inv, investorId, referenceDate, visited + x) == (r.0, r.1 + x)
    decreases Unvisited(db, visited) + 1, 3, 0
  {
    if inv.investmentTypeId == Some(FundTypeId) {
      FrameOfFund(db, inv, investorId, referenceDate, visited, x);
    }
  }

  lemma {:induction false} FrameOfFund(
    db: Store, fund: Investment, investorId: int, referenceDate: Date, visited: set<int>, x: set<int>)
    requires x !! CalculateFundValue(db, fund, investorId, referenceDate, visited).1 - visited
    ensures var r := CalculateFundValue(db, fund, investorId, referenceDate, visited);
            CalculateFundValue(db, fund, investorId, referenceDate, visited + x) == (r.0, r.1 + x)
    decreases Unvisited(db, visited) + 1, 2, 0
  {
    if Valuators.FundInvestmentPercentage(db.transactions, fund.investmentId, referenceDate) > 0.0 {
      FrameOfTotal(db, fund, investorId, referenceDate, visited, x);
    }
  }

  lemma {:induction false} FrameOfTotal(
    db: Store, fund: Investment, investorId: int, referenceDate: Date, visited: set<int>, x: set<int>)
    requires x !! CalculateTotalFundValue(db, fund, investorId, referenceDate, visited).1 - visited
    ensures var r := CalculateTotalFundValue(db, fund, investorId, referenceDate, visited);
            CalculateTotalFundValue(db, fund, investorId, referenceDate, visited + x) == (r.0, r.1 + x)
    decreases Unvisited(db, visited) + 1, 1, 0
  {
    var cs := InvestmentRepository.GetFundInvestments(db.investments, fund.investmentId);
    if |cs| > 0 {
      assert forall c :: c in cs ==> c.fundId.Some? && c.investmentId in Universe(db);
      FrameOfSum(db, cs, investorId, referenceDate, visited, x);
    }
  }

  lemma {:induction false} FrameOfSum(
    db: Store, cs: seq<Investment>, investorId: int, referenceDate: Date, visited: set<int>, x: set<int>)
    requires forall c :: c in cs ==> c.fundId.Some? && c.investmentId in Universe(db)
    requires x !! SumConstituents(db, cs, investorId, referenceDate, visited).1 - visited
    ensures var r := SumConstituents(db, cs, investorId, referenceDate, visited);
            SumConstituents(db, cs, investorId, referenceDate, visited + x) == (r.0, r.1 + x)
    decreases Unvisited(db, visited) + 1, 0, |cs|
  {
    if |cs| > 0 {
      var c := cs[0];
      SumStep(db, cs, investorId, referenceDate, visited);
      var first := CalculateInvestmentValue(db, c, investorId, referenceDate, visited);
      FrameOfValue(db, c, investorId, referenceDate, visited, x);
      FrameOfSum(db, cs[1..], investorId, referenceDate, first.1, x);
      assert first.1 + x == (visited + x) + (first.1 - visited);
      var rest := SumConstituents(db, cs[1..], investorId, referenceDate, first.1);
      var restX := SumConstituents(db, cs[1..], investorId, referenceDate, first.1 + x);
      assert restX.0 == rest.0 && restX.1 == rest.1 + x;
    }
  }

  /* ---------- parent chains ---------- */

  /** The `FundId` of the stored instrument with this id. */
  ghost function Parent(db: Store, investmentId: int): Option<int>
  {
    match InvestmentRepository.GetInvestmentWithDetails(db.investments, investmentId)
    case Some(inv) => inv.fundId
    case None => None
  }

  /** `p` walks up the `FundId` links and never meets `visited`. */
  ghost predicate Chain(db: Store, p: seq<int>, visited: set<int>)
  {
    && |p| > 0
    && (forall k :: 0 <= k < |p| - 1 ==> Parent(db, p[k]) == Some(p[k + 1]))
    && (forall k :: 0 <= k < |p| ==> p[k] !in visited)
  }

  /** Going up from `z` reaches `target` outside `visited`. */
  ghost predicate Descends(db: Store, z: int, target: int, visited: set<int>)
  {
    exists p :: Chain(db, p, visited) && p[0] == z && p[|p| - 1] == target
  }

  /** The ids of the stored instruments that belong to some fund: the only
      ids the valuation ever records. */
  ghost function MemberIds(db: Store): set<int>
  {
    set inv | inv in db.investments && inv.fundId.Some? :: inv.investmentId
  }

  lemma ParentOfStored(db: Store, inv: Investment)
    requires Seqs.DistinctBy(db.investments, InvestmentKey)
    requires inv in db.investments
    ensures Parent(db, inv.investmentId) == inv.fundId
  {
    InvestmentRepository.LookupByKey(db.investments, inv);
  }

  /** Two walks up from the same id agree as far as both go. */
  lemma {:induction false} ChainsAgree(db: Store, p: seq<int>, q: seq<int>, visited: set<int>, k: nat)
    requires Chain(db, p, visited) && Chain(db, q, visited) && p[0] == q[0]
    requires k < |p| && k < |q|
    ensures p[k] == q[k]
  {
    if k > 0 {
      ChainsAgree(db, p, q, visited, k - 1);
      assert Parent(db, p[k - 1]) == Some(p[k]) && Parent(db, q[k - 1]) == Some(q[k]);
    }
  }

  /** A walk up ends where the `FundId` links end. */
  lemma ChainStopsAtTop(db: Store, p: seq<int>, visited: set<int>, k: nat)
    requires Chain(db, p, visited) && k < |p| && Parent(db, p[k]).None?
    ensures k == |p| - 1
  {
    if k < |p| - 1 {
      ChainLink(db, p, visited, k);
    }
  }

  lemma ChainLink(db: Store, p: seq<int>, visited: set<int>, k: nat)
    requires Chain(db, p, visited) && k < |p| - 1
    ensures Parent(db, p[k]) == Some(p[k + 1])
  {
  }

  /** When the shorter of two walks up from one id ends at a constituent
      `a` of `fund` and the longer at a constituent `b`, then `a` is `b`:
      past `a` the longer walk would have to go through `fund`. */
  lemma ApartByLength(
    db: Store, fund: Investment, a: Investment, b: Investment, p: seq<int>, q: seq<int>, visited: set<int>)
    requires Seqs.DistinctBy(db.investments, InvestmentKey)
    requires fund in db.investments && a in db.investments && b in db.investments
    requires a.fundId == Some(fund.investmentId) && b.fundId == Some(fund.investmentId)
    requires fund.fundId.Some? ==> fund.investmentId in visited
    requires Chain(db, p, visited) && Chain(db, q, visited) && p[0] == q[0] && |p| <= |q|
    requires p[|p| - 1] == a.investmentId && q[|q| - 1] == b.investmentId
    ensures a.investmentId == b.investmentId
  {
    if a.investmentId != b.investmentId {
      var n := |p|;
      ChainsAgree(db, p, q, visited, n - 1);
      assert n < |q|;
      assert Parent(db, q[n - 1]) == Some(q[n]);
      ParentOfStored(db, a);
      assert q[n] == fund.investmentId && q[n] !in visited;
      ParentOfStored(db, fund);
      assert Parent(db, q[n]).None?;
      ChainStopsAtTop(db, q, visited, n);
      assert b.investmentId == fund.investmentId;
      ParentOfStored(db, b);
    }
  }

  /** No id is reached from two different constituents of a fund that is
      already in the set, or belongs to no fund. */
  lemma SiblingsApart(db: Store, fund: Investment, a: Investment, b: Investment, z: int, visited: set<int>)
    requires Seqs.DistinctBy(db.investments, InvestmentKey)
    requires fund in db.investments && a in db.investments && b in db.investments
    requires a.fundId == Some(fund.investmentId) && b.fundId == Some(fund.investmentId)
    requires a.investmentId != b.investmentId
    requires fund.fundId.Some? ==> fund.investmentId in visited
    ensures !(Descends(db, z, a.investmentId, visited) && Descends(db, z, b.investmentId, visited))
  {
    if Descends(db, z, a.investmentId, visited) && Descends(db, z, b.investmentId, visited) {
      var p :| Chain(db, p, visited) && p[0] == z && p[|p| - 1] == a.investmentId;
      var q :| Chain(db, q, visited) && q[0] == z && q[|q| - 1] == b.investmentId;
      if |p| <= |q| {
        ApartByLength(db, fund, a, b, p, q, visited);
      } else {
        ApartByLength(db, fund, b, a, q, p, visited);
      }
    }
  }

  /** A walk up to a constituent goes one step further, to its fund. */
  lemma ExtendToFund(db: Store, c: Investment, fund: int, z: int, visited: set<int>)
    requires Seqs.DistinctBy(db.investments, InvestmentKey)
    requires c in db.investments && c.fundId == Some(fund) && fund !in visited
    requires Descends(db, z, c.investmentId, visited)
    ensures Descends(db, z, fund, visited)
  {
    var p :| Chain(db, p, visited) && p[0] == z && p[|p| - 1] == c.investmentId;
    ParentOfStored(db, c);
    var p' := p + [fund];
    assert p'[|p'| - 1] == fund && p'[0] == z;
    assert Chain(db, p', visited);
  }

  /** A walk that avoids a set avoids every smaller set. */
  lemma DescendsShrink(db: Store, z: int, target: int, small: set<int>, large: set<int>)
    requires small <= large
    requires Descends(db, z, target, large)
    ensures Descends(db, z, target, small)
  {
    var p :| Chain(db, p, large) && p[0] == z && p[|p| - 1] == target;
    assert Chain(db, p, small);
  }

  /* ---------- what a valuation adds to the set ---------- */

  /** Every id in `added` is a fund member reached by walking up to
      `target` outside `visited`. */
  ghost predicate Below(db: Store, added: set<int>, target: int, visited: set<int>)
  {
    forall z | z in added :: z in MemberIds(db) && Descends(db, z, target, visited)
  }

  /** Every id in `added` is a fund member reached by walking up to one
      of `cs` outside `visited`. */
  ghost predicate BelowOneOf(db: Store, added: set<int>, cs: seq<Investment>, visited: set<int>)
  {
    forall z | z in added :: z in MemberIds(db) && exists c :: c in cs && Descends(db, z, c.investmentId, visited)
  }

  /** Every id in `added` is a fund member reached by walking up to some
      constituent of the fund `fundId` outside `visited`. */
  ghost predicate BelowConstituent(db: Store, added: set<int>, fundId: int, visited: set<int>)
  {
    forall z | z in added
      :: z in MemberIds(db)
         && exists c :: c in db.investments && c.fundId == Some(fundId) && Descends(db, z, c.investmentId, visited)
  }

  lemma BelowMembers(db: Store, added: set<int>, target: int, visited: set<int>)
    requires Below(db, added, target, visited)
    ensures added <= MemberIds(db)
  {
    forall z | z in added
      ensures z in MemberIds(db)
    {
    }
  }

  /** Entering `inv` records at most `inv` itself; what its constituents
      add lies below one of them and so below `inv`. */
  lemma LiftToInstrument(db: Store, inv: Investment, visited: set<int>, after: set<int>)
    requires Seqs.DistinctBy(db.investments, InvestmentKey)
    requires inv in db.investments && inv.investmentId !in visited
    requires Mark(inv, visited) <= after
    requires BelowConstituent(db, after - Mark(inv, visited), inv.investmentId, Mark(inv, visited))
    ensures Below(db, after - visited, inv.investmentId, visited)
  {
    var marked := Mark(inv, visited);
    forall z | z in after - visited
      ensures z in MemberIds(db) && Descends(db, z, inv.investmentId, visited)
    {
      if z in marked {
        assert z == inv.investmentId && inv.fundId.Some?;
        assert Chain(db, [z], visited);
      } else {
        assert z in after - marked;
        var c :| c in db.investments && c.fundId == Some(inv.investmentId) && Descends(db, z, c.investmentId, marked);
        DescendsShrink(db, z, c.investmentId, visited, marked);
        ExtendToFund(db, c, inv.investmentId, z, visited);
      }
    }
  }

  /** What the first constituent adds lies below it; what the rest add,
      below one of them. */
  lemma CombineSiblings(
    db: Store, cs: seq<Investment>, visited: set<int>, afterFirst: set<int>, afterRest: set<int>)
    requires |cs| > 0 && visited <= afterFirst <= afterRest
    requires Below(db, afterFirst - visited, cs[0].investmentId, visited)
    requires BelowOneOf(db, afterRest - afterFirst, cs[1..], afterFirst)
    ensures BelowOneOf(db, afterRest - visited, cs, visited)
  {
    forall z | z in afterRest - visited
      ensures z in MemberIds(db) && exists c :: c in cs && Descends(db, z, c.investmentId, visited)
    {
      if z in afterFirst {
        assert cs[0] in cs && Descends(db, z, cs[0].investmentId, visited);
      } else {
        assert z in afterRest - afterFirst;
        var c :| c in cs[1..] && Descends(db, z, c.investmentId, afterFirst);
        DescendsShrink(db, z, c.investmentId, visited, afterFirst);
        assert c in cs;
      }
    }
  }

  /** Every id the valuation of a stored instrument records is a fund
      member below that instrument, reached outside the set. */
  lemma {:induction false} FootprintOfValue(
    db: Store, inv: Investment, investorId: int, referenceDate: Date, visited: set<int>)
    requires Seqs.DistinctBy(db.investments, InvestmentKey)
    requires inv in db.investments && visited <= MemberIds(db)
    ensures Below(db, CalculateInvestmentValue(db, inv, investorId, referenceDate, visited).1 - visited,
                  inv.investmentId, visited)
    decreases if IsCycleDetected(inv, visited) then 0 else Unvisited(db, Mark(inv, visited)) + 1, 4, 0
  {
    if !IsCycleDetected(inv, visited) {
      if inv.investmentId in visited {
        var g :| g in db.investments && g.fundId.Some? && g.investmentId == inv.investmentId;
        ParentOfStored(db, g);
        ParentOfStored(db, inv);
      }
      var marked := Mark(inv, visited);
      assert marked <= MemberIds(db);
      FootprintOfDispatch(db, inv, investorId, referenceDate, marked);
      var after := CalculateValueByInvestmentType(db, inv, investorId, referenceDate, marked).1;
      LiftToInstrument(db, inv, visited, after);
    }
  }

  lemma {:induction false} FootprintOfDispatch(
    db: Store, inv: Investment, investorId: int, referenceDate: Date, visited: set<int>)
    requires Seqs.DistinctBy(db.investments, InvestmentKey)
    requires visited <= MemberIds(db)
    ensures BelowConstituent(db, CalculateValueByInvestmentType(db, inv, investorId, referenceDate, visited).1 - visited,
                             inv.investmentId, visited)
    decreases Unvisited(db, visited) + 1, 3, 0
  {
    if inv.investmentTypeId == Some(FundTypeId) {
      FootprintOfFund(db, inv, investorId, referenceDate, visited);
    }
  }

  lemma {:induction false} FootprintOfFund(
    db: Store, fund: Investment, investorId: int, referenceDate: Date, visited: set<int>)
    requires Seqs.DistinctBy(db.investments, InvestmentKey)
    requires visited <= MemberIds(db)
    ensures BelowConstituent(db, CalculateFundValue(db, fund, investorId, referenceDate, visited).1 - visited,
                             fund.investmentId, visited)
    decreases Unvisited(db, visited) + 1, 2, 0
  {
    if Valuators.FundInvestmentPercentage(db.transactions, fund.investmentId, referenceDate) > 0.0 {
      FootprintOfTotal(db, fund, investorId, referenceDate, visited);
    }
  }

  lemma {:induction false} FootprintOfTotal(
    db: Store, fund: Investment, investorId: int, referenceDate: Date, visited: set<int>)
    requires Seqs.DistinctBy(db.investments, InvestmentKey)
    requires visited <= MemberIds(db)
    ensures BelowConstituent(db, CalculateTotalFundValue(db, fund, investorId, referenceDate, visited).1 - visited,
                             fund.investmentId, visited)
    decreases Unvisited(db, visited) + 1, 1, 0
  {
    var cs := InvestmentRepository.GetFundInvestments(db.investments, fund.investmentId);
    if |cs| > 0 {
      assert forall c :: c in cs ==> c in db.investments && c.fundId.Some? && c.investmentId in Universe(db);
      FootprintOfSum(db, cs, investorId, referenceDate, visited);
      var after := SumConstituents(db, cs, investorId, referenceDate, visited).1;
      forall z | z in after - visited
        ensures z in MemberIds(db)
                && exists c :: c in db.investments && c.fundId == Some(fund.investmentId)
                               && Descends(db, z, c.investmentId, visited)
      {
        var c :| c in cs && Descends(db, z, c.investmentId, visited);
      }
    }
  }

  lemma {:induction false} FootprintOfSum(
    db: Store, cs: seq<Investment>, investorId: int, referenceDate: Date, visited: set<int>)
    requires Seqs.DistinctBy(db.investments, InvestmentKey)
    requires forall c :: c in cs ==> c in db.investments && c.fundId.Some? && c.investmentId in Universe(db)
    requires visited <= MemberIds(db)
    ensures BelowOneOf(db, SumConstituents(db, cs, investorId, referenceDate, visited).1 - visited, cs, visited)
    decreases Unvisited(db, visited) + 1, 0, |cs|
  {
    if |cs| > 0 {
      var c := cs[0];
      SumStep(db, cs, investorId, referenceDate, visited);
      assert c in cs;
      var first := CalculateInvestmentValue(db, c, investorId, referenceDate, visited);
      FootprintOfValue(db, c, investorId, referenceDate, visited);
      BelowMembers(db, first.1 - visited, c.investmentId, visited);
      FootprintOfSum(db, cs[1..], investorId, referenceDate, first.1);
      var rest := SumConstituents(db, cs[1..], investorId, referenceDate, first.1);
      CombineSiblings(db, cs, visited, first.1, rest.1);
    }
  }

  /* ---------- the fund rule ---------- */

  /** An instrument's value against a fixed visited set. */
  function ValueAgainst(db: Store, investorId: int, referenceDate: Date, visited: set<int>): Investment -> real
  {
    (c: Investment) => CalculateInvestmentValue(db, c, investorId, referenceDate, visited).0
  }

  lemma DistinctTail(cs: seq<Investment>)
    requires |cs| > 0 && Seqs.DistinctBy(cs, InvestmentKey)
    ensures Seqs.DistinctBy(cs[1..], InvestmentKey)
    ensures forall c :: c in cs[1..] ==> c.investmentId != cs[0].investmentId
  {
    var tail := cs[1..];
    forall i, j | 0 <= i < j < |tail|
      ensures InvestmentKey(tail[i]) != InvestmentKey(tail[j])
    {
      assert tail[i] == cs[i + 1] && tail[j] == cs[j + 1];
    }
    forall c | c in tail
      ensures c.investmentId != cs[0].investmentId
    {
      var m :| 0 <= m < |tail| && tail[m] == c;
      assert InvestmentKey(cs[0]) != InvestmentKey(cs[m + 1]);
    }
  }

  /** What the first constituent records and what the others record
      when valued from the same set are disjoint. */
  lemma FirstApartFromRest(
    db: Store, fund: Investment, cs: seq<Investment>, investorId: int, referenceDate: Date, visited: set<int>)
    requires Seqs.DistinctBy(db.investments, InvestmentKey)
    requires fund in db.investments && visited <= MemberIds(db)
    requires fund.fundId.Some? ==> fund.investmentId in visited
    requires forall c :: c in cs ==> c in db.investments && c.fundId == Some(fund.investmentId) && c.investmentId in Universe(db)
    requires |cs| > 0 && Seqs.DistinctBy(cs, InvestmentKey)
    ensures forall c :: c in cs[1..] ==> c in cs
    ensures CalculateInvestmentValue(db, cs[0], investorId, referenceDate, visited).1 - visited
         !! SumConstituents(db, cs[1..], investorId, referenceDate, visited).1 - visited
  {
    var c := cs[0];
    var tail := cs[1..];
    assert c in cs;
    assert forall c' :: c' in tail ==> c' in cs;
    DistinctTail(cs);
    var added := CalculateInvestmentValue(db, c, investorId, referenceDate, visited).1 - visited;
    var others := SumConstituents(db, tail, investorId, referenceDate, visited).1 - visited;
    FootprintOfValue(db, c, investorId, referenceDate, visited);
    FootprintOfSum(db, tail, investorId, referenceDate, visited);
    forall z | z in added && z in others
      ensures false
    {
      var c' :| c' in tail && Descends(db, z, c'.investmentId, visited);
      SiblingsApart(db, fund, c, c', z, visited);
    }
  }

  /** Constituents of one fund, valued one after the other with the shared
      set, add up to the sum of their values each taken against the set the
      loop started from. */
  lemma {:induction false} SiblingsSum(
    db: Store, fund: Investment, cs: seq<Investment>, investorId: int, referenceDate: Date, visited: set<int>)
    requires Seqs.DistinctBy(db.investments, InvestmentKey)
    requires fund in db.investments && visited <= MemberIds(db)
    requires fund.fundId.Some? ==> fund.investmentId in visited
    requires forall c :: c in cs ==> c in db.investments && c.fundId == Some(fund.investmentId)
    requires Seqs.DistinctBy(cs, InvestmentKey)
    ensures forall c :: c in cs ==> c.fundId.Some? && c.investmentId in Universe(db)
    ensures SumConstituents(db, cs, investorId, referenceDate, visited).0
         == Seqs.SumOf(cs, ValueAgainst(db, investorId, referenceDate, visited))
    decreases |cs|
  {
    assert forall c :: c in cs ==> c.fundId.Some? && c.investmentId in Universe(db);
    if |cs| > 0 {
      var tail := cs[1..];
      FirstApartFromRest(db, fund, cs, investorId, referenceDate, visited);
      DistinctTail(cs);
      var first := CalculateInvestmentValue(db, cs[0], investorId, referenceDate, visited);
      var added := first.1 - visited;
      FrameOfSum(db, tail, investorId, referenceDate, visited, added);
      assert visited + added == first.1;
      SiblingsSum(db, fund, tail, investorId, referenceDate, visited);
    }
  }

  /** `CalculateTotalFundValueAsync` under the primary key: the sum of the
      constituents' values, each against the set the fund was entered
      with, whatever their order. */
  lemma TotalIsSumOfConstituents(db: Store, fund: Investment, investorId: int, referenceDate: Date, visited: set<int>)
    requires Seqs.DistinctBy(db.investments, InvestmentKey)
    requires fund in db.investments && visited <= MemberIds(db)
    requires fund.fundId.Some? ==> fund.investmentId in visited
    ensures CalculateTotalFundValue(db, fund, investorId, referenceDate, visited).0
         == Seqs.SumOf(InvestmentRepository.GetFundInvestments(db.investments, fund.investmentId),
                       ValueAgainst(db, investorId, referenceDate, visited))
  {
    var cs := InvestmentRepository.GetFundInvestments(db.investments, fund.investmentId);
    InvestmentRepository.ConstituentsDistinct(db.investments, fund.investmentId);
    SiblingsSum(db, fund, cs, investorId, referenceDate, visited);
  }

  /** `CalculateInvestmentValueAsync` on a stored fund: 0 when the guard
      fires, otherwise the fund's clamped percentage of the sum of its
      constituents' values, each against the set with the fund recorded. */
  lemma FundValueRule(db: Store, fund: Investment, investorId: int, referenceDate: Date, visited: set<int>)
    requires Seqs.DistinctBy(db.investments, InvestmentKey)
    requires fund in db.investments && visited <= MemberIds(db)
    requires fund.investmentTypeId == Some(FundTypeId)
    ensures CalculateInvestmentValue(db, fund, investorId, referenceDate, visited).0
         == if IsCycleDetected(fund, visited) then 0.0
            else PercentOf(Valuators.FundInvestmentPercentage(db.transactions, fund.investmentId, referenceDate),
                           Seqs.SumOf(InvestmentRepository.GetFundInvestments(db.investments, fund.investmentId),
                                      ValueAgainst(db, investorId, referenceDate, Mark(fund, visited))))
  {
    if !IsCycleDetected(fund, visited) {
      TotalIsSumOfConstituents(db, fund, investorId, referenceDate, Mark(fund, visited));
    }
  }
}
