/** The three type-specific valuation rules and the ledger aggregations
    they are built on: the sum of delta entries, the latest snapshot entry
    and the latest quote. */
module Valuators {
  import opened Wrappers
  import opened Entities
  import Seqs
  import TransactionRepository
  import QuoteRepository

  function TransactionValue(t: Transaction): real { t.value }

  /** The sum of the values of the entries of one instrument and one
      transaction type dated on or before `endDate`: a share count for
      share entries, a fund percentage for percentage entries. */
  function Aggregate(ledger: seq<Transaction>, investmentId: int, transactionTypeId: int, endDate: Date): (r: real)
    ensures (forall t | t in ledger && t.investmentId == investmentId && t.transactionTypeId == transactionTypeId
               :: t.transactionDate > endDate) ==> r == 0.0
    ensures (forall t | t in ledger && t.investmentId == investmentId && t.transactionTypeId == transactionTypeId
               && t.transactionDate <= endDate :: t.value >= 0.0) ==> r >= 0.0
  {
    var ts := TransactionRepository.GetTransactionsForInvestment(ledger, investmentId, transactionTypeId, endDate);
    assert ts != [] ==> ts[0] in ts;
    assert (forall t | t in ts :: t.value >= 0.0) ==> Seqs.SumOf(ts, TransactionValue) >= 0.0 by {
      if forall t | t in ts :: t.value >= 0.0 {
        Seqs.SumNonNegative(ts, TransactionValue);
      }
    }
    Seqs.SumOf(ts, TransactionValue)
  }

  /** Recording a new entry changes an aggregate by that entry's value when
      it matches the query, and not at all otherwise; in particular an
      entry dated after the end date never counts. */
  lemma AggregateAppend(ledger: seq<Transaction>, t: Transaction, investmentId: int, transactionTypeId: int, endDate: Date)
    ensures Aggregate(ledger + [t], investmentId, transactionTypeId, endDate)
         == Aggregate(ledger, investmentId, transactionTypeId, endDate)
            + (if TransactionRepository.Query(investmentId, transactionTypeId, endDate)(t) then t.value else 0.0)
  {
    TransactionRepository.AppendEntry(ledger, t, investmentId, transactionTypeId, endDate);
    var before := TransactionRepository.GetTransactionsForInvestment(ledger, investmentId, transactionTypeId, endDate);
    if t.investmentId == investmentId && t.transactionTypeId == transactionTypeId && t.transactionDate <= endDate {
      Seqs.SumOfAppend(before, [t], TransactionValue);
    } else {
      assert before + [] == before;
    }
  }

  /** `k` is the position the scan of `FindLatestTransactionValue` settles
      on: a greatest date, and the first position carrying it. */
  ghost predicate IsFirstLatest(ts: seq<Transaction>, k: int)
  {
    && 0 <= k < |ts|
    && (forall j :: 0 <= j < |ts| ==> ts[j].transactionDate <= ts[k].transactionDate)
    && (forall j :: 0 <= j < k ==> ts[j].transactionDate < ts[k].transactionDate)
  }

  lemma FirstLatestUnique(ts: seq<Transaction>, k1: int, k2: int)
    requires IsFirstLatest(ts, k1) && IsFirstLatest(ts, k2)
    ensures k1 == k2
  {
    assert ts[k1].transactionDate == ts[k2].transactionDate;
  }

  /** The position of the latest entry, computed on growing prefixes the
      way the scan visits them. */
  function LatestIndex(ts: seq<Transaction>): (k: nat)
    requires |ts| > 0
    ensures IsFirstLatest(ts, k)
  {
    if |ts| == 1 then 0
    else
      var prefix := ts[..|ts| - 1];
      var k := LatestIndex(prefix);
      assert forall j :: 0 <= j < |ts| - 1 ==> ts[j] == prefix[j];
      if ts[|ts| - 1].transactionDate > ts[k].transactionDate then |ts| - 1 else k
  }

  /** The scan over a non-empty result: keep the first entry, replace it by
      any entry with a strictly later date, return the kept entry's value. */
  method FindLatestTransactionValue(ts: seq<Transaction>) returns (v: real)
    requires |ts| > 0
    ensures exists k :: IsFirstLatest(ts, k) && v == ts[k].value
  {
    var k := 0;
    var latest := ts[0];
    for i := 0 to |ts|
      invariant 0 <= k < |ts| && latest == ts[k]
      invariant k <= i
      invariant forall j :: 0 <= j < i ==> ts[j].transactionDate <= latest.transactionDate
      invariant forall j :: 0 <= j < k ==> ts[j].transactionDate < latest.transactionDate
    {
      if ts[i].transactionDate > latest.transactionDate {
        k := i;
        latest := ts[i];
      }
    }
    assert IsFirstLatest(ts, k);
    v := latest.value;
  }

  /** The value of the latest snapshot entry of one type for one instrument
      dated on or before `endDate`, or 0 when there is none. */
  function LatestSnapshot(ledger: seq<Transaction>, investmentId: int, transactionTypeId: int, endDate: Date): (r: real)
    ensures (forall t | t in ledger && t.investmentId == investmentId && t.transactionTypeId == transactionTypeId
                :: t.transactionDate > endDate) ==> r == 0.0
    ensures (exists t :: t in ledger && t.investmentId == investmentId && t.transactionTypeId == transactionTypeId
                && t.transactionDate <= endDate)
            ==> exists t :: t in ledger && t.investmentId == investmentId && t.transactionTypeId == transactionTypeId
                  && t.transactionDate <= endDate && r == t.value
                  && forall u | u in ledger && u.investmentId == investmentId && u.transactionTypeId == transactionTypeId
                                && u.transactionDate <= endDate :: u.transactionDate <= t.transactionDate
  {
    var ts := TransactionRepository.GetTransactionsForInvestment(ledger, investmentId, transactionTypeId, endDate);
    if |ts| == 0 then 0.0
    else
      var k := LatestIndex(ts);
      assert ts[k] in ts;
      ts[k].value
  }

  /** `GetLatestStockPriceAsync`: the price of the latest quote, 0 without one. */
  function LatestStockPrice(quotes: seq<Quote>, isin: string, referenceDate: Date): (r: real)
    ensures (forall q | q in quotes && q.isin == isin :: q.quoteDate > referenceDate) ==> r == 0.0
    ensures (exists q :: q in quotes && q.isin == isin && q.quoteDate <= referenceDate)
            ==> exists q :: q in quotes && q.isin == isin && q.quoteDate <= referenceDate
                                    && q.pricePerShare == r
                                    && forall q' | q' in quotes && q'.isin == isin && q'.quoteDate <= referenceDate
                                                    :: q'.quoteDate <= q.quoteDate
  {
    match QuoteRepository.GetLatestQuoteBeforeDate(quotes, isin, referenceDate)
    case None => 0.0
    case Some(q) => q.pricePerShare
  }

  predicate HasIsin(inv: Investment)
  {
    inv.isin.Some? && inv.isin.value != ""
  }

  /** A stock is worth its share count times its latest price, and nothing
      when it has no ISIN, no positive share count or no positive price. */
  function StockValue(db: Store, inv: Investment, referenceDate: Date): (r: real)
    ensures r >= 0.0
    ensures !HasIsin(inv) ==> r == 0.0
    ensures Aggregate(db.transactions, inv.investmentId, SharesTransactionId, referenceDate) <= 0.0 ==> r == 0.0
    ensures HasIsin(inv) && (forall q | q in db.quotes && q.isin == inv.isin.value :: q.quoteDate > referenceDate)
            ==> r == 0.0
    ensures r > 0.0 <==> HasIsin(inv)
                         && Aggregate(db.transactions, inv.investmentId, SharesTransactionId, referenceDate) > 0.0
                         && LatestStockPrice(db.quotes, inv.isin.value, referenceDate) > 0.0
    ensures r > 0.0 ==> r == Aggregate(db.transactions, inv.investmentId, SharesTransactionId, referenceDate)
                             * LatestStockPrice(db.quotes, inv.isin.value, referenceDate)
  {
    if !HasIsin(inv) then 0.0
    else
      var shareCount := Aggregate(db.transactions, inv.investmentId, SharesTransactionId, referenceDate);
      if shareCount <= 0.0 then 0.0
      else
        var stockPrice := LatestStockPrice(db.quotes, inv.isin.value, referenceDate);
        if stockPrice <= 0.0 then 0.0
        else shareCount * stockPrice
  }

  /** The entry `t` is a latest match: every other matching entry is
      strictly older. */
  ghost predicate IsStrictlyLatest(ledger: seq<Transaction>, t: Transaction, investmentId: int, transactionTypeId: int, endDate: Date)
  {
    && t in ledger && t.investmentId == investmentId && t.transactionTypeId == transactionTypeId && t.transactionDate <= endDate
    && forall u | u in ledger && u.investmentId == investmentId && u.transactionTypeId == transactionTypeId
                  && u.transactionDate <= endDate && u != t :: u.transactionDate < t.transactionDate
  }

  /** When one entry is strictly newer than all other matches, the snapshot
      is that entry's value, whatever the ledger order. */
  lemma LatestSnapshotOfStrictlyLatest(
    ledger: seq<Transaction>, t: Transaction, investmentId: int, transactionTypeId: int, endDate: Date)
    requires IsStrictlyLatest(ledger, t, investmentId, transactionTypeId, endDate)
    ensures LatestSnapshot(ledger, investmentId, transactionTypeId, endDate) == t.value
  {
    var r := LatestSnapshot(ledger, investmentId, transactionTypeId, endDate);
    var w :| w in ledger && w.investmentId == investmentId && w.transactionTypeId == transactionTypeId
             && w.transactionDate <= endDate && r == w.value
             && forall u | u in ledger && u.investmentId == investmentId && u.transactionTypeId == transactionTypeId
                           && u.transactionDate <= endDate :: u.transactionDate <= w.transactionDate;
    assert t.transactionDate <= w.transactionDate;
  }

  /** A parcel is worth its latest land snapshot plus its latest building
      snapshot, each 0 when absent. */
  function RealEstateValue(db: Store, inv: Investment, referenceDate: Date): (r: real)
    ensures (forall t | t in db.transactions && t.investmentId == inv.investmentId
               && (t.transactionTypeId == EstateTransactionId || t.transactionTypeId == BuildingTransactionId)
               :: t.transactionDate > referenceDate) ==> r == 0.0
    ensures (forall t | t in db.transactions && t.investmentId == inv.investmentId
               && (t.transactionTypeId == EstateTransactionId || t.transactionTypeId == BuildingTransactionId)
               :: t.value >= 0.0) ==> r >= 0.0
  {
    LatestSnapshot(db.transactions, inv.investmentId, EstateTransactionId, referenceDate)
    + LatestSnapshot(db.transactions, inv.investmentId, BuildingTransactionId, referenceDate)
  }

  /** With a strictly latest land entry and a strictly latest building
      entry, a parcel is worth the sum of their two values. */
  lemma RealEstateValueOfLatest(db: Store, inv: Investment, referenceDate: Date, land: Transaction, building: Transaction)
    requires IsStrictlyLatest(db.transactions, land, inv.investmentId, EstateTransactionId, referenceDate)
    requires IsStrictlyLatest(db.transactions, building, inv.investmentId, BuildingTransactionId, referenceDate)
    ensures RealEstateValue(db, inv, referenceDate) == land.value + building.value
  {
    LatestSnapshotOfStrictlyLatest(db.transactions, land, inv.investmentId, EstateTransactionId, referenceDate);
    LatestSnapshotOfStrictlyLatest(db.transactions, building, inv.investmentId, BuildingTransactionId, referenceDate);
  }

  /** A fund's ownership percentage: the sum of its percentage entries,
      floored at 0. It is keyed by the fund alone, not by the investor. */
  function FundInvestmentPercentage(ledger: seq<Transaction>, fundId: int, referenceDate: Date): (r: real)
    ensures r >= 0.0
    ensures r >= Aggregate(ledger, fundId, PercentageTransactionId, referenceDate)
    ensures r == 0.0 || r == Aggregate(ledger, fundId, PercentageTransactionId, referenceDate)
  {
    var totalPercentage := Aggregate(ledger, fundId, PercentageTransactionId, referenceDate);
    if 0.0 >= totalPercentage then 0.0 else totalPercentage
  }
}
