/** The quote query: the latest quote of an ISIN dated on or before a day
    (`Where`, `OrderByDescending(QuoteDate)`, `FirstOrDefault`). */
module QuoteRepository {
  import opened Wrappers
  import opened Entities
  import Seqs

  function Query(isin: string, referenceDate: Date): Quote -> bool
  {
    (q: Quote) => q.isin == isin && q.quoteDate <= referenceDate
  }

  /** The first quote of `qs` carrying the greatest date, as the head of a
      stable descending sort would be. */
  function FirstLatest(qs: seq<Quote>): (r: Option<Quote>)
    ensures r.None? <==> |qs| == 0
    ensures r.Some? ==> r.value in qs
    ensures r.Some? ==> forall q :: q in qs ==> q.quoteDate <= r.value.quoteDate
  {
    if |qs| == 0 then None
    else
      var rest := FirstLatest(qs[1..]);
      if rest.None? || qs[0].quoteDate >= rest.value.quoteDate then Some(qs[0]) else rest
  }

  function GetLatestQuoteBeforeDate(quotes: seq<Quote>, isin: string, referenceDate: Date): (r: Option<Quote>)
    ensures r.None? <==> forall q :: q in quotes ==> !(q.isin == isin && q.quoteDate <= referenceDate)
    ensures r.Some? ==> r.value in quotes && r.value.isin == isin && r.value.quoteDate <= referenceDate
    ensures r.Some? ==> forall q | q in quotes && q.isin == isin && q.quoteDate <= referenceDate
                          :: q.quoteDate <= r.value.quoteDate
  {
    var matching := Seqs.Filter(quotes, Query(isin, referenceDate));
    assert forall q :: q in matching <==> q in quotes && q.isin == isin && q.quoteDate <= referenceDate;
    FirstLatest(matching)
  }

  /** Under the unique (Isin, QuoteDate) index the result is determined by
      its specification: any latest matching quote is the one returned. */
  lemma LatestIsUnique(quotes: seq<Quote>, isin: string, referenceDate: Date, q: Quote)
    requires Seqs.DistinctBy(quotes, QuoteKey)
    requires q in quotes && q.isin == isin && q.quoteDate <= referenceDate
    requires forall q' | q' in quotes && q'.isin == isin && q'.quoteDate <= referenceDate :: q'.quoteDate <= q.quoteDate
    ensures GetLatestQuoteBeforeDate(quotes, isin, referenceDate) == Some(q)
  {
    var r := GetLatestQuoteBeforeDate(quotes, isin, referenceDate);
    assert r.Some?;
    var i :| 0 <= i < |quotes| && quotes[i] == q;
    var j :| 0 <= j < |quotes| && quotes[j] == r.value;
    assert QuoteKey(quotes[i]) == QuoteKey(quotes[j]);
    assert i == j;
  }

  /** A later reference date selects the same quote when no quote of that
      ISIN is dated in between. */
  lemma StableWithoutNewerQuotes(quotes: seq<Quote>, isin: string, d1: Date, d2: Date)
    requires d1 <= d2
    requires forall q | q in quotes && q.isin == isin :: !(d1 < q.quoteDate <= d2)
    ensures GetLatestQuoteBeforeDate(quotes, isin, d1) == GetLatestQuoteBeforeDate(quotes, isin, d2)
  {
    Seqs.FilterAgree(quotes, Query(isin, d1), Query(isin, d2));
  }
}
