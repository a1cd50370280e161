/** The transaction query: the ledger entries of one instrument and one
    transaction type, dated on or before an inclusive end date. */
module TransactionRepository {
  import opened Entities
  import Seqs

  /** The query's `Where` predicate. */
  function Query(investmentId: int, transactionTypeId: int, endDate: Date): Transaction -> bool
  {
    (t: Transaction) => t.investmentId == investmentId && t.transactionTypeId == transactionTypeId && t.transactionDate <= endDate
  }

  function GetTransactionsForInvestment(
    ledger: seq<Transaction>, investmentId: int, transactionTypeId: int, endDate: Date): (r: seq<Transaction>)
    ensures forall t :: t in r ==> t in ledger
    ensures forall t :: t in r ==> t.investmentId == investmentId
    ensures forall t :: t in r ==> t.transactionTypeId == transactionTypeId
    ensures forall t :: t in r ==> t.transactionDate <= endDate
    ensures forall t | t in ledger && t.investmentId == investmentId && t.transactionTypeId == transactionTypeId
                         && t.transactionDate <= endDate :: t in r
  {
    Seqs.Filter(ledger, Query(investmentId, transactionTypeId, endDate))
  }

  /** Moving the end date later only adds entries. */
  lemma EndDateMonotone(ledger: seq<Transaction>, investmentId: int, transactionTypeId: int, d1: Date, d2: Date)
    requires d1 <= d2
    ensures forall t | t in GetTransactionsForInvestment(ledger, investmentId, transactionTypeId, d1)
              :: t in GetTransactionsForInvestment(ledger, investmentId, transactionTypeId, d2)
  {
  }

  function DatedOnOrBefore(d: Date): Transaction -> bool
  {
    (t: Transaction) => t.transactionDate <= d
  }

  /** The result for an earlier end date is exactly the result for a later
      one with the entries after the earlier date removed, in the same order. */
  lemma EarlierEndDateIsPrefixFilter(
    ledger: seq<Transaction>, investmentId: int, transactionTypeId: int, d1: Date, d2: Date)
    requires d1 <= d2
    ensures GetTransactionsForInvestment(ledger, investmentId, transactionTypeId, d1)
         == Seqs.Filter(GetTransactionsForInvestment(ledger, investmentId, transactionTypeId, d2), DatedOnOrBefore(d1))
  {
    Seqs.FilterNarrow(ledger, Query(investmentId, transactionTypeId, d2), DatedOnOrBefore(d1),
                      Query(investmentId, transactionTypeId, d1));
  }

  /** Appending an entry to the ledger appends it to every query it matches
      and leaves every other query unchanged. */
  lemma {:induction false} AppendEntry(
    ledger: seq<Transaction>, t: Transaction, investmentId: int, transactionTypeId: int, endDate: Date)
    ensures GetTransactionsForInvestment(ledger + [t], investmentId, transactionTypeId, endDate)
         == GetTransactionsForInvestment(ledger, investmentId, transactionTypeId, endDate)
            + (if t.investmentId == investmentId && t.transactionTypeId == transactionTypeId && t.transactionDate <= endDate
               then [t] else [])
  {
    var q := Query(investmentId, transactionTypeId, endDate);
    Seqs.FilterAppend(ledger, [t], q);
    assert [t][1..] == [];
  }
}
