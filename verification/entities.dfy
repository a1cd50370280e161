/** The persisted entities the valuation engine reads, and the key and
    uniqueness facts the database enforces on them. Navigation properties
    and audit timestamps carry no behaviour and are omitted. */
module Entities {
  import opened Wrappers
  import Seqs

  /** A calendar day as its day number (`DateOnly.DayNumber`). */
  type Date = int

  /** Investment type ids. */
  const FundTypeId: int := 1
  const StockTypeId: int := 2
  const RealEstateTypeId: int := 3

  /** Transaction type ids. */
  const PercentageTransactionId: int := 1
  const SharesTransactionId: int := 2
  const EstateTransactionId: int := 3
  const BuildingTransactionId: int := 4

  datatype Investor = Investor(investorId: int, investorCode: string)

  datatype InvestmentType = InvestmentType(investmentTypeId: int, typeName: string)

  /** An instrument. `fundId` names the fund that holds it as a constituent
      (null for a directly held instrument); it says nothing about whether
      the instrument is itself a fund, which is `investmentTypeId`. */
  datatype Investment = Investment(
    investmentId: int,
    investmentCode: string,
    investmentTypeId: Option<int>,
    isin: Option<string>,
    cityId: Option<int>,
    fundId: Option<int>)

  /** The edge between an investor and a held instrument. The initial date
      and amount are informational and never used in valuation. */
  datatype InvestorInvestment = InvestorInvestment(
    investorId: int,
    investmentId: int,
    initialInvestmentDate: Option<Date>,
    initialAmount: Option<real>)

  /** A ledger entry; `value` is a delta for share and percentage entries
      and an absolute snapshot for land and building entries. */
  datatype Transaction = Transaction(
    transactionId: int,
    investmentId: int,
    transactionTypeId: int,
    transactionDate: Date,
    value: real)

  datatype Quote = Quote(quoteId: int, isin: string, quoteDate: Date, pricePerShare: real)

  /** The tables, each as an immutable sequence of rows. */
  datatype Store = Store(
    investors: seq<Investor>,
    investments: seq<Investment>,
    investmentTypes: seq<InvestmentType>,
    investorInvestments: seq<InvestorInvestment>,
    transactions: seq<Transaction>,
    quotes: seq<Quote>)

  function InvestorKey(i: Investor): int { i.investorId }
  function InvestmentKey(i: Investment): int { i.investmentId }
  function InvestmentTypeKey(t: InvestmentType): int { t.investmentTypeId }
  function HoldingKey(h: InvestorInvestment): (int, int) { (h.investorId, h.investmentId) }
  function QuoteKey(q: Quote): (string, Date) { (q.isin, q.quoteDate) }

  /** The primary keys and the unique quote index of the schema. */
  ghost predicate WellFormed(db: Store)
  {
    && Seqs.DistinctBy(db.investors, InvestorKey)
    && Seqs.DistinctBy(db.investments, InvestmentKey)
    && Seqs.DistinctBy(db.investmentTypes, InvestmentTypeKey)
    && Seqs.DistinctBy(db.investorInvestments, HoldingKey)
    && Seqs.DistinctBy(db.quotes, QuoteKey)
  }
}
