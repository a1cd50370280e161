# Portfolio valuation of the QPLIX portfolio management service

This project models, in Dafny, how the portfolio management service values an
investor's portfolio on a reference date. It also models the four repository
queries that valuation reads from.

- **Instruments** are stocks (type 2), real-estate parcels (type 3) and funds
  (type 1).
- **Stocks** are worth the net share count times the latest quote on or
  before the date.
- **Parcels** are worth their latest land-value entry plus their latest
  building-value entry.
- **Funds** are worth the fund's ownership percentage times the summed value
  of their constituents. A constituent is any instrument whose `FundId` names
  the fund.
- **Cycles** among funds are cut by a set of visited instrument ids.
- **The portfolio** lists every holding with a positive value. Each line gets
  its share of the total in per cent, rounded to two decimals half-to-even.
  The total is the sum of the listed values.

The store is an immutable value (`Entities.Store`) with one sequence per
table. Each repository query is a pure filter or lookup over those
sequences. `decimal` amounts are `real` and dates are day numbers.
`Math.Round(x, 2)` is `DecimalRounding.Round2`, which uses banker's
rounding, the .NET default. The mutable `HashSet` of visited funds becomes
a set that each valuation function takes and returns, together with the
value. That lets Dafny prove termination: every recursive step either hits
the cycle guard or visits a stored instrument not visited before.

Modules:

| module | file | role |
|---|---|---|
| `Wrappers` | wrappers.dfy | `Option` and `Result` |
| `Seqs` | seqs.dfy | filter, first match and sum over sequences, with their algebra |
| `Entities` | entities.dfy | the table rows, the type and transaction-type ids, the table keys |
| `TransactionRepository`, `QuoteRepository`, `InvestmentRepository`, `InvestorRepository` | *_repository.dfy | the queries valuation reads from |
| `DecimalRounding` | decimal_rounding.dfy | half-to-even rounding to an integer and to two decimals |
| `Valuators` | valuators.dfy | share counts, fund percentages, latest snapshots and quotes; stock and real-estate values |
| `Valuation` | valuation.dfy | the mutually recursive instrument, dispatch and fund valuation |
| `ValuationLemmas` | valuation_lemmas.dfy | properties of the recursion |
| `ValuationFrame` | valuation_frame.dfy | why sibling order does not matter under the instrument key: what a valuation records, and the fund rule as a plain sum |
| `Portfolio` | portfolio.dfy | the per-holding breakdown, the percentages and the response |
| `Scenarios` | scenarios.dfy | worked examples on small stores |

### Rounded shares and the 100% line

Before rounding, the shares of a breakdown add up to exactly 100
(`Portfolio.SharesSumToHundred`). Rounding each share to two decimals keeps
every line within [0, 100]. The rounded shares, however, can add up to more
than 100: six holdings of equal value each round 16.666… to 16.67, and the
six lines sum to 100.02 (`Scenarios.SixEqualHoldings`). What the code does
guarantee is a bound: the rounded sum lies within n × 0.005 of 100 for n
lines (`Portfolio.RoundedSharesNearHundred`). This is how the code
behaves as written, with a standard rounding function, so the model keeps it
unchanged.

## Model

| member | source | states |
|---|---|---|
| TransactionRepository.GetTransactionsForInvestment | src/qplix-portfolio-management.Persistence/Repositories/TransactionRepository.cs:16-26 | exactly the ledger entries of the instrument and transaction type dated on or before the end date |
| TransactionRepository.EndDateMonotone | src/qplix-portfolio-management.Persistence/Repositories/TransactionRepository.cs:21-24 | a later end date never drops an entry |
| TransactionRepository.EarlierEndDateIsPrefixFilter | src/qplix-portfolio-management.Persistence/Repositories/TransactionRepository.cs:21-24 | the result for an earlier end date is the result for a later one, filtered by date, in the same order |
| TransactionRepository.AppendEntry | src/qplix-portfolio-management.Persistence/Repositories/TransactionRepository.cs:21-24 | recording one more entry appends it to the result exactly when it matches the query |
| QuoteRepository.FirstLatest | src/qplix-portfolio-management.Persistence/Repositories/QuoteRepository.cs:20-21 | none only for no quotes; otherwise a member with the greatest date |
| QuoteRepository.GetLatestQuoteBeforeDate | src/qplix-portfolio-management.Persistence/Repositories/QuoteRepository.cs:16-22 | none exactly when no quote of the ISIN is dated on or before the date; otherwise such a quote, with no later matching one |
| QuoteRepository.LatestIsUnique | src/qplix-portfolio-management.Persistence/Contexts/ApplicationDbContext.cs:231 | under the unique (ISIN, quote date) index, any latest matching quote is the one returned |
| QuoteRepository.StableWithoutNewerQuotes | src/qplix-portfolio-management.Persistence/Repositories/QuoteRepository.cs:19 | moving the date across a span without quotes of the ISIN does not change the answer |
| InvestmentRepository.GetInvestmentWithDetails | src/qplix-portfolio-management.Persistence/Repositories/InvestmentRepository.cs:16-21 | none exactly when no instrument has the id; otherwise a stored instrument with that id |
| InvestmentRepository.GetInvestmentType | src/qplix-portfolio-management.Persistence/Repositories/InvestmentRepository.cs:23-27 | none exactly when no type row has the id; otherwise a stored row with that id |
| InvestmentRepository.GetFundInvestments | src/qplix-portfolio-management.Persistence/Repositories/InvestmentRepository.cs:29-34 | exactly the stored instruments whose fund id is the fund |
| InvestmentRepository.LookupByKey | src/qplix-portfolio-management.Persistence/Contexts/ApplicationDbContext.cs:82 | with the instrument id as primary key, the lookup returns the stored row itself |
| InvestmentRepository.TypeLookupByKey | src/qplix-portfolio-management.Persistence/Contexts/ApplicationDbContext.cs:124 | with the type id as primary key, the lookup returns the stored type row itself |
| InvestmentRepository.ConstituentOfAtMostOneFund | src/qplix-portfolio-management.Persistence/Repositories/InvestmentRepository.cs:32 | an instrument is a constituent of at most one fund, the one its fund id names |
| InvestmentRepository.UnownedIsNoConstituent | src/qplix-portfolio-management.Persistence/Repositories/InvestmentRepository.cs:32 | an instrument without a fund id is no fund's constituent |
| InvestmentRepository.ConstituentsDistinct | src/qplix-portfolio-management.Persistence/Contexts/ApplicationDbContext.cs:82 | a fund's constituents carry distinct ids |
| InvestorRepository.GetInvestorById | src/qplix-portfolio-management.Persistence/Repositories/InvestorRepository.cs:19-23 | none exactly when no investor has the id; otherwise a stored investor with that id |
| InvestorRepository.InvestorLookupByKey | src/qplix-portfolio-management.Persistence/Contexts/ApplicationDbContext.cs:138 | with the investor id as primary key, the lookup returns the stored row itself |
| InvestorRepository.GetInvestorInvestments | src/qplix-portfolio-management.Persistence/Repositories/InvestorRepository.cs:25-30 | exactly the holding rows of the investor |
| InvestorRepository.HoldingsDistinct | src/qplix-portfolio-management.Persistence/Contexts/ApplicationDbContext.cs:160 | with (investor, instrument) as primary key, one investor's holdings name distinct instruments |
| DecimalRounding.RoundHalfEven | src/qplix-portfolio-management.Application/Services/Portfolios/PortfolioCalculationService.cs:209 | the nearest integer, and the even one on a tie |
| DecimalRounding.RoundHalfEvenUnique | src/qplix-portfolio-management.Application/Services/Portfolios/PortfolioCalculationService.cs:209 | the nearest-integer, ties-to-even property determines the rounded value |
| DecimalRounding.RoundHalfEvenMonotone | src/qplix-portfolio-management.Application/Services/Portfolios/PortfolioCalculationService.cs:209 | rounding preserves order |
| DecimalRounding.RoundHalfEvenOfInteger | src/qplix-portfolio-management.Application/Services/Portfolios/PortfolioCalculationService.cs:209 | an integer rounds to itself |
| DecimalRounding.Round2 | src/qplix-portfolio-management.Application/Services/Portfolios/PortfolioCalculationService.cs:209 | within 0.005 of the input, with at most two decimals, and an even number of hundredths when the input lies exactly half a hundredth away |
| DecimalRounding.Round2Unique | src/qplix-portfolio-management.Application/Services/Portfolios/PortfolioCalculationService.cs:209 | those clauses determine the rounded value: any number of hundredths meeting them is the result |
| DecimalRounding.Round2Monotone | src/qplix-portfolio-management.Application/Services/Portfolios/PortfolioCalculationService.cs:209 | two-decimal rounding preserves order |
| DecimalRounding.Round2OfTwoDecimals | src/qplix-portfolio-management.Application/Services/Portfolios/PortfolioCalculationService.cs:209 | a value with two decimals is left unchanged |
| DecimalRounding.Round2PercentInRange | src/qplix-portfolio-management.Application/Services/Portfolios/PortfolioCalculationService.cs:209 | a percentage in [0, 100] stays in [0, 100] |
| Valuators.Aggregate | src/qplix-portfolio-management.Application/Services/Portfolios/PortfolioCalculationService.cs:350-365 | 0 when no entry of the instrument and type is dated on or before the date; never negative when no matching entry is negative |
| Valuators.AggregateAppend | src/qplix-portfolio-management.Application/Services/Portfolios/PortfolioCalculationService.cs:350-365 | a new ledger entry changes a share count or percentage sum by its value exactly when it matches; later-dated entries never count |
| Valuators.FirstLatestUnique | src/qplix-portfolio-management.Application/Services/Portfolios/PortfolioCalculationService.cs:464-476 | the first entry holding the greatest date is unique |
| Valuators.LatestIndex | src/qplix-portfolio-management.Application/Services/Portfolios/PortfolioCalculationService.cs:464-476 | the position of the first entry with the greatest date |
| Valuators.FindLatestTransactionValue | src/qplix-portfolio-management.Application/Services/Portfolios/PortfolioCalculationService.cs:464-476 | the scan returns the value of the first entry with the greatest date |
| Valuators.LatestSnapshot | src/qplix-portfolio-management.Application/Services/Portfolios/PortfolioCalculationService.cs:418-456 | 0 with no matching entry; otherwise the value of a matching entry that no matching entry postdates |
| Valuators.LatestSnapshotOfStrictlyLatest | src/qplix-portfolio-management.Application/Services/Portfolios/PortfolioCalculationService.cs:464-476 | when one matching entry is strictly newer than the others, the snapshot is its value |
| Valuators.LatestStockPrice | src/qplix-portfolio-management.Application/Services/Portfolios/PortfolioCalculationService.cs:373-385 | 0 with no quote; otherwise the price of a latest matching quote |
| Valuators.StockValue | src/qplix-portfolio-management.Application/Services/Portfolios/PortfolioCalculationService.cs:314-342 | never negative; 0 without an ISIN, with a share count of at most 0 or without a positive price; positive exactly when all three hold, and then share count times price |
| Valuators.RealEstateValue | src/qplix-portfolio-management.Application/Services/Portfolios/PortfolioCalculationService.cs:393-410 | 0 when no land or building entry is dated on or before the date; never negative when no entry is negative |
| Valuators.RealEstateValueOfLatest | src/qplix-portfolio-management.Application/Services/Portfolios/PortfolioCalculationService.cs:393-456 | the value is the strictly latest land entry plus the strictly latest building entry |
| Valuators.FundInvestmentPercentage | src/qplix-portfolio-management.Application/Services/Portfolios/PortfolioCalculationService.cs:549-566 | the sum of the fund's percentage entries when positive, else 0 |
| Valuation.CalculateInvestmentValue | src/qplix-portfolio-management.Application/Services/Portfolios/PortfolioCalculationService.cs:244-272 | a visited fund member counts 0 and leaves the set unchanged; otherwise a fund member's id is added; the set only grows; never negative for non-negative snapshots |
| Valuation.CalculateValueByInvestmentType | src/qplix-portfolio-management.Application/Services/Portfolios/PortfolioCalculationService.cs:282-306 | stock, real-estate and fund rules by type id; 0 for a missing or unknown type |
| Valuation.Mark | src/qplix-portfolio-management.Application/Services/Portfolios/PortfolioCalculationService.cs:256-257 | the set grows by at most the instrument's own id, and by that id exactly when the instrument is a fund member |
| Valuation.PercentOf | src/qplix-portfolio-management.Application/Services/Portfolios/PortfolioCalculationService.cs:505 | a percentage of a total: 0 at 0%, the whole total at 100%, between 0 and the total for a percentage in [0, 100] and a non-negative total |
| Valuation.CalculateFundValue | src/qplix-portfolio-management.Application/Services/Portfolios/PortfolioCalculationService.cs:486-511 | 0 with nothing visited when the percentage is not positive; otherwise the percentage of the constituents' total, returning the set the total's traversal left |
| Valuation.CalculateTotalFundValue | src/qplix-portfolio-management.Application/Services/Portfolios/PortfolioCalculationService.cs:521-541 | 0 for a fund without constituents; never negative for non-negative snapshots (the sum itself is `ValuationFrame.TotalIsSumOfConstituents`) |
| Valuation.SumConstituents | src/qplix-portfolio-management.Application/Services/Portfolios/PortfolioCalculationService.cs:532-538 | 0 with nothing visited for no constituents; the set only grows; never negative for non-negative snapshots (the sum itself is `ValuationFrame.SiblingsSum`) |
| ValuationLemmas.ValueIgnoresInvestor | src/qplix-portfolio-management.Application/Services/Portfolios/PortfolioCalculationService.cs:244-261 | an instrument's value and visited set do not depend on the investor id passed along |
| ValuationLemmas.DispatchIgnoresInvestor | src/qplix-portfolio-management.Application/Services/Portfolios/PortfolioCalculationService.cs:282-306 | the same for the dispatch on the type |
| ValuationLemmas.FundIgnoresInvestor | src/qplix-portfolio-management.Application/Services/Portfolios/PortfolioCalculationService.cs:486-511 | the same for a fund's share |
| ValuationLemmas.TotalIgnoresInvestor | src/qplix-portfolio-management.Application/Services/Portfolios/PortfolioCalculationService.cs:521-541 | the same for a fund's total |
| ValuationLemmas.SumIgnoresInvestor | src/qplix-portfolio-management.Application/Services/Portfolios/PortfolioCalculationService.cs:532-538 | the same for a run of constituents |
| ValuationLemmas.RevisitCountsZero | src/qplix-portfolio-management.Application/Services/Portfolios/PortfolioCalculationService.cs:250-272 | a fund member valued again with the set its first valuation left behind counts 0 and visits nothing |
| ValuationLemmas.SumOfDirectConstituents | src/qplix-portfolio-management.Application/Services/Portfolios/PortfolioCalculationService.cs:532-538 | distinct, unvisited constituents that are not funds sum to the sum of their own stand-alone values |
| ValuationLemmas.FundOfDirectHoldings | src/qplix-portfolio-management.Application/Services/Portfolios/PortfolioCalculationService.cs:486-541 | a fund of such constituents is worth its percentage of the sum of their stand-alone values |
| ValuationFrame.FrameOfValue | src/qplix-portfolio-management.Application/Services/Portfolios/PortfolioCalculationService.cs:244-261 | ids added to the visited set that the valuation itself would never record change neither the value nor the rest of the set |
| ValuationFrame.FrameOfSum | src/qplix-portfolio-management.Application/Services/Portfolios/PortfolioCalculationService.cs:532-538 | the same for a run of constituents |
| ValuationFrame.FootprintOfValue | src/qplix-portfolio-management.Application/Services/Portfolios/PortfolioCalculationService.cs:256-257 | every id a stored instrument's valuation records is a fund member reached from it by following `FundId` links outside the set |
| ValuationFrame.FootprintOfSum | src/qplix-portfolio-management.Application/Services/Portfolios/PortfolioCalculationService.cs:532-538 | every id a run of constituents records lies below one of them in that sense |
| ValuationFrame.SiblingsApart | src/qplix-portfolio-management.Persistence/Contexts/ApplicationDbContext.cs:82 | under the instrument key no id lies below two different constituents of a fund that is visited or belongs to no fund |
| ValuationFrame.FirstApartFromRest | src/qplix-portfolio-management.Application/Services/Portfolios/PortfolioCalculationService.cs:532-538 | what the first constituent records and what the rest record from the same set are disjoint |
| ValuationFrame.SiblingsSum | src/qplix-portfolio-management.Application/Services/Portfolios/PortfolioCalculationService.cs:532-538 | under the instrument key the loop's total is the sum of the constituents' values each taken against the set the loop started from, whatever their order |
| ValuationFrame.TotalIsSumOfConstituents | src/qplix-portfolio-management.Application/Services/Portfolios/PortfolioCalculationService.cs:521-541 | under the instrument key, for a stored fund entered with a set of stored fund members' ids (every set the service builds from the empty set at :250 is one) that holds the fund if it belongs to a fund, the total is the sum of its constituents' values, each against that set |
| ValuationFrame.FundValueRule | src/qplix-portfolio-management.Application/Services/Portfolios/PortfolioCalculationService.cs:244-261 | under the instrument key, for a stored fund and a set of stored fund members' ids, the fund is worth 0 when the guard fires, otherwise its clamped percentage of the sum of its constituents' values, each against the set with the fund recorded |
| Portfolio.HoldingValue | src/qplix-portfolio-management.Application/Services/Portfolios/PortfolioCalculationService.cs:140 | from a fresh visited set, a stock is worth its stock value, a parcel its real-estate value, an untyped instrument 0, and nothing is negative for non-negative snapshots |
| Portfolio.HoldingValueIgnoresInvestor | src/qplix-portfolio-management.Application/Services/Portfolios/PortfolioCalculationService.cs:140 | two investors are credited the same value for the same instrument |
| Portfolio.TypeName | src/qplix-portfolio-management.Application/Services/Portfolios/PortfolioCalculationService.cs:164-183 | the stored type row's name when one exists; otherwise the fixed name of a known type id, else "Unknown" |
| Portfolio.Valued | src/qplix-portfolio-management.Application/Services/Portfolios/PortfolioCalculationService.cs:126-146 | a holding gets a line exactly when its instrument record exists and values above 0; the line is that instrument's response line: its id and code, its type name, that value, percentage 0 |
| Portfolio.CreateInvestmentResponse | src/qplix-portfolio-management.Application/Services/Portfolios/PortfolioCalculationService.cs:164-193 | the line carries the instrument's id and code, its type name, the value given, and percentage 0 until the total is known |
| Portfolio.IncludedRows | src/qplix-portfolio-management.Application/Services/Portfolios/PortfolioCalculationService.cs:119-155 | at most one line per holding, each with a positive value and percentage 0 |
| Portfolio.IncludedRowsMembers | src/qplix-portfolio-management.Application/Services/Portfolios/PortfolioCalculationService.cs:126-146 | a line is listed exactly when some holding is valued to it |
| Portfolio.IncludedRowsDistinct | src/qplix-portfolio-management.Application/Services/Portfolios/PortfolioCalculationService.cs:126-146 | holdings of distinct instruments give lines for distinct instruments |
| Portfolio.IncludedRowsStep | src/qplix-portfolio-management.Application/Services/Portfolios/PortfolioCalculationService.cs:126-152 | each further holding appends its line, if any |
| Portfolio.CalculateAllInvestmentValues | src/qplix-portfolio-management.Application/Services/Portfolios/PortfolioCalculationService.cs:119-155 | the loop yields the breakdown lines in holding order and a total that is their sum |
| Portfolio.CalculatePortfolioPercentages | src/qplix-portfolio-management.Application/Services/Portfolios/PortfolioCalculationService.cs:201-212 | only percentages change; nothing changes for a total of at most 0; otherwise each percentage is the line's share of the total rounded half-to-even to two decimals, within 0.005 of the share and in [0, 100] |
| Portfolio.SharesSumToHundred | src/qplix-portfolio-management.Application/Services/Portfolios/PortfolioCalculationService.cs:201-212 | the unrounded shares of lines summing to the total add up to 100 |
| Portfolio.RoundedSharesNearHundred | src/qplix-portfolio-management.Application/Services/Portfolios/PortfolioCalculationService.cs:201-212 | the rounded shares add up to within n × 0.005 of 100 |
| Portfolio.RoundingErrorBound | src/qplix-portfolio-management.Application/Services/Portfolios/PortfolioCalculationService.cs:209 | per-line rounding errors of at most 0.005 add up to at most n × 0.005 |
| Portfolio.BreakdownProperties | src/qplix-portfolio-management.Application/Services/Portfolios/PortfolioCalculationService.cs:63-67 | every line's value lies in (0, total]; the total is 0 exactly when there are no lines; percentages lie in [0, 100] and sum to within n × 0.005 of 100 |
| Portfolio.CalculatePortfolioValue | src/qplix-portfolio-management.Application/Services/Portfolios/PortfolioCalculationService.cs:48-110 | fails exactly for an unknown investor id; otherwise carries the investor, the date, the lines and their sum, with the properties above, and lines for distinct instruments in a store that respects its keys |
| Scenarios.StockScenario | src/qplix-portfolio-management.Application/Services/Portfolios/PortfolioCalculationService.cs:314-342 | ten shares quoted at 5.00 are worth 50 |
| Scenarios.RealEstateScenario | src/qplix-portfolio-management.Application/Services/Portfolios/PortfolioCalculationService.cs:393-410 | land at 100,000 plus a building at 50,000 make 150,000 |
| Scenarios.FundScenario | src/qplix-portfolio-management.Application/Services/Portfolios/PortfolioCalculationService.cs:486-511 | 40% of a fund holding 1,000 in stock is 400; a percentage entry dated after the date does not count |
| Scenarios.CycleScenario | src/qplix-portfolio-management.Application/Services/Portfolios/PortfolioCalculationService.cs:244-272 | two funds holding each other value in finite time; the back edge counts 0 |
| Scenarios.BankersRounding | src/qplix-portfolio-management.Application/Services/Portfolios/PortfolioCalculationService.cs:209 | 0.125 rounds to 0.12 and 0.135 to 0.14 |
| Scenarios.SixEqualHoldings | src/qplix-portfolio-management.Application/Services/Portfolios/PortfolioCalculationService.cs:201-212 | the rounded shares of six equal lines add up to 100.02 |

## Left out

- HTTP endpoints, `Program.cs`, dependency injection, the AI advisory and currency services, and the CRUD services: they are not part of valuation.
- Logging. It has no effect on results.
- Asynchrony. Every query is a pure function of the store.
- `CalculationDate` (`DateTime.UtcNow`). It is the wall clock, so the response leaves it out.
- `DateOnly.FromDateTime`: the reference date is passed as a day number, so truncating a time of day is the caller's job.
- The `catch` at PortfolioCalculationService.cs:148-151: pure functions cannot throw, so no holding is skipped for an exception.
- `decimal` precision and overflow. Amounts are unbounded reals. So `(percentage / 100m) * total` and `Value / total * 100` are exact here, and only the explicit two-decimal rounding is modelled.
- Entity Framework's `Include` of the type navigation. `Portfolio.TypeName` looks the type row up by the instrument's type id instead.
- Result order. Entity Framework gives none for an unordered `Where`, and the model uses store order. Tie-breaks between entries with equal dates follow that order, so the lemmas that need a determined answer assume a strictly latest entry or the unique quote index.
- Valuation.SumConstituents: its own contract gives only the empty case, the growth of the set and the sign. The sum is stated by `ValuationFrame.SiblingsSum`, because it holds only under the instrument key: with two stored rows sharing an id, a sibling can record an id that a later sibling then meets in the guard.
- Valuation.CalculateTotalFundValue: for the same reason its own contract gives only the empty case and the sign. `ValuationFrame.TotalIsSumOfConstituents` states the sum under the key.
- Valuators.RealEstateValue: its own contract states only the zero and sign cases. The value as the sum of the latest land and building entries is `Valuators.RealEstateValueOfLatest`, which asks for strictly latest entries.
