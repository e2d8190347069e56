# Rent ledger engine

A Dafny model of the rent-ledger engine of a property-rental manager
(`server/managers/rentmanager`). The engine keeps one invoice record per
calendar month of a rental contract in the contract's `rents` index
(year -> month -> record). Its callers drive it one month at a time. Each
call handles one month and returns the record it touched. A falsy result
tells the caller's loop to stop.

The engine's implementation is not part of this model. Its behaviour is
taken from `test/rentmanager.js`, which drives the four operations and
asserts on their results:

- `_computeRent` sums the prices and the expenses of the rented
  properties (`Rents.ComputeRent`).
- `createRent` derives one month's record from the contract and the
  previous record, and files it (`RentManager.Contract.CreateRent`).
- `_updateRentPayment` books a lump payment on a starting month, then
  re-bases every later month (`RentManager.Contract.UpdateRentPayment`).
- `updateRentAmount` reconciles the ledger with a new last month. It
  re-derives or creates the months up to it and removes the months after
  it (`RentManager.Contract.UpdateRentAmount`).

Modules:

- `Months` (months.dfy): a month is the linear index
  `year * 12 + month - 1`, so "next month" is `i + 1`.
- `Rents` (rents.dfy): the record, property, payment and configuration
  datatypes, the period amounts and how one record follows another.
- `LedgerIndex` (ledger_index.dfy): the year -> month index with lookup,
  filing and removal. `Represents` says that an index mirrors a ledger
  keyed by month index.
- `Chain` (chain.dfy): `Consistent`, a ledger of contiguous months where
  every record is derived from its predecessor. It also holds what a
  payment walk and a term walk do to such a ledger.
- `RentManager` (manager.dfy): the `Contract` class. Its `rents` field is
  updated in place by the three ledger operations, and its ghost `ledger`
  keeps the same records keyed by month index.
- `Scenario` (scenario.dfy): the callers' month-by-month loops
  (`BuildLedger`, `ApplyPayment`, `ChangeTerm`), each proved against the
  `Chain` description of its outcome. It also holds `RecordFields`: under
  any contract terms, every record filed for a consistent ledger carries
  its keys, the contract's snapshot, amounts, and VAT.
- `Example` (example.dfy): the test's own walkthrough with its numbers.
  The contract has two properties (100 with an expense of 10, and 50) and
  VAT at 0.2. The monthly charge is 192. There are nine years of rents
  from January 2000, a payment of 48 charges in January 2004, and the
  term is extended by a year and shortened back. `Walkthrough` runs the
  three stages in that order on one contract, as the test does.

In a consistent ledger with no payment booked, the k-th record (counting from 0) has balance
`k * R` and total `(k + 1) * R`, with `R` the monthly charge. A payment
booked on a month leaves that month's balance and total as they were. It
lowers every later balance and total by the amount paid (less any payment
the month already held). Moving the term's end later and back restores
the ledger exactly.

## Model

| member | source | states |
|---|---|---|
| Rents.ComputeRent | test/rentmanager.js:19-21 | an empty property list gives amount 0 and expense 0 |
| Rents.ComputeRentOne | test/rentmanager.js:9-16 | a single property's amount is its price and its expense is its expense, a missing expense counting as 0 |
| Rents.ComputeRentAdditive | test/rentmanager.js:9-22 | amount and expense of two property lists put together are the sums of their amounts and of their expenses; with the empty and single-property cases this makes them the sums of prices and of expenses over any list |
| Example.ExamplePrice | test/rentmanager.js:9-22 | the two test properties give amount 150 and expense 10 |
| Example.ExampleCharge | test/rentmanager.js:44-45 | the test contract's VAT is 32 and its monthly charge 192 |
| Rents.NewRent | test/rentmanager.js:80-87 | a new record carries its own year and month (month in 1..12), the contract's discount, isVat and vatRatio, the period amounts and VAT; its balance is 0 for the first month, else the previous total less the previous payment; its total is its balance plus its charge; it holds no payment |
| Rents.Rebase | test/rentmanager.js:106-109 | re-basing sets the balance and makes the total balance plus charge, keeping year, month, payment, VAT and charge |
| Months.MonthOf | test/rentmanager.js:57-64 | the month of an index is in 1..12 and, with its year, gives the index back |
| Months.FieldsRoundTrip | test/rentmanager.js:80-81 | a year and a month in 1..12 are recovered from their index |
| LedgerIndex.Lookup | test/rentmanager.js:77-78 | a month is found exactly when its year key and month key are both present |
| LedgerIndex.Put | test/rentmanager.js:48 | a filed record is found under its month |
| LedgerIndex.Delete | test/rentmanager.js:171 | a removed month is no longer found |
| LedgerIndex.PutOthers | test/rentmanager.js:48 | filing a month leaves every other month's lookup unchanged |
| LedgerIndex.DeleteOthers | test/rentmanager.js:171 | removing a month leaves every other month's lookup unchanged |
| LedgerIndex.LookupAgrees | test/rentmanager.js:77-78 | through a mirrored index, a lookup is the ledger's record of that month or nothing |
| LedgerIndex.PutRepresents | test/rentmanager.js:48 | filing a record keeps the index a mirror of the ledger with that record |
| LedgerIndex.DeleteRepresents | test/rentmanager.js:171 | removing a month, and its year once empty, keeps the index a mirror of the ledger without it |
| LedgerIndex.FiledRecord | test/rentmanager.js:80-81 | a record filed under year y, month m is the ledger's record of that month index, and m is in 1..12 |
| LedgerIndex.WholeYears | test/rentmanager.js:52-71 | a ledger of `years` whole years from January of `year` is filed under exactly those year keys, each holding exactly the month keys 1..12 |
| LedgerIndex.SameYears | test/rentmanager.js:111-117 | two mirrored ledgers over the same months have the same year keys |
| RentManager.Contract.constructor | test/rentmanager.js:26-38 | a new contract has the given configuration and no rents |
| RentManager.Contract.CreateRent | test/rentmanager.js:47-50 | past the term's end nothing changes and the result is falsy; otherwise the month's new record is filed and returned |
| RentManager.Contract.UpdateRentPayment | test/rentmanager.js:106-109 | a missing month ends the walk with no change; the first call books the payment on its month keeping its balance; later calls re-base the month on what the previous record carries |
| RentManager.Contract.UpdateRentAmount | test/rentmanager.js:146-149 | up to the new end the month is derived afresh from the previous record, keeping its payment; past it an existing month is removed and returned; a missing month past it ends the walk with no change |
| Chain.ConsistentAppend | test/rentmanager.js:47-50 | adding the next month's derived record to a consistent ledger gives a consistent ledger one month longer |
| Chain.BuildStep | test/rentmanager.js:47-50 | creating the next month keeps the ledger consistent and unpaid, and the new record is the next month's predecessor |
| Chain.ClosedForm | test/rentmanager.js:85-87 | in an unpaid consistent ledger the k-th record has balance k * R and total (k + 1) * R |
| Chain.WalkFirst | test/rentmanager.js:107 | the walk's first step books the payment on its starting month |
| Chain.WalkNext | test/rentmanager.js:106-109 | each later step re-bases the next month on its walked predecessor; a missing month leaves the ledger as it is |
| Chain.WalkDone | test/rentmanager.js:109 | the walk ends at the first missing month after the start, with every month walked |
| Chain.PaymentShift | test/rentmanager.js:112-132 | after a payment walk every VAT amount and charge is unchanged, months up to the paid one keep balance and total, and every later balance and total drops by the payment less what the month already held |
| Chain.PaymentFollows | test/rentmanager.js:106-109 | each walked month is still derived from its walked predecessor, and only the paid month's payment changed |
| Chain.PaymentKeepsConsistent | test/rentmanager.js:106-109 | a payment walk keeps the ledger consistent and changes only the paid month's payment |
| Chain.TermCreate | test/rentmanager.js:146-149 | within the new term the walk re-derives the month from its predecessor, with the payment it had |
| Chain.TermPast | test/rentmanager.js:170-173 | past the new term the walk removes the month if present |
| Chain.TermDone | test/rentmanager.js:173 | the term walk ends with a consistent ledger over exactly the new term, every month keeping its payment |
| Chain.ConsistentUnique | test/rentmanager.js:146-149 | two consistent ledgers over the same months with the same payments agree on every month |
| Chain.ConsistentEqual | test/rentmanager.js:146-149 | two consistent ledgers over the same months with the same payments are equal |
| Chain.TermUpdateIdempotent | test/rentmanager.js:170-173 | a term walk to the end already in effect leaves a consistent ledger unchanged |
| Chain.TermRoundTrip | test/rentmanager.js:137-188 | extending the term by some months and shortening it back restores the ledger; the added months carry no payment |
| Scenario.RecordFields | test/rentmanager.js:80-86 | under any contract terms, every record filed in the index of a consistent ledger carries its own year and month, the contract's discount, isVat and vatRatio, the contract's amount and expense, and VAT equal to (amount + expense) * vatRatio when subject to VAT, 0 otherwise |
| Scenario.BuildLedger | test/rentmanager.js:47-50 | creating one record per month from the start through the end gives a consistent unpaid ledger of exactly those months |
| Scenario.ApplyPayment | test/rentmanager.js:105-109 | the payment loop books the payment on the start month and re-bases every later month, as PaymentApplied describes |
| Scenario.ChangeTerm | test/rentmanager.js:144-149 | the term loop leaves a consistent ledger over exactly the months up to the new end, each keeping its payment |
| Example.CreatedRecord | test/rentmanager.js:77-89 | each record of the nine-year ledger carries its keys, the contract's snapshot, VAT 32, balance k * 192 and total (k + 1) * 192 |
| Example.CreateRents | test/rentmanager.js:39-90 | the creation loop gives the year keys 2000..2008, twelve month keys 1..12 in each, and the record values above |
| Example.ShiftedRecord | test/rentmanager.js:123-132 | after the 48-charge payment in January 2004, months up to it keep balance k * 192, later ones drop by 48 * 192, and VAT stays 32 |
| Example.PaidRecord | test/rentmanager.js:111-134 | each record after the payment has the values the test asserts, and only January 2004 holds the payment |
| Example.MakePayment | test/rentmanager.js:92-135 | the payment loop keeps the year keys and the ledger consistent and leaves every record as the test asserts |
| Example.Walkthrough | test/rentmanager.js:25-189 | on one freshly created contract, creation, the payment and the term change back and forth leave nine whole years 2000..2008 whose records have the values asserted after the payment; the index at the longer term has ten whole years |
| Example.ChangeDuration | test/rentmanager.js:137-189 | extending to December 2009 gives ten whole years 2000..2009; shortening back gives nine whole years 2000..2008 and the original ledger |

## Left out

- Dates: moment.js day-level dates are not modelled. A month is a linear index. The test's `date <= end` with `end` on the last day of December 2008 becomes "index at most December 2008's index".
- ComputeRent: the `revisionFactor` and `referenceIndex` arguments are dropped. The test only makes the neutral call `(1, 2000)`, and no indexation formula is visible. Its own `ensures` covers only the empty list; the single-property case is stated by `Rents.ComputeRentOne` and sums over longer lists by `Rents.ComputeRentAdditive`.
- Property entries: each entry of `properties` is an object `{ property: { price, expense } }`; the model drops the outer wrapper and keeps the inner price and optional expense as `Property`.
- Discount: `discount` is only copied into each record. No discount arithmetic is visible, so none is modelled.
- Record links: records are values. The `previous` record is passed explicitly and returned, as the test's loops do. Object identity, aliasing between the returned record and the filed one, and any previous/next pointers are not modelled.
- Key order: JavaScript's enumeration order of `rents` keys is not modelled. Chronological order is the month index.
- Floating point: amounts and the VAT ratio are exact reals. IEEE rounding of `0.2` is not modelled.
- Persistence, HTTP handlers and the contract store around the manager are not part of this model.
- Missing `rents`: a contract without a `rents` field is modelled as one with an empty index.
- Carry after a paid month: outside the payment walk, `createRent` and the term walk open a month with the previous total less the payment booked on it (`Rents.NewRent`, `RentManager.Contract.UpdateRentAmount`). The test never observes this case: its term change after the payment only counts keys. The rule is inferred because it is the one under which re-deriving a paid ledger reproduces it, which `Chain.TermUpdateIdempotent` and `Chain.TermRoundTrip` state; a plain `balance = previous.totalAmount` would undo the payment's effect on later months.
- Payment allocation: a reading in which a payment is spread over months until it is used up, leaving balances alone, does not fit the test. In the test, later balances and totals drop by the payment, and the records of 2008 are re-based too, which only a walk to the end of the ledger does. The model follows the test.
