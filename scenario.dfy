/** The callers' month-by-month loops that drive the rent manager: each
    calls one operation per month, advancing the month and handing the
    returned record back as `previous`, until the operation signals the
    end. */
module Scenario {
  import opened Months
  import opened Rents
  import opened Chain
  import opened LedgerIndex
  import opened RentManager

  /** Creates one record per month from `start` through `end` on a
      contract without rents. The outcome is a consistent, unpaid ledger
      covering exactly those months. */
  method BuildLedger(c: Contract, start: int, end: int)
    requires c.Valid() && c.ledger == map[]
    modifies c`rents, c`ledger
    ensures c.Valid()
    ensures Consistent(c.Config(), c.ledger, start, Count(start, end))
    ensures Unpaid(c.ledger)
  {
    var i := start;
    var previous: Option<Rent> := None;
    while i <= end
      invariant c.Valid()
      invariant start <= i && i - start <= Count(start, end)
      invariant Consistent(c.Config(), c.ledger, start, i - start)
      invariant Unpaid(c.ledger)
      invariant previous == Prev(c.ledger, start, i)
      decreases end - i
    {
      BuildStep(c.Config(), c.ledger, start, i - start, previous);
      previous := c.CreateRent(i, end, previous);
      i := i + 1;
    }
    assert i - start == Count(start, end);
  }

  /** Every record filed in the index of a consistent ledger carries its
      own year and month, the contract's discount and VAT settings, the
      contract's period amounts, and the VAT those amounts call for: a
      share of amount and expense when the contract is subject to VAT,
      nothing otherwise. */
  lemma RecordFields(t: Terms, rents: Index, L: map<int, Rent>, first: int, n: nat, y: int, m: int)
    requires Represents(rents, L) && Consistent(t, L, first, n)
    requires y in rents && m in rents[y]
    ensures rents[y][m].year == y && rents[y][m].month == m
    ensures rents[y][m].discount == t.discount && rents[y][m].isVat == t.isVat && rents[y][m].vatRatio == t.vatRatio
    ensures rents[y][m].amount == ComputeRent(t.properties).amount
    ensures rents[y][m].expense == ComputeRent(t.properties).expense
    ensures t.isVat ==> rents[y][m].vatAmount == (rents[y][m].amount + rents[y][m].expense) * t.vatRatio
    ensures !t.isVat ==> rents[y][m].vatAmount == 0.0
  {
    FiledRecord(rents, L, y, m);
    assert Follows(t, L, first, MonthIndex(y, m));
    FieldsRoundTrip(y, m);
  }

  /** Applies the payment `p` from month `start`: the first call books it,
      every further call re-bases the next month, until a month is missing.
      The outcome is the ledger walked from `start` as described by
      PaymentApplied. */
  method ApplyPayment(c: Contract, start: int, p: Payment, ghost first: int, ghost n: nat)
    requires c.Valid() && Covers(c.ledger.Keys, first, n)
    modifies c`rents, c`ledger
    ensures c.Valid()
    ensures PaymentApplied(old(c.ledger), c.ledger, first, n, start, p)
  {
    ghost var L0 := c.ledger;
    var i := start;
    var previous := c.UpdateRentPayment(i, None, p);
    if previous.None? {
      return;
    }
    WalkFirst(L0, first, n, start, p);
    i := i + 1;
    while previous.Some?
      invariant c.Valid()
      invariant start < i
      invariant WalkedBefore(L0, c.ledger, first, n, start, p, i)
      invariant previous.Some? ==> i <= first + n && previous == Some(c.ledger[i - 1])
      invariant previous.None? ==> i - 1 !in L0
      decreases first + n - i
    {
      WalkNext(L0, c.ledger, first, n, start, p, i);
      previous := c.UpdateRentPayment(i, previous, p);
      i := i + 1;
    }
    WalkDone(L0, c.ledger, first, n, start, p, i);
  }

  /** Moves the end of the contract to `last`: walks the ledger from its
      first month `first`, re-deriving each month up to `last` and removing
      the months after it, and stops at the first month past `last` that is
      not there. */
  method ChangeTerm(c: Contract, first: int, last: int, ghost n: nat)
    requires c.Valid() && Covers(c.ledger.Keys, first, n)
    modifies c`rents, c`ledger
    ensures c.Valid()
    ensures TermUpdated(c.Config(), old(c.ledger), c.ledger, first, last)
  {
    ghost var L0 := c.ledger;
    ghost var t := c.Config();
    ghost var bound := if last + 1 > first + n then last + 1 else first + n;
    TermStart(t, L0, first, n, last);
    var i := first;
    var previous: Option<Rent> := None;
    while true
      invariant c.Valid()
      invariant first <= i
      invariant c.Config() == t
      invariant TermBefore(t, L0, c.ledger, first, n, last, i)
      invariant i <= last ==> previous == Prev(c.ledger, first, i)
      invariant i <= bound
      decreases bound - i
    {
      if i <= last {
        TermCreate(t, L0, c.ledger, first, n, last, i, previous);
      } else {
        TermPast(t, L0, c.ledger, first, n, last, i);
      }
      previous := c.UpdateRentAmount(i, last, previous);
      i := i + 1;
      if previous.None? {
        TermDone(t, L0, c.ledger, first, n, last, i);
        return;
      }
    }
  }
}
