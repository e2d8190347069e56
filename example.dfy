/** The walkthrough the engine's own test drives: a contract on two
    properties with VAT, nine years of monthly rents from January 2000,
    a payment booked in January 2004, and the term extended by a year and
    shortened back. */
module Example {
  import opened Months
  import opened Rents
  import opened Chain
  import opened LedgerIndex
  import opened RentManager
  import opened Scenario

  /** A property at 100 with an expense of 10 and one at 50 without. */
  function Properties(): seq<Property>
  {
    [Property(100.0, Some(10.0)), Property(50.0, None)]
  }

  /** No discount, VAT at 20%. */
  function ExampleTerms(): Terms
  {
    Terms(0.0, true, 0.2, Properties())
  }

  /** January 2000, the first month of the contract. */
  function Begin(): int
  {
    MonthIndex(2000, 1)
  }

  /** Forty-eight months' charges, paid in cash in January 2004. */
  function Deposit(): Payment
  {
    Payment(48.0 * 192.0, "cash", "211221", "01/01/2004", "no description")
  }

  /** The two properties rent for 150 with 10 of expenses. */
  lemma ExamplePrice()
    ensures ComputeRent(Properties()) == Price(150.0, 10.0)
  {
    ComputeRentAdditive([Properties()[0]], [Properties()[1]]);
    assert Properties() == [Properties()[0]] + [Properties()[1]];
  }

  /** Each month carries 32 of VAT and costs 192 in all. */
  lemma ExampleCharge()
    ensures VatAmount(ExampleTerms()) == 32.0
    ensures PeriodCharge(ExampleTerms()) == 192.0
  {
    ExamplePrice();
  }

  /** The fields the walkthrough checks on every record of month `m` of
      year `y`, the record being the `k`-th month of the contract and
      owing `due` months' charges before its own. */
  predicate Billed(r: Rent, y: int, m: int, due: int)
  {
    && r.year == y && r.month == m
    && r.discount == 0.0 && r.isVat && r.vatRatio == 0.2
    && r.vatAmount == 32.0
    && r.balance == (due as real) * 192.0
    && r.totalAmount == ((due + 1) as real) * 192.0
  }

  /** Every record of the nine-year ledger, looked up by year and month. */
  lemma CreatedRecord(rents: Index, L: map<int, Rent>, y: int, m: int)
    requires Represents(rents, L)
    requires Consistent(ExampleTerms(), L, Begin(), 108) && Unpaid(L)
    requires y in rents && m in rents[y]
    ensures Billed(rents[y][m], y, m, MonthIndex(y, m) - Begin())
  {
    ExampleCharge();
    FiledRecord(rents, L, y, m);
    var i := MonthIndex(y, m);
    assert Follows(ExampleTerms(), L, Begin(), i);
    ClosedForm(ExampleTerms(), L, Begin(), 108, i - Begin());
    FieldsRoundTrip(L[i].year, L[i].month);
  }

  /** Creates the rents from January 2000 through December 2008: nine
      years of twelve months, the k-th month owing k months' charges
      before its own and k + 1 with it. */
  method CreateRents() returns (c: Contract)
    ensures fresh(c) && c.Valid() && c.Config() == ExampleTerms()
    ensures Consistent(ExampleTerms(), c.ledger, Begin(), 108) && Unpaid(c.ledger)
    ensures Covers(c.rents.Keys, 2000, 9) && |c.rents| == 9
    ensures forall y | y in c.rents :: Covers(c.rents[y].Keys, 1, 12) && |c.rents[y]| == 12
    ensures forall y, m | y in c.rents && m in c.rents[y] ::
              Billed(c.rents[y][m], y, m, MonthIndex(y, m) - Begin())
  {
    c := new Contract(0.0, true, 0.2, Properties());
    var first := Begin();
    ghost var n := 108;
    var last := MonthIndex(2008, 12);
    assert Count(first, last) == n;
    assert c.Config() == ExampleTerms();
    BuildLedger(c, first, last);
    assert c.Config() == ExampleTerms();
    assert Consistent(c.Config(), c.ledger, first, n);
    WholeYears(c.rents, c.ledger, 2000, 9);
    forall y, m | y in c.rents && m in c.rents[y]
      ensures Billed(c.rents[y][m], y, m, MonthIndex(y, m) - Begin())
    {
      CreatedRecord(c.rents, c.ledger, y, m);
    }
  }

  /** The record of the `k`-th month once the deposit is booked on the
      49th (January 2004): months before it keep their debts, the 49th
      keeps its own and holds the payment, and every later month owes 48
      months' charges less. */
  lemma PaidRecord(rents: Index, L: map<int, Rent>, L': map<int, Rent>, y: int, m: int)
    requires Consistent(ExampleTerms(), L, Begin(), 108) && Unpaid(L)
    requires PaymentApplied(L, L', Begin(), 108, MonthIndex(2004, 1), Deposit())
    requires Represents(rents, L')
    requires y in rents && m in rents[y]
    ensures var k := MonthIndex(y, m) - Begin();
            && (k <= 48 ==> Billed(rents[y][m], y, m, k))
            && (k > 48 ==> Billed(rents[y][m], y, m, k - 48))
            && rents[y][m].payment == if k == 48 then Some(Deposit()) else None
  {
    var t := ExampleTerms();
    var start := MonthIndex(2004, 1);
    var i := MonthIndex(y, m);
    var k := i - Begin();
    ExampleCharge();
    FiledRecord(rents, L', y, m);
    assert start in L && i in L;
    PaymentKeepsConsistent(t, L, L', Begin(), 108, start, Deposit());
    assert Follows(t, L', Begin(), i);
    FieldsRoundTrip(L'[i].year, L'[i].month);
    ShiftedRecord(L, L', i);
  }

  /** The balances of the `k`-th month after the deposit, as multiples of
      the monthly charge. */
  lemma ShiftedRecord(L: map<int, Rent>, L': map<int, Rent>, i: int)
    requires Consistent(ExampleTerms(), L, Begin(), 108) && Unpaid(L)
    requires PaymentApplied(L, L', Begin(), 108, MonthIndex(2004, 1), Deposit())
    requires i in L
    ensures var k := i - Begin();
            && L'[i].vatAmount == 32.0
            && (k <= 48 ==> L'[i].balance == (k as real) * 192.0 && L'[i].totalAmount == ((k + 1) as real) * 192.0)
            && (k > 48 ==> L'[i].balance == ((k - 48) as real) * 192.0 && L'[i].totalAmount == ((k - 47) as real) * 192.0)
  {
    var t := ExampleTerms();
    var start := MonthIndex(2004, 1);
    var k := i - Begin();
    ExampleCharge();
    assert start in L;
    assert Follows(t, L, Begin(), i);
    assert L[start].payment == None;
    PaymentShift(t, L, L', Begin(), 108, start, Deposit(), i);
    ClosedForm(t, L, Begin(), 108, k);
    assert L[i].balance == (k as real) * 192.0;
    assert L[i].totalAmount == ((k + 1) as real) * 192.0;
  }

  /** Books the deposit from January 2004 onwards on the nine-year ledger. */
  method MakePayment(c: Contract)
    requires c.Valid() && c.Config() == ExampleTerms()
    requires Consistent(ExampleTerms(), c.ledger, Begin(), 108) && Unpaid(c.ledger)
    modifies c`rents, c`ledger
    ensures c.Valid() && c.Config() == ExampleTerms()
    ensures Consistent(ExampleTerms(), c.ledger, Begin(), 108)
    ensures PaymentApplied(old(c.ledger), c.ledger, Begin(), 108, MonthIndex(2004, 1), Deposit())
    ensures c.rents.Keys == old(c.rents.Keys)
    ensures forall y, m | y in c.rents && m in c.rents[y] ::
              var k := MonthIndex(y, m) - Begin();
              && (k <= 48 ==> Billed(c.rents[y][m], y, m, k))
              && (k > 48 ==> Billed(c.rents[y][m], y, m, k - 48))
              && c.rents[y][m].payment == if k == 48 then Some(Deposit()) else None
  {
    ghost var L := c.ledger;
    ghost var rents := c.rents;
    ApplyPayment(c, MonthIndex(2004, 1), Deposit(), Begin(), 108);
    assert c.Config() == ExampleTerms();
    PaymentKeepsConsistent(ExampleTerms(), L, c.ledger, Begin(), 108, MonthIndex(2004, 1), Deposit());
    forall y, m | y in c.rents && m in c.rents[y]
      ensures var k := MonthIndex(y, m) - Begin();
              && (k <= 48 ==> Billed(c.rents[y][m], y, m, k))
              && (k > 48 ==> Billed(c.rents[y][m], y, m, k - 48))
              && c.rents[y][m].payment == if k == 48 then Some(Deposit()) else None
    {
      PaidRecord(c.rents, L, c.ledger, y, m);
    }
    SameYears(rents, L, c.rents, c.ledger);
  }

  /** Extends the term by a year, through December 2009, then shortens it
      back to December 2008. `extended` is the index as it stands in
      between: ten whole years. The ledger ends as it began. */
  method ChangeDuration(c: Contract) returns (extended: Index)
    requires c.Valid() && c.Config() == ExampleTerms()
    requires Consistent(ExampleTerms(), c.ledger, Begin(), 108)
    modifies c`rents, c`ledger
    ensures Covers(extended.Keys, 2000, 10) && |extended| == 10
    ensures forall y | y in extended :: Covers(extended[y].Keys, 1, 12) && |extended[y]| == 12
    ensures c.Valid() && c.ledger == old(c.ledger)
    ensures Covers(c.rents.Keys, 2000, 9) && |c.rents| == 9
    ensures forall y | y in c.rents :: Covers(c.rents[y].Keys, 1, 12) && |c.rents[y]| == 12
  {
    ghost var t := ExampleTerms();
    ghost var L := c.ledger;
    var first := Begin();
    ChangeTerm(c, first, MonthIndex(2009, 12), 108);
    assert Count(first, MonthIndex(2009, 12)) == 12 * 10;
    ghost var L1 := c.ledger;
    WholeYears(c.rents, c.ledger, 2000, 10);
    extended := c.rents;
    ChangeTerm(c, first, MonthIndex(2008, 12), 120);
    assert Count(first, MonthIndex(2008, 12)) == 12 * 9;
    TermRoundTrip(t, L, L1, c.ledger, first, 108, 12);
    WholeYears(c.rents, c.ledger, 2000, 9);
  }

  /** The three stages on one contract, in order: create the nine years of
      rents, book the deposit, then extend the term by a year and shorten it
      back. `extended` is the index at the longer term. The contract ends
      with nine whole years whose records are those left by the payment. */
  method Walkthrough() returns (c: Contract, extended: Index)
    ensures fresh(c) && c.Valid() && c.Config() == ExampleTerms()
    ensures Covers(extended.Keys, 2000, 10) && |extended| == 10
    ensures forall y | y in extended :: Covers(extended[y].Keys, 1, 12) && |extended[y]| == 12
    ensures Covers(c.rents.Keys, 2000, 9) && |c.rents| == 9
    ensures forall y | y in c.rents :: Covers(c.rents[y].Keys, 1, 12) && |c.rents[y]| == 12
    ensures forall y, m | y in c.rents && m in c.rents[y] ::
              var k := MonthIndex(y, m) - Begin();
              && (k <= 48 ==> Billed(c.rents[y][m], y, m, k))
              && (k > 48 ==> Billed(c.rents[y][m], y, m, k - 48))
              && c.rents[y][m].payment == if k == 48 then Some(Deposit()) else None
  {
    c := CreateRents();
    ghost var created := c.ledger;
    MakePayment(c);
    ghost var paid := c.ledger;
    extended := ChangeDuration(c);
    assert c.ledger == paid;
    forall y, m | y in c.rents && m in c.rents[y]
      ensures var k := MonthIndex(y, m) - Begin();
              && (k <= 48 ==> Billed(c.rents[y][m], y, m, k))
              && (k > 48 ==> Billed(c.rents[y][m], y, m, k - 48))
              && c.rents[y][m].payment == if k == 48 then Some(Deposit()) else None
    {
      PaidRecord(c.rents, created, c.ledger, y, m);
    }
  }
}
