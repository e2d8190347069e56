/** Rent records and the arithmetic that links them.
    One record is one month's invoice of a rental contract. Amounts are
    exact reals: the VAT ratio (0.2 in the exercised contract) is a
    rational number and every sum the ledger forms is exact. */
module Rents {
  import opened Months

  datatype Option<T> = None | Some(value: T)

  /** A rented property: its base price and, optionally, its expenses. */
  datatype Property = Property(price: real, expense: Option<real>)

  /** The base amounts of one billing period. */
  datatype Price = Price(amount: real, expense: real)

  /** A payment: the sum paid and its bookkeeping details. */
  datatype Payment = Payment(
    amount: real,
    paymentType: string,
    paymentReference: string,
    paymentDate: string,
    description: string)

  /** The contract configuration the engine reads. */
  datatype Terms = Terms(discount: real, isVat: bool, vatRatio: real, properties: seq<Property>)

  /** One month's invoice. `balance` is what was still owed before the
      month, `totalAmount` what is owed once the month is billed. */
  datatype Rent = Rent(
    year: int,
    month: int,
    discount: real,
    isVat: bool,
    vatRatio: real,
    amount: real,
    expense: real,
    vatAmount: real,
    balance: real,
    totalAmount: real,
    payment: Option<Payment>)

  /** An absent expense counts as nothing. */
  function ExpenseOf(p: Property): real
  {
    match p.expense
    case Some(e) => e
    case None => 0.0
  }

  /** The base amounts of a period: the properties' prices and expenses,
      each summed. */
  function ComputeRent(properties: seq<Property>): (p: Price)
    ensures properties == [] ==> p == Price(0.0, 0.0)
  {
    if properties == [] then Price(0.0, 0.0)
    else
      var rest := ComputeRent(properties[1..]);
      Price(properties[0].price + rest.amount, ExpenseOf(properties[0]) + rest.expense)
  }

  /** A single property's period amounts are its price and its expense,
      an absent expense counting as nothing. */
  lemma ComputeRentOne(p: Property)
    ensures ComputeRent([p]) == Price(p.price, ExpenseOf(p))
  {
  }

  /** Period amounts of two property lists put together are the sums of
      their period amounts. */
  lemma {:induction false} ComputeRentAdditive(a: seq<Property>, b: seq<Property>)
    ensures ComputeRent(a + b).amount == ComputeRent(a).amount + ComputeRent(b).amount
    ensures ComputeRent(a + b).expense == ComputeRent(a).expense + ComputeRent(b).expense
  {
    if a != [] {
      assert (a + b)[1..] == a[1..] + b;
      ComputeRentAdditive(a[1..], b);
    } else {
      assert a + b == b;
    }
  }

  /** The VAT of a period: a share of its amount and expenses, or nothing
      when the contract is not subject to VAT. */
  function VatAmount(t: Terms): real
  {
    var p := ComputeRent(t.properties);
    if t.isVat then (p.amount + p.expense) * t.vatRatio else 0.0
  }

  /** What one month adds to the debt under the terms `t`. */
  function PeriodCharge(t: Terms): real
  {
    ComputeRent(t.properties).amount + ComputeRent(t.properties).expense + VatAmount(t)
  }

  /** What a record's month adds to the debt. */
  function Charge(r: Rent): real
  {
    r.amount + r.expense + r.vatAmount
  }

  /** The sum paid in a record's month. */
  function Paid(r: Rent): real
  {
    match r.payment
    case Some(p) => p.amount
    case None => 0.0
  }

  /** What a record passes on to the next month: its total less what was
      paid in its month. */
  function Carry(r: Rent): real
  {
    r.totalAmount - Paid(r)
  }

  /** The record the engine creates for month `i`, following `previous`
      (None for the first month). */
  function NewRent(t: Terms, i: int, previous: Option<Rent>): (r: Rent)
    ensures MonthIndex(r.year, r.month) == i && 1 <= r.month <= 12
    ensures r.discount == t.discount && r.isVat == t.isVat && r.vatRatio == t.vatRatio
    ensures r.amount == ComputeRent(t.properties).amount && r.expense == ComputeRent(t.properties).expense
    ensures r.vatAmount == VatAmount(t) && Charge(r) == PeriodCharge(t)
    ensures previous.None? ==> r.balance == 0.0
    ensures previous.Some? ==> r.balance == previous.value.totalAmount - Paid(previous.value)
    ensures r.totalAmount == r.balance + Charge(r)
    ensures r.payment == None
  {
    var price := ComputeRent(t.properties);
    var vat := VatAmount(t);
    var balance := if previous.Some? then Carry(previous.value) else 0.0;
    Rent(YearOf(i), MonthOf(i), t.discount, t.isVat, t.vatRatio,
         price.amount, price.expense, vat, balance, balance + price.amount + price.expense + vat, None)
  }

  /** The record `r` re-based on a new opening balance `b`. */
  function Rebase(r: Rent, b: real): (r': Rent)
    ensures r'.totalAmount == b + Charge(r) && r'.balance == b
    ensures r'.year == r.year && r'.month == r.month && r'.payment == r.payment
    ensures Charge(r') == Charge(r) && r'.vatAmount == r.vatAmount
  {
    r.(balance := b, totalAmount := b + Charge(r))
  }
}
