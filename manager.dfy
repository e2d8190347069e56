/** The rent manager: the operations that build, annotate and trim a
    contract's rent ledger in place, one month per call. */
module RentManager {
  import opened Months
  import opened Rents
  import opened Chain
  import opened LedgerIndex

  /** A rental contract: its configuration and its `rents` index
      (year -> month -> record). `ledger` is the same ledger keyed by
      month index. */
  class Contract {
    var discount: real
    var isVat: bool
    var vatRatio: real
    var properties: seq<Property>
    var rents: Index
    ghost var ledger: map<int, Rent>

    ghost predicate Valid()
      reads this
    {
      Represents(rents, ledger)
    }

    /** The configuration the engine reads when it derives a record. */
    function Config(): Terms
      reads this`discount, this`isVat, this`vatRatio, this`properties
    {
      Terms(discount, isVat, vatRatio, properties)
    }

    /** A contract with no rents yet. */
    constructor (discount: real, isVat: bool, vatRatio: real, properties: seq<Property>)
      ensures Valid()
      ensures Config() == Terms(discount, isVat, vatRatio, properties)
      ensures rents == map[] && ledger == map[]
    {
      this.discount := discount;
      this.isVat := isVat;
      this.vatRatio := vatRatio;
      this.properties := properties;
      rents := map[];
      ledger := map[];
      EmptyRepresents();
    }

    /** Creates the record of month `date` after `previous` and files it,
        unless `date` lies after the term's last month `end`. */
    method CreateRent(date: int, end: int, previous: Option<Rent>) returns (r: Option<Rent>)
      requires Valid()
      modifies this`rents, this`ledger
      ensures Valid()
      ensures date > end ==> r == None && rents == old(rents) && ledger == old(ledger)
      ensures date <= end ==> r == Some(NewRent(Config(), date, previous))
      ensures date <= end ==> rents == Put(old(rents), date, r.value) && ledger == old(ledger)[date := r.value]
    {
      if date > end {
        return None;
      }
      var rent := NewRent(Config(), date, previous);
      PutRepresents(rents, ledger, date, rent);
      rents := Put(rents, date, rent);
      ledger := ledger[date := rent];
      r := Some(rent);
    }

    /** One step of the payment walk. The first step (no `previous`)
        books `p` on month `date` and keeps that month's balance; every
        later step re-bases month `date` on what `previous` carries. A
        month the ledger does not hold ends the walk. */
    method UpdateRentPayment(date: int, previous: Option<Rent>, p: Payment) returns (r: Option<Rent>)
      requires Valid()
      modifies this`rents, this`ledger
      ensures Valid()
      ensures date !in old(ledger) ==> r == None && rents == old(rents) && ledger == old(ledger)
      ensures date in old(ledger) && previous.None? ==>
                r == Some(Rebase(old(ledger)[date].(payment := Some(p)), old(ledger)[date].balance))
      ensures date in old(ledger) && previous.Some? ==>
                r == Some(Rebase(old(ledger)[date], Carry(previous.value)))
      ensures date in old(ledger) ==>
                rents == Put(old(rents), date, r.value) && ledger == old(ledger)[date := r.value]
    {
      LookupAgrees(rents, ledger, date);
      var current := Lookup(rents, date);
      if current.None? {
        return None;
      }
      assert date in ledger && current.value == ledger[date];
      var rent := current.value;
      if previous.None? {
        rent := Rebase(rent.(payment := Some(p)), rent.balance);
      } else {
        rent := Rebase(rent, Carry(previous.value));
      }
      PutRepresents(rents, ledger, date, rent);
      rents := Put(rents, date, rent);
      ledger := ledger[date := rent];
      r := Some(rent);
    }

    /** One step of the term walk against the last month `newEnd`. A
        month up to `newEnd` is derived afresh from the configuration and
        `previous` (created if missing, its payment kept if present); a
        month after `newEnd` is removed. Past `newEnd`, a month the ledger
        does not hold ends the walk. */
    method UpdateRentAmount(date: int, newEnd: int, previous: Option<Rent>) returns (r: Option<Rent>)
      requires Valid()
      modifies this`rents, this`ledger
      ensures Valid()
      ensures date <= newEnd ==>
                r == Some(NewRent(Config(), date, previous).(payment := PaymentAt(old(ledger), date)))
      ensures date <= newEnd ==>
                rents == Put(old(rents), date, r.value) && ledger == old(ledger)[date := r.value]
      ensures date > newEnd && date in old(ledger) ==>
                r == Some(old(ledger)[date]) && rents == Delete(old(rents), date) && ledger == old(ledger) - {date}
      ensures date > newEnd && date !in old(ledger) ==>
                r == None && rents == old(rents) && ledger == old(ledger)
    {
      LookupAgrees(rents, ledger, date);
      var current := Lookup(rents, date);
      if date <= newEnd {
        var payment := if current.Some? then current.value.payment else None;
        var rent := NewRent(Config(), date, previous).(payment := payment);
        PutRepresents(rents, ledger, date, rent);
        rents := Put(rents, date, rent);
        ledger := ledger[date := rent];
        r := Some(rent);
      } else if current.Some? {
        DeleteRepresents(rents, ledger, date);
        rents := Delete(rents, date);
        ledger := ledger - {date};
        r := current;
      } else {
        r := None;
      }
    }
  }
}
