/** The ledger as a chronological chain of records, keyed by month index,
    and what the engine's operations make of it. */
module Chain {
  import opened Months
  import opened Rents

  /** The record before month `i` in a ledger starting at `first`. */
  function Prev(L: map<int, Rent>, first: int, i: int): Option<Rent>
  {
    if i != first && i - 1 in L then Some(L[i - 1]) else None
  }

  /** The payment booked on month `i`, if any. */
  function PaymentAt(L: map<int, Rent>, i: int): Option<Payment>
  {
    if i in L then L[i].payment else None
  }

  /** `L` covers the `n` months from `first` and every record in it is the
      one the engine creates from its predecessor under the terms `t`,
      apart from the payment booked on it. */
  ghost predicate Consistent(t: Terms, L: map<int, Rent>, first: int, n: nat)
  {
    && Covers(L.Keys, first, n)
    && forall i {:trigger Follows(t, L, first, i)} | i in L :: Follows(t, L, first, i)
  }

  /** Month `i` of `L` holds the record the engine creates from its
      predecessor under the terms `t`, apart from its payment. */
  ghost predicate Follows(t: Terms, L: map<int, Rent>, first: int, i: int)
    requires i in L
  {
    L[i] == NewRent(t, i, Prev(L, first, i)).(payment := L[i].payment)
  }

  /** No month of `L` has a payment booked. */
  ghost predicate Unpaid(L: map<int, Rent>)
  {
    forall i | i in L :: L[i].payment == None
  }

  /** Filing, right after a consistent ledger, the record the engine
      creates from the ledger's last record extends it by one month. */
  lemma ConsistentAppend(t: Terms, L: map<int, Rent>, first: int, n: nat, r: Rent)
    requires Consistent(t, L, first, n)
    requires r == NewRent(t, first + n, Prev(L, first, first + n)).(payment := r.payment)
    ensures Consistent(t, L[first + n := r], first, n + 1)
  {
    var L' := L[first + n := r];
    forall i | i in L' ensures Follows(t, L', first, i) {
      if i != first + n {
        assert Follows(t, L, first, i);
        assert Prev(L', first, i) == Prev(L, first, i);
      }
    }
  }

  /** One step of building a ledger: the month after an unpaid,
      consistent ledger gets the record created from the ledger's last
      record, and the ledger stays unpaid and consistent, one month longer. */
  lemma BuildStep(t: Terms, L: map<int, Rent>, first: int, n: nat, previous: Option<Rent>)
    requires Consistent(t, L, first, n) && Unpaid(L)
    requires previous == Prev(L, first, first + n)
    ensures Consistent(t, L[first + n := NewRent(t, first + n, previous)], first, n + 1)
    ensures Unpaid(L[first + n := NewRent(t, first + n, previous)])
    ensures Prev(L[first + n := NewRent(t, first + n, previous)], first, first + n + 1) == Some(NewRent(t, first + n, previous))
  {
    ConsistentAppend(t, L, first, n, NewRent(t, first + n, previous));
  }

  /** In an unpaid ledger, the k-th month owes k periods before it is
      billed and k + 1 periods once it is billed. */
  lemma ClosedForm(t: Terms, L: map<int, Rent>, first: int, n: nat, k: nat)
    requires Consistent(t, L, first, n) && Unpaid(L)
    requires k < n
    ensures L[first + k].balance == (k as real) * PeriodCharge(t)
    ensures L[first + k].totalAmount == ((k + 1) as real) * PeriodCharge(t)
  {
    ClosedSum(t, L, first, n, k);
    TimesProduct(k, PeriodCharge(t));
    TimesProduct(k + 1, PeriodCharge(t));
  }

  /** `c` added up `k` times. */
  ghost function Times(k: nat, c: real): real
  {
    if k == 0 then 0.0 else Times(k - 1, c) + c
  }

  /** Adding `c` up `k` times is multiplying it by `k`. */
  lemma {:induction false} TimesProduct(k: nat, c: real)
    ensures Times(k, c) == (k as real) * c
  {
    if k > 0 {
      TimesProduct(k - 1, c);
      assert (k as real) * c == ((k - 1) as real) * c + c;
    }
  }

  /** ClosedForm, with the multiples written as repeated sums. */
  lemma {:induction false} ClosedSum(t: Terms, L: map<int, Rent>, first: int, n: nat, k: nat)
    requires Consistent(t, L, first, n) && Unpaid(L)
    requires k < n
    ensures L[first + k].balance == Times(k, PeriodCharge(t))
    ensures L[first + k].totalAmount == Times(k + 1, PeriodCharge(t))
  {
    var i := first + k;
    assert i in L;
    assert Follows(t, L, first, i);
    if k > 0 {
      assert i - 1 in L;
      ClosedSum(t, L, first, n, k - 1);
      assert L[i - 1].payment == None;
    }
  }



  /** `L'` is `L` after a payment walk from month `start`: the payment is
      booked on `start`, months before it are untouched and every later
      month is re-based on what its predecessor carries. A walk from a
      month the ledger does not hold changes nothing. */
  ghost predicate PaymentApplied(L: map<int, Rent>, L': map<int, Rent>, first: int, n: nat, start: int, p: Payment)
  {
    && Covers(L.Keys, first, n)
    && L'.Keys == L.Keys
    && (start !in L ==> L' == L)
    && (start in L ==>
          forall i {:trigger Walked(L, L', start, p, i)} | i in L :: Walked(L, L', start, p, i))
  }

  /** Month `i` of `L'` is what the payment walk from `start` makes of
      month `i` of `L`. */
  ghost predicate Walked(L: map<int, Rent>, L': map<int, Rent>, start: int, p: Payment, i: int)
    requires i in L && L'.Keys == L.Keys
    requires i > start ==> i - 1 in L
  {
    L'[i] == if i < start then L[i]
             else if i == start then Rebase(L[i].(payment := Some(p)), L[i].balance)
             else Rebase(L[i], Carry(L'[i - 1]))
  }

  /** Part way through the walk from `start`: the months before `next`
      are walked, the others are as they were. */
  ghost predicate WalkedBefore(L: map<int, Rent>, L': map<int, Rent>, first: int, n: nat,
                               start: int, p: Payment, next: int)
  {
    && Covers(L.Keys, first, n)
    && L'.Keys == L.Keys
    && start in L
    && (forall j {:trigger Walked(L, L', start, p, j)} | j in L && j < next :: Walked(L, L', start, p, j))
    && (forall j {:trigger L'[j]} | j in L && j >= next :: L'[j] == L[j])
  }

  /** The walk's first step books the payment on `start`. */
  lemma WalkFirst(L: map<int, Rent>, first: int, n: nat, start: int, p: Payment)
    requires Covers(L.Keys, first, n) && start in L
    ensures WalkedBefore(L, L[start := Rebase(L[start].(payment := Some(p)), L[start].balance)], first, n, start, p, start + 1)
  {
    var L' := L[start := Rebase(L[start].(payment := Some(p)), L[start].balance)];
    forall j | j in L && j < start + 1 ensures Walked(L, L', start, p, j) {
    }
  }

  /** Each further step re-bases month `next` on its walked predecessor. */
  lemma WalkNext(L: map<int, Rent>, L': map<int, Rent>, first: int, n: nat, start: int, p: Payment, next: int)
    requires WalkedBefore(L, L', first, n, start, p, next)
    requires next > start
    ensures next in L ==> next - 1 in L' && next < first + n
    ensures next in L ==>
              WalkedBefore(L, L'[next := Rebase(L'[next], Carry(L'[next - 1]))], first, n, start, p, next + 1)
    ensures next !in L ==> WalkedBefore(L, L', first, n, start, p, next + 1)
  {
    if next in L {
      var L'' := L'[next := Rebase(L'[next], Carry(L'[next - 1]))];
      forall j | j in L && j < next + 1 ensures Walked(L, L'', start, p, j) {
        if j < next {
          assert Walked(L, L', start, p, j);
        }
      }
    }
  }

  /** The walk is over at the first missing month after `start`. */
  lemma WalkDone(L: map<int, Rent>, L': map<int, Rent>, first: int, n: nat, start: int, p: Payment, next: int)
    requires WalkedBefore(L, L', first, n, start, p, next)
    requires start < next && next - 1 !in L
    ensures PaymentApplied(L, L', first, n, start, p)
  {
    forall j | j in L ensures Walked(L, L', start, p, j) {
      assert j < next;
    }
  }

  /** A payment walk keeps every record's charge; records up to the paid
      month keep their balance and total, and every later record's balance
      and total drop by the payment (less whatever was booked on the paid
      month before). */
  lemma {:induction false} PaymentShift(t: Terms, L: map<int, Rent>, L': map<int, Rent>, first: int, n: nat,
                                        start: int, p: Payment, i: int)
    requires Consistent(t, L, first, n)
    requires PaymentApplied(L, L', first, n, start, p)
    requires start in L && i in L
    ensures L'[i].vatAmount == L[i].vatAmount && Charge(L'[i]) == Charge(L[i])
    ensures i <= start ==> L'[i].balance == L[i].balance && L'[i].totalAmount == L[i].totalAmount
    ensures i > start ==> L'[i].balance == L[i].balance - (p.amount - Paid(L[start]))
    ensures i > start ==> L'[i].totalAmount == L[i].totalAmount - (p.amount - Paid(L[start]))
    decreases i - first
  {
    assert first <= start;
    assert Follows(t, L, first, i);
    assert Walked(L, L', start, p, i);
    if i > start {
      assert i - 1 in L;
      PaymentShift(t, L, L', first, n, start, p, i - 1);
      assert Walked(L, L', start, p, i - 1);
    }
  }

  /** One month of a walked ledger is still the record the engine
      creates from its predecessor. */
  lemma PaymentFollows(t: Terms, L: map<int, Rent>, L': map<int, Rent>, first: int, n: nat,
                       start: int, p: Payment, i: int)
    requires Consistent(t, L, first, n)
    requires PaymentApplied(L, L', first, n, start, p)
    requires start in L && i in L'
    ensures Follows(t, L', first, i)
    ensures L'[i].payment == if i == start then Some(p) else L[i].payment
  {
    assert Follows(t, L, first, i) && Walked(L, L', start, p, i);
    var r := NewRent(t, i, Prev(L', first, i));
    if i != first {
      assert i - 1 in L;
      assert Walked(L, L', start, p, i - 1);
      PaymentShift(t, L, L', first, n, start, p, i - 1);
    }
    if i < start {
      assert Prev(L', first, i) == Prev(L, first, i);
    } else if i == start {
      assert Prev(L', first, i) == Prev(L, first, i);
      assert L'[i] == r.(payment := Some(p));
    } else {
      assert L'[i] == r.(payment := L[i].payment);
    }
  }

  /** A payment walk over a consistent ledger leaves it consistent: only
      the paid month's payment differs from before. */
  lemma PaymentKeepsConsistent(t: Terms, L: map<int, Rent>, L': map<int, Rent>, first: int, n: nat,
                               start: int, p: Payment)
    requires Consistent(t, L, first, n)
    requires PaymentApplied(L, L', first, n, start, p)
    ensures Consistent(t, L', first, n)
    ensures forall i | i in L' :: L'[i].payment == if i == start && start in L then Some(p) else L[i].payment
  {
    if start in L {
      forall i | i in L'
        ensures Follows(t, L', first, i)
        ensures L'[i].payment == if i == start then Some(p) else L[i].payment
      {
        PaymentFollows(t, L, L', first, n, start, p, i);
      }
    }
  }

  /** `L'` is the outcome of a term walk from `first` with last month
      `last`: it covers exactly `first..last`, every record is re-derived
      from the terms `t`, and each month keeps the payment it had in `L`. */
  ghost predicate TermUpdated(t: Terms, L: map<int, Rent>, L': map<int, Rent>, first: int, last: int)
  {
    && Consistent(t, L', first, Count(first, last))
    && forall i | i in L' :: L'[i].payment == PaymentAt(L, i)
  }

  /** Month `j` of `L'` is re-derived from the terms and keeps the payment it had in `L`. */
  ghost predicate Rederived(t: Terms, L: map<int, Rent>, L': map<int, Rent>, first: int, j: int)
    requires j in L'
  {
    Follows(t, L', first, j) && L'[j].payment == PaymentAt(L, j)
  }

  /** Month `j` is in `L'` exactly when it is within the new term and
      already walked, or not yet walked and in `L`. */
  ghost predicate Kept(L: map<int, Rent>, L': map<int, Rent>, first: int, last: int, next: int, j: int)
  {
    j in L' <==> (first <= j < next && j <= last) || (j in L && j >= next)
  }

  /** Part way through a term walk over `L` (which covers `n` months from
      `first`) towards the last month `last`: the months before `next` are
      re-derived up to `last` and removed after it, the others are as they were. */
  ghost predicate TermBefore(t: Terms, L: map<int, Rent>, L': map<int, Rent>, first: int, n: nat,
                             last: int, next: int)
  {
    && Covers(L.Keys, first, n)
    && first <= next
    && (forall j {:trigger Kept(L, L', first, last, next, j)} :: Kept(L, L', first, last, next, j))
    && (forall j {:trigger Rederived(t, L, L', first, j)} | j in L' && j < next :: Rederived(t, L, L', first, j))
    && (forall j {:trigger L[j]} | j in L && j >= next :: j in L' && L'[j] == L[j])
  }

  /** A term walk starts from the ledger as it is. */
  lemma TermStart(t: Terms, L: map<int, Rent>, first: int, n: nat, last: int)
    requires Covers(L.Keys, first, n)
    ensures TermBefore(t, L, L, first, n, last, first)
  {
    forall j ensures Kept(L, L, first, last, first, j) {
    }
  }

  /** Within the new term, the walk re-derives month `next` from its predecessor. */
  lemma TermCreate(t: Terms, L: map<int, Rent>, L': map<int, Rent>, first: int, n: nat,
                   last: int, next: int, previous: Option<Rent>)
    requires TermBefore(t, L, L', first, n, last, next)
    requires next <= last && previous == Prev(L', first, next)
    ensures PaymentAt(L', next) == PaymentAt(L, next)
    ensures var r := NewRent(t, next, previous).(payment := PaymentAt(L', next));
            TermBefore(t, L, L'[next := r], first, n, last, next + 1) &&
            Prev(L'[next := r], first, next + 1) == Some(r)
  {
    assert Kept(L, L', first, last, next, next);
    var r := NewRent(t, next, previous).(payment := PaymentAt(L', next));
    var L'' := L'[next := r];
    var after := next + 1;
    forall j ensures Kept(L, L'', first, last, after, j) {
      assert Kept(L, L', first, last, next, j);
    }
    forall j | j in L'' && j < next + 1 ensures Rederived(t, L, L'', first, j) {
      assert Prev(L'', first, j) == Prev(L', first, j);
      if j < next {
        assert Rederived(t, L, L', first, j);
      }
    }
  }

  /** Past the new term, the walk removes month `next` when it is there. */
  lemma TermPast(t: Terms, L: map<int, Rent>, L': map<int, Rent>, first: int, n: nat,
                 last: int, next: int)
    requires TermBefore(t, L, L', first, n, last, next)
    requires next > last
    ensures next in L' ==> next in L && next < first + n && TermBefore(t, L, L' - {next}, first, n, last, next + 1)
    ensures next !in L' ==> next !in L && TermBefore(t, L, L', first, n, last, next + 1)
  {
    assert Kept(L, L', first, last, next, next);
    var L'' := L' - {next};
    var after := next + 1;
    forall j ensures Kept(L, L'', first, last, after, j) {
      assert Kept(L, L', first, last, next, j);
    }
    forall j | j in L'' && j < next + 1 ensures Rederived(t, L, L'', first, j) {
      assert Kept(L, L', first, last, next, j);
      assert Rederived(t, L, L', first, j);
      assert Prev(L'', first, j) == Prev(L', first, j);
    }
    assert next !in L' ==> L'' == L';
  }

  /** The walk is over at the first missing month past the new term. */
  lemma TermDone(t: Terms, L: map<int, Rent>, L': map<int, Rent>, first: int, n: nat,
                 last: int, next: int)
    requires TermBefore(t, L, L', first, n, last, next)
    requires first <= next - 1 && last < next - 1 && next - 1 !in L
    ensures TermUpdated(t, L, L', first, last)
  {
    forall j ensures j in L' <==> first <= j < first + Count(first, last) {
      assert Kept(L, L', first, last, next, j);
    }
    forall j | j in L' ensures Follows(t, L', first, j) && L'[j].payment == PaymentAt(L, j) {
      assert Kept(L, L', first, last, next, j);
      assert Rederived(t, L, L', first, j);
    }
  }

  /** A ledger is determined by its span, its terms and its payments. */
  lemma {:induction false} ConsistentUnique(t: Terms, A: map<int, Rent>, B: map<int, Rent>, first: int, n: nat, i: int)
    requires Consistent(t, A, first, n) && Consistent(t, B, first, n)
    requires forall j | j in A :: A[j].payment == B[j].payment
    requires i in A
    ensures A[i] == B[i]
    decreases i - first
  {
    assert Follows(t, A, first, i) && Follows(t, B, first, i);
    if i != first {
      ConsistentUnique(t, A, B, first, n, i - 1);
    }
  }

  /** Two consistent ledgers over the same span with the same payments are equal. */
  lemma ConsistentEqual(t: Terms, A: map<int, Rent>, B: map<int, Rent>, first: int, n: nat)
    requires Consistent(t, A, first, n) && Consistent(t, B, first, n)
    requires forall j | j in A :: A[j].payment == B[j].payment
    ensures A == B
  {
    assert A.Keys == B.Keys by {
      assert forall i :: i in A.Keys <==> i in B.Keys;
    }
    forall i | i in A ensures A[i] == B[i] {
      ConsistentUnique(t, A, B, first, n, i);
    }
  }

  /** Re-running the term walk with the end already in effect changes
      nothing on a consistent ledger. */
  lemma TermUpdateIdempotent(t: Terms, L: map<int, Rent>, L': map<int, Rent>, first: int, n: nat)
    requires Consistent(t, L, first, n)
    requires TermUpdated(t, L, L', first, first + n - 1)
    ensures L' == L
  {
    ConsistentEqual(t, L', L, first, n);
  }

  /** Moving the end later and then back to where it was restores the
      ledger exactly: the added months are removed and nothing else differs. */
  lemma TermRoundTrip(t: Terms, L: map<int, Rent>, L1: map<int, Rent>, L2: map<int, Rent>,
                      first: int, n: nat, extra: nat)
    requires Consistent(t, L, first, n)
    requires TermUpdated(t, L, L1, first, first + n + extra - 1)
    requires TermUpdated(t, L1, L2, first, first + n - 1)
    ensures Covers(L1.Keys, first, n + extra)
    ensures forall i | i in L1 && i !in L :: L1[i].payment == None
    ensures L2 == L
  {
    ConsistentEqual(t, L2, L, first, n);
  }
}
