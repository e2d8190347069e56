/** The contract's `rents` index: year -> month -> record, as the engine
    stores it, and how it mirrors the ledger keyed by month index. */
module LedgerIndex {
  import opened Months
  import opened Rents

  type Index = map<int, map<int, Rent>>

  /** The record filed under month `i`, if any. */
  function Lookup(rents: Index, i: int): (r: Option<Rent>)
    ensures r.Some? <==> YearOf(i) in rents && MonthOf(i) in rents[YearOf(i)]
  {
    var y, m := YearOf(i), MonthOf(i);
    if y in rents && m in rents[y] then Some(rents[y][m]) else None
  }

  /** Files `r` under month `i`, creating the year's sub-index if absent. */
  function Put(rents: Index, i: int, r: Rent): (rents': Index)
    ensures Lookup(rents', i) == Some(r)
  {
    var y := YearOf(i);
    var row := if y in rents then rents[y] else map[];
    rents[y := row[MonthOf(i) := r]]
  }

  /** Removes month `i`, and its year too when no month of it is left. */
  function Delete(rents: Index, i: int): (rents': Index)
    ensures Lookup(rents', i) == None
  {
    var y := YearOf(i);
    if y !in rents then rents
    else
      var row := rents[y] - {MonthOf(i)};
      if row.Keys == {} then rents - {y} else rents[y := row]
  }

  /** Filing month `i` leaves every other month's lookup as it was. */
  lemma PutOthers(rents: Index, i: int, r: Rent, j: int)
    requires j != i
    ensures Lookup(Put(rents, i, r), j) == Lookup(rents, j)
  {
    if YearOf(j) == YearOf(i) {
      assert MonthOf(j) != MonthOf(i);
    }
  }

  /** Removing month `i` leaves every other month's lookup as it was. */
  lemma DeleteOthers(rents: Index, i: int, j: int)
    requires j != i
    ensures Lookup(Delete(rents, i), j) == Lookup(rents, j)
  {
    var y := YearOf(i);
    if y in rents && YearOf(j) == y {
      var row := rents[y] - {MonthOf(i)};
      assert MonthOf(j) != MonthOf(i);
      if row.Keys == {} {
        assert MonthOf(j) !in row;
        assert MonthOf(j) !in rents[y];
      }
    }
  }

  /** Every year present holds at least one month, every month key is a
      calendar month, and the months filed are exactly the keys of `L`,
      with the same records. */
  ghost predicate Represents(rents: Index, L: map<int, Rent>)
  {
    && (forall y {:trigger YearKept(rents, y)} | y in rents :: YearKept(rents, y))
    && (forall y, m {:trigger MonthKept(rents, L, y, m)} | y in rents && m in rents[y] :: MonthKept(rents, L, y, m))
    && (forall i {:trigger Mirrored(rents, L, i)} | i in L :: Mirrored(rents, L, i))
  }

  /** Year `y` of the index holds at least one month. */
  ghost predicate YearKept(rents: Index, y: int)
    requires y in rents
  {
    rents[y] != map[]
  }

  /** Month `m` of year `y` of the index is a calendar month of the ledger. */
  ghost predicate MonthKept(rents: Index, L: map<int, Rent>, y: int, m: int)
    requires y in rents && m in rents[y]
  {
    1 <= m <= 12 && MonthIndex(y, m) in L
  }

  /** Month `i` of the ledger is filed in the index with the same record. */
  ghost predicate Mirrored(rents: Index, L: map<int, Rent>, i: int)
    requires i in L
  {
    Lookup(rents, i) == Some(L[i])
  }

  /** Through a mirror, looking a month up in the index is looking it up in the ledger. */
  lemma LookupAgrees(rents: Index, L: map<int, Rent>, i: int)
    requires Represents(rents, L)
    ensures Lookup(rents, i) == if i in L then Some(L[i]) else None
  {
    if i in L {
      assert Mirrored(rents, L, i);
    }
    if Lookup(rents, i).Some? {
      assert MonthKept(rents, L, YearOf(i), MonthOf(i));
    }
  }

  /** A filed record is the ledger's record of its month. */
  lemma FiledRecord(rents: Index, L: map<int, Rent>, y: int, m: int)
    requires Represents(rents, L)
    requires y in rents && m in rents[y]
    ensures 1 <= m <= 12 && MonthIndex(y, m) in L && rents[y][m] == L[MonthIndex(y, m)]
  {
    assert MonthKept(rents, L, y, m);
    FieldsRoundTrip(y, m);
    LookupAgrees(rents, L, MonthIndex(y, m));
  }

  /** The empty index mirrors the empty ledger. */
  lemma EmptyRepresents()
    ensures Represents(map[], map[])
  {
  }

  /** Filing a record keeps the index a mirror of the ledger with that record. */
  lemma PutRepresents(rents: Index, L: map<int, Rent>, i: int, r: Rent)
    requires Represents(rents, L)
    ensures Represents(Put(rents, i, r), L[i := r])
  {
    var rents', L' := Put(rents, i, r), L[i := r];
    forall y | y in rents' ensures YearKept(rents', y) {
      if y == YearOf(i) {
        assert MonthOf(i) in rents'[y];
      } else {
        assert YearKept(rents, y);
      }
    }
    forall j | j in L' ensures Mirrored(rents', L', j) {
      if j != i {
        PutOthers(rents, i, r, j);
        assert Mirrored(rents, L, j);
      }
    }
    forall y, m | y in rents' && m in rents'[y] ensures MonthKept(rents', L', y, m) {
      if y != YearOf(i) || m != MonthOf(i) {
        assert y in rents && m in rents[y];
        assert MonthKept(rents, L, y, m);
      }
    }
  }

  /** Removing a month keeps the index a mirror of the ledger without it. */
  lemma DeleteRepresents(rents: Index, L: map<int, Rent>, i: int)
    requires Represents(rents, L)
    ensures Represents(Delete(rents, i), L - {i})
  {
    var rents', L' := Delete(rents, i), L - {i};
    forall j | j in L' ensures Mirrored(rents', L', j) {
      DeleteOthers(rents, i, j);
      assert Mirrored(rents, L, j);
    }
    forall y | y in rents' ensures YearKept(rents', y) {
      if y == YearOf(i) {
        assert (rents[y] - {MonthOf(i)}).Keys != {};
      } else {
        assert YearKept(rents, y);
      }
    }
    forall y, m | y in rents' && m in rents'[y] ensures MonthKept(rents', L', y, m) {
      DeletedMonth(rents, i, y, m);
      assert MonthKept(rents, L, y, m);
      FieldsRoundTrip(y, m);
    }
  }

  /** A month left after a removal was there before, and is not the removed one. */
  lemma DeletedMonth(rents: Index, i: int, y: int, m: int)
    requires y in Delete(rents, i) && m in Delete(rents, i)[y]
    ensures y in rents && m in rents[y]
    ensures y == YearOf(i) ==> m != MonthOf(i)
  {
    if y == YearOf(i) {
      assert Delete(rents, i)[y] == rents[y] - {MonthOf(i)};
    } else {
      assert Delete(rents, i)[y] == rents[y];
    }
  }

  /** A month filed in a non-empty year. */
  lemma SomeMonth(row: map<int, Rent>) returns (m: int)
    requires row != map[]
    ensures m in row
  {
    if forall k :: k !in row {
      NoMonths(row);
    }
    m :| m in row;
  }

  /** A year with no month filed is the empty row. */
  lemma NoMonths(row: map<int, Rent>)
    requires forall k :: k !in row
    ensures row == map[]
  {
    var none: map<int, Rent> := map[];
    assert forall k :: k in row.Keys <==> k in none.Keys;
    assert row.Keys == none.Keys;
  }

  /** A year present in the index is one of the years the ledger covers. */
  lemma YearInRange(rents: Index, L: map<int, Rent>, year: int, years: nat, y: int)
    requires Represents(rents, L) && Covers(L.Keys, MonthIndex(year, 1), 12 * years)
    requires y in rents
    ensures year <= y < year + years
  {
    assert YearKept(rents, y);
    var m := SomeMonth(rents[y]);
    assert MonthKept(rents, L, y, m);
  }

  /** A month of the ledger's span is filed in the index. */
  lemma MonthFiled(rents: Index, L: map<int, Rent>, first: int, count: nat, y: int, m: int)
    requires Represents(rents, L) && Covers(L.Keys, first, count)
    requires 1 <= m <= 12 && first <= MonthIndex(y, m) < first + count
    ensures y in rents && m in rents[y]
  {
    FieldsRoundTrip(y, m);
    LookupAgrees(rents, L, MonthIndex(y, m));
  }

  /** When the ledger covers `years` whole calendar years from January of
      `year`, the index has exactly those years as keys, and exactly the
      months 1..12 under each of them. */
  lemma WholeYears(rents: Index, L: map<int, Rent>, year: int, years: nat)
    requires Represents(rents, L)
    requires Covers(L.Keys, MonthIndex(year, 1), 12 * years)
    ensures Covers(rents.Keys, year, years) && |rents| == years
    ensures forall y | y in rents :: Covers(rents[y].Keys, 1, 12) && |rents[y]| == 12
  {
    var first := MonthIndex(year, 1);
    forall y | y in rents ensures year <= y < year + years {
      YearInRange(rents, L, year, years, y);
    }
    forall y | year <= y < year + years ensures y in rents {
      assert first <= MonthIndex(y, 1) < first + 12 * years;
      MonthFiled(rents, L, first, 12 * years, y, 1);
    }
    assert Covers(rents.Keys, year, years);
    CoversCount(rents.Keys, year, years);
    forall y | y in rents ensures Covers(rents[y].Keys, 1, 12) && |rents[y]| == 12 {
      WholeYear(rents, L, year, years, y);
    }
  }

  /** Under the same conditions, every calendar month of a year of the
      index is filed. */
  lemma MonthOfCoveredYear(rents: Index, L: map<int, Rent>, year: int, years: nat, y: int, m: int)
    requires Represents(rents, L)
    requires Covers(L.Keys, MonthIndex(year, 1), 12 * years)
    requires y in rents && 1 <= m <= 12
    ensures m in rents[y]
  {
    YearInRange(rents, L, year, years, y);
    assert MonthIndex(year, 1) <= MonthIndex(y, m) < MonthIndex(year, 1) + 12 * years;
    MonthFiled(rents, L, MonthIndex(year, 1), 12 * years, y, m);
  }

  /** Under the same conditions, a year of the index holds exactly the
      months 1..12. */
  lemma WholeYear(rents: Index, L: map<int, Rent>, year: int, years: nat, y: int)
    requires Represents(rents, L)
    requires Covers(L.Keys, MonthIndex(year, 1), 12 * years)
    requires y in rents
    ensures Covers(rents[y].Keys, 1, 12) && |rents[y]| == 12
  {
    forall m ensures m in rents[y] <==> 1 <= m <= 12 {
      if 1 <= m <= 12 {
        MonthOfCoveredYear(rents, L, year, years, y, m);
      }
      if m in rents[y] {
        assert MonthKept(rents, L, y, m);
      }
    }
    CoversCount(rents[y].Keys, 1, 12);
  }

  /** Two indexes of ledgers over the same months file the same years. */
  lemma SameYears(rents: Index, L: map<int, Rent>, rents': Index, L': map<int, Rent>)
    requires Represents(rents, L) && Represents(rents', L') && L.Keys == L'.Keys
    ensures rents.Keys == rents'.Keys
  {
    forall y | y in rents ensures y in rents' {
      assert YearKept(rents, y);
      var m := SomeMonth(rents[y]);
      FiledRecord(rents, L, y, m);
      LookupAgrees(rents', L', MonthIndex(y, m));
      FieldsRoundTrip(y, m);
    }
    forall y | y in rents' ensures y in rents {
      assert YearKept(rents', y);
      var m := SomeMonth(rents'[y]);
      FiledRecord(rents', L', y, m);
      LookupAgrees(rents, L, MonthIndex(y, m));
      FieldsRoundTrip(y, m);
    }
  }
}
