/**
 * The `service_labels` table: an autoincrement id, a unique label, rows
 * kept in id order. Each operation is one SQL statement; the table is a
 * value passed in and returned.
 */
module LabelStore {
  import opened Optional
  import opened Subsequence

  /** One row; the creation timestamp is not modelled. */
  datatype Row = Row(id: int, name: string)

  /** The rows in rowid order, and the id the next insertion receives. */
  datatype Table = Table(rows: seq<Row>, nextId: int)

  /** A freshly created table: AUTOINCREMENT hands out 1 first. */
  function EmptyTable(): Table {
    Table([], 1)
  }

  /** An earlier row has the smaller id, and two rows never share a label. */
  predicate Precedes(x: Row, y: Row) {
    x.id < y.id && x.name != y.name
  }

  predicate Ordered(rows: seq<Row>) {
    forall i, j :: 0 <= i < j < |rows| ==> Precedes(rows[i], rows[j])
  }

  /** What the schema and AUTOINCREMENT guarantee of every reachable table. */
  predicate Valid(t: Table) {
    && t.nextId >= 1
    && (forall i :: 0 <= i < |t.rows| ==> 1 <= t.rows[i].id < t.nextId)
    && Ordered(t.rows)
  }

  lemma EmptyTableValid()
    ensures Valid(EmptyTable()) && EmptyTable().rows == []
  {
  }

  /** Keeping a subsequence keeps the rows ordered. */
  lemma {:induction false} SubseqKeepsOrdered(a: seq<Row>, b: seq<Row>)
    requires IsSubseq(a, b) && Ordered(b)
    ensures Ordered(a)
    decreases |b|
  {
    if a != [] {
      assert b == [b[0]] + b[1..];
      if a[0] == b[0] && IsSubseq(a[1..], b[1..]) {
        SubseqKeepsOrdered(a[1..], b[1..]);
        IsSubseqMembers(a[1..], b[1..]);
        forall j | 1 <= j < |a|
          ensures Precedes(a[0], a[j])
        {
          assert a[j] in a[1..];
          var k :| 0 <= k < |b[1..]| && b[1..][k] == a[j];
          assert b[k + 1] == a[j];
        }
      } else {
        SubseqKeepsOrdered(a, b[1..]);
      }
    }
  }

  // ---------------------------------------------------------------------
  // Label order

  /**
   * SQLite's BINARY collation: code points compared one by one, a proper
   * prefix sorting first.
   */
  predicate Le(a: string, b: string)
    decreases |a|
  {
    a == [] || (b != [] && (a[0] < b[0] || (a[0] == b[0] && Le(a[1..], b[1..]))))
  }

  lemma {:induction false} LeTotal(a: string, b: string)
    ensures Le(a, b) || Le(b, a)
    decreases |a|
  {
    if a != [] && b != [] && a[0] == b[0] {
      LeTotal(a[1..], b[1..]);
    }
  }

  lemma {:induction false} LeTrans(a: string, b: string, c: string)
    requires Le(a, b) && Le(b, c)
    ensures Le(a, c)
    decreases |a|
  {
    if a != [] && a[0] == b[0] && b[0] == c[0] {
      LeTrans(a[1..], b[1..], c[1..]);
    }
  }

  lemma {:induction false} LeAntisym(a: string, b: string)
    requires Le(a, b) && Le(b, a)
    ensures a == b
    decreases |a|
  {
    if a != [] {
      LeAntisym(a[1..], b[1..]);
      assert a == [a[0]] + a[1..];
      assert b == [b[0]] + b[1..];
    }
  }

  predicate SortedByLabel(rows: seq<Row>) {
    forall i, j :: 0 <= i < j < |rows| ==> Le(rows[i].name, rows[j].name)
  }

  /** A row placed before a sorted run that it does not exceed keeps the run sorted. */
  lemma SortedCons(x: Row, rows: seq<Row>)
    requires SortedByLabel(rows)
    requires forall y :: y in rows ==> Le(x.name, y.name)
    ensures SortedByLabel([x] + rows)
  {
    var r := [x] + rows;
    forall i, j | 0 <= i < j < |r|
      ensures Le(r[i].name, r[j].name)
    {
      if i == 0 {
        assert r[j] == rows[j - 1];
      } else {
        assert r[i] == rows[i - 1] && r[j] == rows[j - 1];
      }
    }
  }

  /** One step of insertion sort. */
  function InsertByLabel(x: Row, rows: seq<Row>): (r: seq<Row>)
    requires SortedByLabel(rows)
    ensures SortedByLabel(r)
    ensures multiset(r) == multiset(rows) + multiset{x}
    decreases |rows|
  {
    if rows == [] then [x]
    else if Le(x.name, rows[0].name) then
      assert forall y :: y in rows ==> Le(x.name, y.name) by {
        forall y | y in rows
          ensures Le(x.name, y.name)
        {
          var k :| 0 <= k < |rows| && rows[k] == y;
          if k > 0 {
            LeTrans(x.name, rows[0].name, y.name);
          }
        }
      }
      SortedCons(x, rows);
      [x] + rows
    else
      var rest := InsertByLabel(x, rows[1..]);
      assert rows == [rows[0]] + rows[1..];
      assert forall y :: y in rest ==> Le(rows[0].name, y.name) by {
        forall y | y in rest
          ensures Le(rows[0].name, y.name)
        {
          assert y in multiset(rest);
          if y == x {
            LeTotal(x.name, rows[0].name);
          } else {
            assert y in rows[1..];
            var k :| 0 <= k < |rows[1..]| && rows[1..][k] == y;
            assert rows[k + 1] == y;
          }
        }
      }
      SortedCons(rows[0], rest);
      [rows[0]] + rest
  }

  /** Insertion sort on labels; the query's ORDER BY. */
  function SortByLabel(rows: seq<Row>): (r: seq<Row>)
    ensures SortedByLabel(r)
    ensures multiset(r) == multiset(rows)
    decreases |rows|
  {
    if rows == [] then []
    else
      assert rows == [rows[0]] + rows[1..];
      InsertByLabel(rows[0], SortByLabel(rows[1..]))
  }

  /** All rows, ordered by label. */
  function GetAllLabels(t: Table): (r: seq<Row>)
    ensures SortedByLabel(r)
    ensures multiset(r) == multiset(t.rows)
    ensures |r| == |t.rows|
  {
    var r := SortByLabel(t.rows);
    assert |r| == |multiset(r)| == |multiset(t.rows)| == |t.rows|;
    r
  }

  /** No two rows of a collection share a label unless they are the same row. */
  predicate LabelsIdentify(m: multiset<Row>) {
    forall x, y :: x in m && y in m && x.name == y.name ==> x == y
  }

  /** Two sorted arrangements of the same rows, labels identifying rows, start with the same row. */
  lemma SortedHeads(a: seq<Row>, b: seq<Row>)
    requires SortedByLabel(a) && SortedByLabel(b) && a != [] && b != []
    requires multiset(a) == multiset(b) && LabelsIdentify(multiset(b))
    ensures a[0] == b[0]
  {
    assert a[0] in multiset(b) && b[0] in multiset(a);
    var i :| 0 <= i < |b| && b[i] == a[0];
    var j :| 0 <= j < |a| && a[j] == b[0];
    if a[0] != b[0] {
      assert Le(b[0].name, b[i].name);
      assert Le(a[0].name, a[j].name);
      LeAntisym(a[0].name, b[0].name);
    }
  }

  /** Dropping the first row of both leaves equal collections, still identified by label. */
  lemma SameTails(a: seq<Row>, b: seq<Row>)
    requires a != [] && b != [] && a[0] == b[0]
    requires multiset(a) == multiset(b) && LabelsIdentify(multiset(b))
    ensures multiset(a[1..]) == multiset(b[1..]) && LabelsIdentify(multiset(b[1..]))
  {
    assert a == [a[0]] + a[1..];
    assert b == [b[0]] + b[1..];
    assert multiset(b[1..]) <= multiset(b);
  }

  /**
   * With unique labels there is only one ordering by label: two sorted
   * arrangements of the same rows are equal.
   */
  lemma {:induction false} SortedListingUnique(a: seq<Row>, b: seq<Row>)
    requires SortedByLabel(a) && SortedByLabel(b)
    requires multiset(a) == multiset(b) && LabelsIdentify(multiset(b))
    ensures a == b
    decreases |a|
  {
    assert |a| == |multiset(a)| == |multiset(b)| == |b|;
    if a != [] {
      SortedHeads(a, b);
      SameTails(a, b);
      SortedTail(a);
      SortedTail(b);
      SortedListingUnique(a[1..], b[1..]);
      SameHeadSameTail(a, b);
    }
  }

  lemma SortedTail(a: seq<Row>)
    requires SortedByLabel(a) && a != []
    ensures SortedByLabel(a[1..])
  {
  }

  lemma SameHeadSameTail<T>(a: seq<T>, b: seq<T>)
    requires a != [] && b != [] && a[0] == b[0] && a[1..] == b[1..]
    ensures a == b
  {
    assert a == [a[0]] + a[1..];
    assert b == [b[0]] + b[1..];
  }

  lemma ValidLabelsIdentify(t: Table)
    requires Valid(t)
    ensures LabelsIdentify(multiset(t.rows))
  {
    forall x, y | x in multiset(t.rows) && y in multiset(t.rows) && x.name == y.name
      ensures x == y
    {
      var i :| 0 <= i < |t.rows| && t.rows[i] == x;
      var j :| 0 <= j < |t.rows| && t.rows[j] == y;
    }
  }

  /** The listing of a valid table is its only arrangement by label. */
  lemma ListingIsTheSortedTable(t: Table, listing: seq<Row>)
    requires Valid(t)
    requires SortedByLabel(listing) && multiset(listing) == multiset(t.rows)
    ensures listing == GetAllLabels(t)
  {
    ValidLabelsIdentify(t);
    SortedListingUnique(listing, GetAllLabels(t));
  }

  // ---------------------------------------------------------------------
  // Insertion

  /** The row carrying a label, if any. */
  function FindByName(rows: seq<Row>, name: string): (r: Option<Row>)
    ensures r.None? <==> forall i :: 0 <= i < |rows| ==> rows[i].name != name
    ensures r.Some? ==> r.value in rows && r.value.name == name
    decreases |rows|
  {
    if rows == [] then None
    else if rows[0].name == name then Some(rows[0])
    else
      var r := FindByName(rows[1..], name);
      assert forall i :: 1 <= i < |rows| ==> rows[i] == rows[1..][i - 1];
      r
  }

  /** The outcome of an INSERT: the new row and table, or a violated UNIQUE constraint. */
  datatype Insertion = Inserted(row: Row, table: Table) | UniqueViolation

  /**
   * Inserts a label. The new row takes the next id and goes last; a label
   * already present violates the UNIQUE constraint and nothing changes.
   */
  function AddLabel(t: Table, name: string): (r: Insertion)
    ensures r.UniqueViolation? <==> exists i :: 0 <= i < |t.rows| && t.rows[i].name == name
    ensures r.Inserted? ==> r.row == Row(t.nextId, name) && r.table == Table(t.rows + [r.row], t.nextId + 1)
    ensures r.Inserted? && Valid(t) ==> Valid(r.table)
  {
    match FindByName(t.rows, name)
    case Some(_) => UniqueViolation
    case None =>
      var row := Row(t.nextId, name);
      var t' := Table(t.rows + [row], t.nextId + 1);
      assert Valid(t) ==> Valid(t') by {
        if Valid(t) {
          forall i, j | 0 <= i < j < |t'.rows|
            ensures Precedes(t'.rows[i], t'.rows[j])
          {
            if j == |t.rows| {
              assert t'.rows[i] == t.rows[i];
            }
          }
        }
      }
      Inserted(row, t')
  }

  /** The new row's id exceeds every id in the table, and the next one exceeds it in turn. */
  lemma AddLabelFreshId(t: Table, name: string)
    requires Valid(t) && AddLabel(t, name).Inserted?
    ensures forall i :: 0 <= i < |t.rows| ==> t.rows[i].id < AddLabel(t, name).row.id
    ensures AddLabel(t, name).row.id < AddLabel(t, name).table.nextId
  {
  }

  // ---------------------------------------------------------------------
  // Deletion

  /** The rows `keep` accepts, in their original order; a DELETE's survivors. */
  function Filter(rows: seq<Row>, keep: Row -> bool): (r: seq<Row>)
    ensures IsSubseq(r, rows)
    ensures forall x :: x in r <==> x in rows && keep(x)
    decreases |rows|
  {
    if rows == [] then []
    else
      var rest := Filter(rows[1..], keep);
      assert rows == [rows[0]] + rows[1..];
      if keep(rows[0]) then
        IsSubseqCons(rows[0], rest, rows[1..]);
        [rows[0]] + rest
      else
        IsSubseqSkip(rows[0], rest, rows[1..]);
        rest
  }

  /** A DELETE changed something exactly when some row matched its condition. */
  lemma {:induction false} FilterShrinks(rows: seq<Row>, keep: Row -> bool)
    ensures |Filter(rows, keep)| <= |rows|
    ensures |Filter(rows, keep)| < |rows| <==> exists i :: 0 <= i < |rows| && !keep(rows[i])
    decreases |rows|
  {
    if rows != [] {
      FilterShrinks(rows[1..], keep);
      if exists i :: 1 <= i < |rows| && !keep(rows[i]) {
        var i :| 1 <= i < |rows| && !keep(rows[i]);
        assert rows[1..][i - 1] == rows[i];
      }
      if exists i :: 0 <= i < |rows[1..]| && !keep(rows[1..][i]) {
        var i :| 0 <= i < |rows[1..]| && !keep(rows[1..][i]);
        assert rows[i + 1] == rows[1..][i];
      }
    }
  }

  /** Keeping every row is the identity. */
  lemma {:induction false} FilterKeepsAll(rows: seq<Row>, keep: Row -> bool)
    requires forall i :: 0 <= i < |rows| ==> keep(rows[i])
    ensures Filter(rows, keep) == rows
    decreases |rows|
  {
    if rows != [] {
      assert forall i :: 0 <= i < |rows[1..]| ==> rows[1..][i] == rows[i + 1];
      FilterKeepsAll(rows[1..], keep);
      assert rows == [rows[0]] + rows[1..];
    }
  }

  /** Filtering a list with one rejected row appended filters the list. */
  lemma {:induction false} FilterDropsLast(rows: seq<Row>, x: Row, keep: Row -> bool)
    requires !keep(x)
    ensures Filter(rows + [x], keep) == Filter(rows, keep)
    decreases |rows|
  {
    if rows == [] {
      assert ([x])[1..] == [];
    } else {
      assert (rows + [x])[1..] == rows[1..] + [x];
      FilterDropsLast(rows[1..], x, keep);
    }
  }

  /** The outcome of a DELETE: the table left and whether any row went. */
  datatype Removal = Removal(table: Table, removed: bool)

  /** Deletes the row with an id; reports whether one was there. */
  function RemoveLabel(t: Table, id: int): (r: Removal)
    ensures r.removed <==> exists i :: 0 <= i < |t.rows| && t.rows[i].id == id
    ensures forall x :: x in r.table.rows <==> x in t.rows && x.id != id
    ensures IsSubseq(r.table.rows, t.rows) && r.table.nextId == t.nextId
    ensures !r.removed ==> r.table == t
    ensures Valid(t) ==> Valid(r.table)
  {
    var keep := (x: Row) => x.id != id;
    var rows := Filter(t.rows, keep);
    FilterShrinks(t.rows, keep);
    if |rows| < |t.rows| then
      RemovalKeepsValid(t, rows);
      Removal(Table(rows, t.nextId), true)
    else
      FilterKeepsAll(t.rows, keep);
      Removal(t, false)
  }

  /** Deletes the row with a label; reports whether one was there. */
  function RemoveLabelByName(t: Table, name: string): (r: Removal)
    ensures r.removed <==> exists i :: 0 <= i < |t.rows| && t.rows[i].name == name
    ensures forall x :: x in r.table.rows <==> x in t.rows && x.name != name
    ensures IsSubseq(r.table.rows, t.rows) && r.table.nextId == t.nextId
    ensures !r.removed ==> r.table == t
    ensures Valid(t) ==> Valid(r.table)
  {
    var keep := (x: Row) => x.name != name;
    var rows := Filter(t.rows, keep);
    FilterShrinks(t.rows, keep);
    if |rows| < |t.rows| then
      RemovalKeepsValid(t, rows);
      Removal(Table(rows, t.nextId), true)
    else
      FilterKeepsAll(t.rows, keep);
      Removal(t, false)
  }

  lemma RemovalKeepsValid(t: Table, rows: seq<Row>)
    requires IsSubseq(rows, t.rows)
    ensures Valid(t) ==> Valid(Table(rows, t.nextId))
  {
    if Valid(t) {
      SubseqKeepsOrdered(rows, t.rows);
      IsSubseqMembers(rows, t.rows);
      forall i | 0 <= i < |rows|
        ensures 1 <= rows[i].id < t.nextId
      {
        assert rows[i] in t.rows;
      }
    }
  }

  // ---------------------------------------------------------------------
  // Insert and delete together

  /** Deleting a just-inserted row by its id restores the rows; the id is not handed out again. */
  lemma AddThenRemove(t: Table, name: string)
    requires Valid(t) && AddLabel(t, name).Inserted?
    ensures RemoveLabel(AddLabel(t, name).table, AddLabel(t, name).row.id)
         == Removal(Table(t.rows, t.nextId + 1), true)
  {
    var row := AddLabel(t, name).row;
    var keep := (x: Row) => x.id != row.id;
    FilterDropsLast(t.rows, row, keep);
    FilterKeepsAll(t.rows, keep);
    assert (t.rows + [row])[|t.rows|] == row;
  }

  /** Deleting a just-inserted row by its label restores the rows. */
  lemma AddThenRemoveByName(t: Table, name: string)
    requires AddLabel(t, name).Inserted?
    ensures RemoveLabelByName(AddLabel(t, name).table, name)
         == Removal(Table(t.rows, t.nextId + 1), true)
  {
    var row := AddLabel(t, name).row;
    var keep := (x: Row) => x.name != name;
    FilterDropsLast(t.rows, row, keep);
    FilterKeepsAll(t.rows, keep);
    assert (t.rows + [row])[|t.rows|] == row;
  }

  /** Once a label is in, adding it again is refused. */
  lemma AddTwice(t: Table, name: string)
    requires AddLabel(t, name).Inserted?
    ensures AddLabel(AddLabel(t, name).table, name).UniqueViolation?
  {
    var t' := AddLabel(t, name).table;
    assert t'.rows[|t.rows|].name == name;
  }

  /** A freshly added row appears in the listing. */
  lemma AddedRowListed(t: Table, name: string)
    requires AddLabel(t, name).Inserted?
    ensures AddLabel(t, name).row in GetAllLabels(AddLabel(t, name).table)
  {
    var r := AddLabel(t, name);
    assert r.row in multiset(r.table.rows) by {
      assert r.table.rows[|t.rows|] == r.row;
    }
  }
}
