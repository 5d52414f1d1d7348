/**
 * What the store asks of SQLite: a table is its rows in rowid order; a query
 * `WHERE date >= ? AND date <= ? ORDER BY date DESC` keeps the rows whose date
 * lies between the bounds under text order and sorts them newest first; and
 * `DELETE ... WHERE id = ?` drops the rows with that id.  SQLite leaves the
 * order of rows with equal dates open; the model fixes one.
 */
module Query {
  import opened Wrappers
  import opened Collation

  /** One row: its id, its ISO date text, a plain column and a payload column. */
  datatype Row<A, P> = Row(id: nat, date: string, attr: A, payload: P)

  /** A bound takes part in the query only when it is truthy: `None` and `""` mean "no bound". */
  predicate Active(bound: Option<string>) {
    bound.Some? && bound.value != ""
  }

  predicate InRange(date: string, start: Option<string>, end: Option<string>) {
    && (Active(start) ==> LexLe(start.value, date))
    && (Active(end) ==> LexLe(date, end.value))
  }

  /** The WHERE clause: the rows in range, in table order. */
  function Filter<A(!new), P(!new)>(rows: seq<Row<A, P>>, start: Option<string>, end: Option<string>): seq<Row<A, P>> {
    if rows == [] then []
    else (if InRange(rows[0].date, start, end) then [rows[0]] else []) + Filter(rows[1..], start, end)
  }

  /** The WHERE clause keeps exactly the stored rows in range. */
  lemma {:induction false} FilterMembers<A(!new), P(!new)>(rows: seq<Row<A, P>>, start: Option<string>, end: Option<string>)
    ensures forall x :: x in Filter(rows, start, end) <==> x in rows && InRange(x.date, start, end)
  {
    if rows != [] {
      assert rows == [rows[0]] + rows[1..];
      FilterMembers(rows[1..], start, end);
    }
  }

  /** The WHERE clause keeps each row in range as often as it is stored, and no other. */
  lemma {:induction false} FilterMultiset<A(!new), P(!new)>(rows: seq<Row<A, P>>, start: Option<string>, end: Option<string>)
    ensures forall x :: multiset(Filter(rows, start, end))[x] == if InRange(x.date, start, end) then multiset(rows)[x] else 0
  {
    if rows != [] {
      assert rows == [rows[0]] + rows[1..];
      FilterMultiset(rows[1..], start, end);
    }
  }

  /** The rows a condensation leaves: those out of range, in table order. */
  function Outside<A(!new), P(!new)>(rows: seq<Row<A, P>>, start: Option<string>, end: Option<string>): seq<Row<A, P>> {
    if rows == [] then []
    else (if InRange(rows[0].date, start, end) then [] else [rows[0]]) + Outside(rows[1..], start, end)
  }

  /** The rows a condensation leaves are exactly the stored rows out of range. */
  lemma {:induction false} OutsideMembers<A(!new), P(!new)>(rows: seq<Row<A, P>>, start: Option<string>, end: Option<string>)
    ensures forall x :: x in Outside(rows, start, end) <==> x in rows && !InRange(x.date, start, end)
  {
    if rows != [] {
      assert rows == [rows[0]] + rows[1..];
      OutsideMembers(rows[1..], start, end);
    }
  }

  /** Filtering a table with one more row at the end. */
  lemma {:induction false} FilterSnoc<A(!new), P(!new)>(rows: seq<Row<A, P>>, x: Row<A, P>, start: Option<string>, end: Option<string>)
    ensures Filter(rows + [x], start, end) == Filter(rows, start, end) + (if InRange(x.date, start, end) then [x] else [])
  {
    var tail: seq<Row<A, P>> := if InRange(x.date, start, end) then [x] else [];
    if rows == [] {
      assert [x][1..] == [];
      assert Filter([x], start, end) == tail + Filter([x][1..], start, end);
    } else {
      var h: seq<Row<A, P>> := if InRange(rows[0].date, start, end) then [rows[0]] else [];
      assert Filter(rows + [x], start, end) == h + Filter(rows[1..] + [x], start, end) by {
        assert (rows + [x])[0] == rows[0];
        assert (rows + [x])[1..] == rows[1..] + [x];
      }
      FilterSnoc(rows[1..], x, start, end);
      calc {
        Filter(rows + [x], start, end);
        h + Filter(rows[1..] + [x], start, end);
        h + (Filter(rows[1..], start, end) + tail);
        (h + Filter(rows[1..], start, end)) + tail;
        Filter(rows, start, end) + tail;
      }
    }
  }

  /** The rows outside the range, of a table with one more row at the end. */
  lemma {:induction false} OutsideSnoc<A(!new), P(!new)>(rows: seq<Row<A, P>>, x: Row<A, P>, start: Option<string>, end: Option<string>)
    ensures Outside(rows + [x], start, end) == Outside(rows, start, end) + (if InRange(x.date, start, end) then [] else [x])
  {
    var tail: seq<Row<A, P>> := if InRange(x.date, start, end) then [] else [x];
    if rows == [] {
      assert [x][1..] == [];
      assert Outside([x], start, end) == tail + Outside([x][1..], start, end);
    } else {
      var h: seq<Row<A, P>> := if InRange(rows[0].date, start, end) then [] else [rows[0]];
      OutsideCons(rows + [x], start, end);
      assert (rows + [x])[0] == rows[0];
      assert (rows + [x])[1..] == rows[1..] + [x];
      OutsideSnoc(rows[1..], x, start, end);
      calc {
        Outside(rows + [x], start, end);
        h + Outside(rows[1..] + [x], start, end);
        h + (Outside(rows[1..], start, end) + tail);
        (h + Outside(rows[1..], start, end)) + tail;
        Outside(rows, start, end) + tail;
      }
    }
  }

  /** One step of `Outside`, as an equation. */
  lemma OutsideCons<A(!new), P(!new)>(rows: seq<Row<A, P>>, start: Option<string>, end: Option<string>)
    requires rows != []
    ensures Outside(rows, start, end) == (if InRange(rows[0].date, start, end) then [] else [rows[0]]) + Outside(rows[1..], start, end)
  {
  }

  /** A table with no row in range filters to nothing and is its own outside. */
  lemma {:induction false} NoneInRange<A(!new), P(!new)>(rows: seq<Row<A, P>>, start: Option<string>, end: Option<string>)
    requires forall x :: x in rows ==> !InRange(x.date, start, end)
    ensures Filter(rows, start, end) == [] && Outside(rows, start, end) == rows
  {
    if rows != [] {
      assert rows[0] in rows;
      assert forall x :: x in rows[1..] ==> x in rows;
      NoneInRange(rows[1..], start, end);
    }
  }

  /**
   * Rows none of which is in range, followed by one row in range: the query
   * finds that row alone, and the rows outside are the others.
   */
  lemma LastAloneInRange<A(!new), P(!new)>(out: seq<Row<A, P>>, x: Row<A, P>, start: Option<string>, end: Option<string>)
    requires forall y :: y in out ==> !InRange(y.date, start, end)
    requires InRange(x.date, start, end)
    ensures Filter(out + [x], start, end) == [x]
    ensures Outside(out + [x], start, end) == out
  {
    NoneInRange(out, start, end);
    FilterSnoc(out, x, start, end);
    OutsideSnoc(out, x, start, end);
  }

  /** Newest first: no row is dated after the one before it. */
  predicate SortedDesc<A(!new), P(!new)>(rows: seq<Row<A, P>>) {
    forall i, j :: 0 <= i < j < |rows| ==> LexLe(rows[j].date, rows[i].date)
  }

  /** Places a row before the first row that is not newer than it. */
  function Insert<A(!new), P(!new)>(x: Row<A, P>, s: seq<Row<A, P>>): seq<Row<A, P>> {
    if s == [] then [x]
    else if LexLe(s[0].date, x.date) then [x] + s
    else [s[0]] + Insert(x, s[1..])
  }

  /** Inserting adds the row and loses none. */
  lemma {:induction false} InsertMultiset<A(!new), P(!new)>(x: Row<A, P>, s: seq<Row<A, P>>)
    ensures multiset(Insert(x, s)) == multiset(s) + multiset{x}
  {
    if s != [] && !LexLe(s[0].date, x.date) {
      assert s == [s[0]] + s[1..];
      InsertMultiset(x, s[1..]);
    }
  }

  /** Inserting into a newest-first table keeps it newest first. */
  lemma {:induction false} InsertSorted<A(!new), P(!new)>(x: Row<A, P>, s: seq<Row<A, P>>)
    requires SortedDesc(s)
    ensures SortedDesc(Insert(x, s))
  {
    if s == [] {
    } else if LexLe(s[0].date, x.date) {
      forall j | 0 < j < |s| + 1 ensures LexLe(([x] + s)[j].date, x.date) {
        if j > 1 { LexLeTrans(s[j - 1].date, s[0].date, x.date); } else { LexLeRefl(x.date); }
      }
    } else {
      var rest := Insert(x, s[1..]);
      InsertSorted(x, s[1..]);
      InsertMultiset(x, s[1..]);
      assert s == [s[0]] + s[1..];
      LexLeTotal(s[0].date, x.date);
      forall j | 0 <= j < |rest| ensures LexLe(rest[j].date, s[0].date) {
        assert rest[j] in multiset(rest);
        if rest[j] != x {
          assert rest[j] in s[1..];
          var k :| 0 <= k < |s[1..]| && s[1..][k] == rest[j];
          assert s[k + 1] == rest[j];
        }
      }
      assert Insert(x, s) == [s[0]] + rest;
    }
  }

  /** `ORDER BY date DESC`. */
  function SortDesc<A(!new), P(!new)>(rows: seq<Row<A, P>>): (r: seq<Row<A, P>>)
    ensures multiset(r) == multiset(rows)
    ensures SortedDesc(r)
  {
    if rows == [] then []
    else
      assert rows == [rows[0]] + rows[1..];
      InsertMultiset(rows[0], SortDesc(rows[1..]));
      InsertSorted(rows[0], SortDesc(rows[1..]));
      Insert(rows[0], SortDesc(rows[1..]))
  }

  /** The whole SELECT: the rows in range, newest first. */
  function Select<A(!new), P(!new)>(rows: seq<Row<A, P>>, start: Option<string>, end: Option<string>): seq<Row<A, P>> {
    SortDesc(Filter(rows, start, end))
  }

  /** A query that finds one row returns that row. */
  lemma SelectOne<A(!new), P(!new)>(rows: seq<Row<A, P>>, x: Row<A, P>, start: Option<string>, end: Option<string>)
    requires Filter(rows, start, end) == [x]
    ensures Select(rows, start, end) == [x]
  {
    assert [x][1..] == [];
  }

  /**
   * A query returns exactly the rows of the table whose date lies between
   * the truthy bounds, each as often as it is stored, newest first.
   */
  lemma SelectSpec<A(!new), P(!new)>(rows: seq<Row<A, P>>, start: Option<string>, end: Option<string>)
    ensures SortedDesc(Select(rows, start, end))
    ensures forall x :: multiset(Select(rows, start, end))[x] == if InRange(x.date, start, end) then multiset(rows)[x] else 0
    ensures forall x :: x in Select(rows, start, end) <==> x in rows && InRange(x.date, start, end)
  {
    var f := Filter(rows, start, end);
    FilterMultiset(rows, start, end);
    forall x ensures x in Select(rows, start, end) <==> x in f {
      assert x in Select(rows, start, end) <==> x in multiset(Select(rows, start, end));
      assert x in f <==> x in multiset(f);
    }
  }

  /** The ids of some rows. */
  function Ids<A(!new), P(!new)>(rows: seq<Row<A, P>>): set<nat> {
    if rows == [] then {}
    else
      assert rows == [rows[0]] + rows[1..];
      {rows[0].id} + Ids(rows[1..])
  }

  /** Rows with the same members have the same ids. */
  lemma {:induction false} IdsMembers<A(!new), P(!new)>(rows: seq<Row<A, P>>, id: nat)
    ensures id in Ids(rows) <==> exists k :: 0 <= k < |rows| && rows[k].id == id
  {
    if rows != [] {
      IdsMembers(rows[1..], id);
      if id in Ids(rows[1..]) {
        var k :| 0 <= k < |rows[1..]| && rows[1..][k].id == id;
        assert rows[k + 1].id == id;
      }
      if exists k :: 0 <= k < |rows| && rows[k].id == id {
        var k :| 0 <= k < |rows| && rows[k].id == id;
        if k > 0 { assert rows[1..][k - 1].id == id; }
      }
    }
  }

  lemma IdsSameMembers<A(!new), P(!new)>(a: seq<Row<A, P>>, b: seq<Row<A, P>>)
    requires forall x :: x in a <==> x in b
    ensures Ids(a) == Ids(b)
  {
    forall id | id in Ids(a) ensures id in Ids(b) {
      IdsMembers(a, id);
      var k :| 0 <= k < |a| && a[k].id == id;
      assert a[k] in b;
      var j :| 0 <= j < |b| && b[j] == a[k];
      IdsMembers(b, id);
    }
    forall id | id in Ids(b) ensures id in Ids(a) {
      IdsMembers(b, id);
      var k :| 0 <= k < |b| && b[k].id == id;
      assert b[k] in a;
      var j :| 0 <= j < |a| && a[j] == b[k];
      IdsMembers(a, id);
    }
  }

  /** Appending a row adds its id. */
  lemma {:induction false} IdsSnoc<A(!new), P(!new)>(rows: seq<Row<A, P>>, x: Row<A, P>)
    ensures Ids(rows + [x]) == Ids(rows) + {x.id}
  {
    if rows == [] {
      assert [x][1..] == [];
    } else {
      assert (rows + [x])[1..] == rows[1..] + [x];
      IdsSnoc(rows[1..], x);
    }
  }

  /** An id that no row carries is not among the rows' ids. */
  lemma {:induction false} IdsAvoid<A(!new), P(!new)>(rows: seq<Row<A, P>>, id: nat)
    requires forall x :: x in rows ==> x.id != id
    ensures id !in Ids(rows)
  {
    if rows != [] {
      assert rows[0] in rows;
      assert forall x :: x in rows[1..] ==> x in rows;
      IdsAvoid(rows[1..], id);
    }
  }

  /** Ids are positive, strictly increasing in table order (AUTOINCREMENT) and never above the counter. */
  predicate IdsIncreasing<A(!new), P(!new)>(rows: seq<Row<A, P>>, lastId: nat) {
    && (forall i :: 0 <= i < |rows| ==> 0 < rows[i].id <= lastId)
    && (forall i, j :: 0 <= i < j < |rows| ==> rows[i].id < rows[j].id)
  }

  /** A row with the next id may follow rows with increasing ids. */
  lemma SnocIncreasing<A(!new), P(!new)>(rows: seq<Row<A, P>>, lastId: nat, x: Row<A, P>)
    requires IdsIncreasing(rows, lastId) && x.id == lastId + 1
    ensures IdsIncreasing(rows + [x], x.id)
  {
    var r := rows + [x];
    forall i | 0 <= i < |rows| ensures r[i] == rows[i] {}
  }

  /** `DELETE FROM t WHERE id = ?` for every id of a set. */
  function DeleteIds<A(!new), P(!new)>(rows: seq<Row<A, P>>, ids: set<nat>): seq<Row<A, P>> {
    if rows == [] then []
    else (if rows[0].id in ids then [] else [rows[0]]) + DeleteIds(rows[1..], ids)
  }

  /** Deleting keeps exactly the stored rows whose id is not deleted. */
  lemma {:induction false} DeleteIdsMembers<A(!new), P(!new)>(rows: seq<Row<A, P>>, ids: set<nat>)
    ensures forall x :: x in DeleteIds(rows, ids) <==> x in rows && x.id !in ids
  {
    if rows != [] {
      assert rows == [rows[0]] + rows[1..];
      DeleteIdsMembers(rows[1..], ids);
    }
  }

  /** Deleting no id changes nothing. */
  lemma {:induction false} DeleteNothing<A(!new), P(!new)>(rows: seq<Row<A, P>>)
    ensures DeleteIds(rows, {}) == rows
  {
    if rows != [] {
      DeleteNothing(rows[1..]);
      assert rows == [rows[0]] + rows[1..];
    }
  }

  lemma {:induction false} DeleteIdsConcat<A(!new), P(!new)>(a: seq<Row<A, P>>, b: seq<Row<A, P>>, ids: set<nat>)
    ensures DeleteIds(a + b, ids) == DeleteIds(a, ids) + DeleteIds(b, ids)
  {
    if a == [] {
      assert a + b == b;
    } else {
      assert (a + b)[0] == a[0];
      assert (a + b)[1..] == a[1..] + b;
      DeleteIdsConcat(a[1..], b, ids);
    }
  }

  /** Deleting one more id after a batch is deleting the larger batch. */
  lemma {:induction false} DeleteOneMore<A(!new), P(!new)>(rows: seq<Row<A, P>>, ids: set<nat>, id: nat)
    ensures DeleteIds(DeleteIds(rows, ids), {id}) == DeleteIds(rows, ids + {id})
  {
    if rows != [] {
      var h, t := rows[0], rows[1..];
      var x := if h.id in ids then [] else [h];
      assert DeleteIds(rows, ids) == x + DeleteIds(t, ids);
      DeleteIdsConcat(x, DeleteIds(t, ids), {id});
      DeleteOneMore(t, ids, id);
      if x != [] {
        assert x[1..] == [];
      }
    }
  }

  /** Deleting ids that no row carries changes nothing. */
  lemma {:induction false} DeleteAbsent<A(!new), P(!new)>(rows: seq<Row<A, P>>, ids: set<nat>, extra: set<nat>)
    requires forall x :: x in rows ==> x.id !in extra
    ensures DeleteIds(rows, ids + extra) == DeleteIds(rows, ids)
  {
    if rows != [] {
      assert rows[0] in rows;
      DeleteAbsent(rows[1..], ids, extra);
    }
  }

  /** A row appended after the rows keeps its place when none of its id is deleted. */
  lemma {:induction false} DeleteAppend<A(!new), P(!new)>(rows: seq<Row<A, P>>, x: Row<A, P>, ids: set<nat>)
    requires x.id !in ids
    ensures DeleteIds(rows + [x], ids) == DeleteIds(rows, ids) + [x]
  {
    if rows == [] {
      assert rows + [x] == [x];
    } else {
      assert (rows + [x])[1..] == rows[1..] + [x];
      DeleteAppend(rows[1..], x, ids);
    }
  }

  /**
   * With unique ids, deleting the ids of the rows a query found removes
   * exactly those rows and keeps every other row in its place.
   */
  lemma {:induction false} DeleteSelected<A(!new), P(!new)>(rows: seq<Row<A, P>>, lastId: nat, start: Option<string>, end: Option<string>)
    requires IdsIncreasing(rows, lastId)
    ensures DeleteIds(rows, Ids(Select(rows, start, end))) == Outside(rows, start, end)
  {
    SelectSpec(rows, start, end);
    IdsSameMembers(Select(rows, start, end), Filter(rows, start, end));
    DeleteFiltered(rows, lastId, start, end);
  }

  /** The rows after the first keep increasing ids, none of them the first row's. */
  lemma IncreasingTail<A(!new), P(!new)>(rows: seq<Row<A, P>>, lastId: nat)
    requires rows != [] && IdsIncreasing(rows, lastId)
    ensures IdsIncreasing(rows[1..], lastId)
    ensures forall x :: x in rows[1..] ==> rows[0].id < x.id
  {
    var t := rows[1..];
    forall i, j | 0 <= i < j < |t| ensures t[i].id < t[j].id { assert rows[i + 1] == t[i] && rows[j + 1] == t[j]; }
    forall i | 0 <= i < |t| ensures 0 < t[i].id <= lastId { assert rows[i + 1] == t[i]; }
    forall x | x in t ensures rows[0].id < x.id {
      var k :| 0 <= k < |t| && t[k] == x;
      assert rows[k + 1] == x;
    }
  }

  /** A row whose id is below every id of a table with increasing ids may go in front of it. */
  lemma ConsIncreasing<A(!new), P(!new)>(h: Row<A, P>, rows: seq<Row<A, P>>, lastId: nat)
    requires IdsIncreasing(rows, lastId) && 0 < h.id <= lastId
    requires forall x :: x in rows ==> h.id < x.id
    ensures IdsIncreasing([h] + rows, lastId)
  {
    var r := [h] + rows;
    forall i | 0 < i < |r| ensures r[i] == rows[i - 1] && r[i] in rows {}
  }

  /** The rows outside a range keep their order, so their ids still increase. */
  lemma {:induction false} OutsideIncreasing<A(!new), P(!new)>(rows: seq<Row<A, P>>, lastId: nat, start: Option<string>, end: Option<string>)
    requires IdsIncreasing(rows, lastId)
    ensures IdsIncreasing(Outside(rows, start, end), lastId)
  {
    if rows != [] {
      IncreasingTail(rows, lastId);
      OutsideIncreasing(rows[1..], lastId, start, end);
      OutsideCons(rows, start, end);
      if !InRange(rows[0].date, start, end) {
        OutsideMembers(rows[1..], start, end);
        ConsIncreasing(rows[0], Outside(rows[1..], start, end), lastId);
      }
    }
  }

  lemma {:induction false} DeleteFiltered<A(!new), P(!new)>(rows: seq<Row<A, P>>, lastId: nat, start: Option<string>, end: Option<string>)
    requires IdsIncreasing(rows, lastId)
    ensures DeleteIds(rows, Ids(Filter(rows, start, end))) == Outside(rows, start, end)
  {
    if rows != [] {
      var h, t := rows[0], rows[1..];
      IncreasingTail(rows, lastId);
      DeleteFiltered(t, lastId, start, end);
      var ft := Filter(t, start, end);
      FilterMembers(t, start, end);
      assert forall x :: x in ft ==> x.id != h.id;
      IdsAvoid(ft, h.id);
      OutsideCons(rows, start, end);
      if InRange(h.date, start, end) {
        DeleteFilteredIn(rows, start, end);
      } else {
        DeleteFilteredOut(rows, start, end);
      }
    }
  }

  /** The step of DeleteFiltered when the first row is in range: its id is deleted with the others. */
  lemma DeleteFilteredIn<A(!new), P(!new)>(rows: seq<Row<A, P>>, start: Option<string>, end: Option<string>)
    requires rows != [] && InRange(rows[0].date, start, end)
    requires rows[0].id !in Ids(Filter(rows[1..], start, end))
    requires forall x :: x in rows[1..] ==> x.id != rows[0].id
    requires DeleteIds(rows[1..], Ids(Filter(rows[1..], start, end))) == Outside(rows[1..], start, end)
    ensures DeleteIds(rows, Ids(Filter(rows, start, end))) == Outside(rows, start, end)
  {
    var h, t := rows[0], rows[1..];
    var ft := Filter(t, start, end);
    var idsT := Ids(ft);
    var fr := Filter(rows, start, end);
    assert fr == [h] + ft;
    assert fr != [] && fr[0] == h && fr[1..] == ft;
    assert Ids(fr) == idsT + {h.id};
    DeleteAbsent(t, idsT, {h.id});
    calc {
      DeleteIds(rows, Ids(fr));
      DeleteIds(t, idsT + {h.id});
      DeleteIds(t, idsT);
      Outside(t, start, end);
      Outside(rows, start, end);
    }
  }

  /** The step of DeleteFiltered when the first row is out of range: it stays, in front. */
  lemma DeleteFilteredOut<A(!new), P(!new)>(rows: seq<Row<A, P>>, start: Option<string>, end: Option<string>)
    requires rows != [] && !InRange(rows[0].date, start, end)
    requires rows[0].id !in Ids(Filter(rows[1..], start, end))
    requires DeleteIds(rows[1..], Ids(Filter(rows[1..], start, end))) == Outside(rows[1..], start, end)
    ensures DeleteIds(rows, Ids(Filter(rows, start, end))) == Outside(rows, start, end)
  {
    var h, t := rows[0], rows[1..];
    var idsT := Ids(Filter(t, start, end));
    assert Filter(rows, start, end) == Filter(t, start, end);
    calc {
      DeleteIds(rows, idsT);
      [h] + DeleteIds(t, idsT);
      [h] + Outside(t, start, end);
      Outside(rows, start, end);
    }
  }
}
