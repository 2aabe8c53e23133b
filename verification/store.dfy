/** The record store of `backend/config/database.js`: every sheet of the
    workbook is a sequence of rows, each row an id-keyed record carrying its
    creation and last-update timestamps. File persistence is not modelled:
    a call's effect is the table it returns. */
module Store {
  import opened Wrappers

  type Id = nat
  /** Milliseconds since the epoch, as `Date.now()` returns them. */
  type Time = nat

  datatype Row<T> = Row(id: Id, data: T, createdAt: Time, updatedAt: Time)

  type Table<T> = seq<Row<T>>

  /** What `insert` hands back: the new table, the id and `changes`. */
  datatype Inserted<T> = Inserted(table: Table<T>, id: Id, changes: nat)

  /** What `deleteRow` hands back. */
  datatype Deleted<T> = Deleted(table: Table<T>, changes: nat)

  predicate HasId<T>(t: Table<T>, id: Id) {
    exists i :: 0 <= i < |t| && t[i].id == id
  }

  /** Row `i` is the first one carrying its id: the one `find` and
      `findIndex` reach. */
  predicate FirstWithId<T>(t: Table<T>, i: int)
    requires 0 <= i < |t|
  {
    forall j :: 0 <= j < i ==> t[j].id != t[i].id
  }

  /** `findIndex(row => row.id == id)`. */
  function IndexOf<T>(t: Table<T>, id: Id): (r: Option<nat>)
    ensures r.None? <==> !HasId(t, id)
    ensures r.Some? ==> r.value < |t| && t[r.value].id == id && FirstWithId(t, r.value)
  {
    if |t| == 0 then None
    else if t[0].id == id then Some(0)
    else
      match IndexOf(t[1..], id)
      case None => None
      case Some(k) => Some(k + 1)
  }

  /** The largest id of the table, 0 for an empty one. */
  function MaxId<T>(t: Table<T>): (m: nat)
    ensures forall i :: 0 <= i < |t| ==> t[i].id <= m
    ensures |t| > 0 ==> exists i :: 0 <= i < |t| && t[i].id == m
  {
    if |t| == 0 then 0
    else
      var m := MaxId(t[..|t| - 1]);
      if t[|t| - 1].id > m then t[|t| - 1].id else m
  }

  /** The id `insert` assigns: one more than the largest present, or 1. */
  function NextId<T>(t: Table<T>): (r: Id)
    ensures r >= 1 && !HasId(t, r)
    ensures forall i :: 0 <= i < |t| ==> t[i].id < r
    ensures |t| > 0 ==> HasId(t, r - 1)
  {
    if |t| > 0 then MaxId(t) + 1 else 1
  }

  /** `getAll`: a sheet absent from the workbook reads as no rows. */
  function GetAll<T>(book: map<string, Table<T>>, sheet: string): (r: Table<T>)
    ensures sheet !in book ==> r == []
    ensures sheet in book ==> r == book[sheet]
  {
    if sheet in book then book[sheet] else []
  }

  /** `getById`: the first row with the id, if any. */
  function GetById<T>(t: Table<T>, id: Id): (r: Option<Row<T>>)
    ensures r.None? <==> !HasId(t, id)
    ensures r.Some? ==> r.value.id == id && exists i :: 0 <= i < |t| && FirstWithId(t, i) && t[i] == r.value
  {
    match IndexOf(t, id)
    case None => None
    case Some(i) => Some(t[i])
  }

  /** `insert`: appends `{id: newId, ...data}` stamped with `now`. */
  function Insert<T>(t: Table<T>, data: T, now: Time): (r: Inserted<T>)
    ensures r.changes == 1
    ensures r.id == NextId(t) && !HasId(t, r.id)
    ensures |r.table| == |t| + 1 && r.table[..|t|] == t
    ensures r.table[|t|] == Row(r.id, data, now, now)
  {
    var id := NextId(t);
    Inserted(t + [Row(id, data, now, now)], id, 1)
  }

  /** `update`: merges `patch` into the first row with the id and restamps
      it; an absent id throws "Record not found". */
  function Update<T>(t: Table<T>, id: Id, patch: T -> T, now: Time): (r: Result<Table<T>, string>)
    ensures r.Failure? <==> !HasId(t, id)
    ensures r.Failure? ==> r.error == "Record not found"
    ensures r.Success? ==>
      && |r.value| == |t|
      && forall i :: 0 <= i < |t| ==>
           r.value[i] == if t[i].id == id && FirstWithId(t, i)
                         then Row(id, patch(t[i].data), t[i].createdAt, now)
                         else t[i]
  {
    match IndexOf(t, id)
    case None => Failure("Record not found")
    case Some(k) => Success(t[k := Row(id, patch(t[k].data), t[k].createdAt, now)])
  }

  /** `query`: keeps, in order, the rows satisfying `p`. */
  function Query<T>(t: Table<T>, p: Row<T> -> bool): (r: Table<T>)
    ensures |r| <= |t|
    ensures forall i :: 0 <= i < |r| ==> r[i] in t && p(r[i])
    ensures forall i :: 0 <= i < |t| && p(t[i]) ==> t[i] in r
  {
    if |t| == 0 then []
    else (if p(t[0]) then [t[0]] else []) + Query(t[1..], p)
  }

  /** The row filter `deleteRow` applies. */
  function IdIsNot<T>(id: Id): Row<T> -> bool {
    (row: Row<T>) => row.id != id
  }

  /** `deleteRow`: drops every row with the id and always reports one
      change, whether or not a row matched. */
  function DeleteRow<T>(t: Table<T>, id: Id): (r: Deleted<T>)
    ensures r.changes == 1
    ensures !HasId(r.table, id)
    ensures forall i :: 0 <= i < |r.table| ==> r.table[i] in t
    ensures forall i :: 0 <= i < |t| && t[i].id != id ==> t[i] in r.table
  {
    Deleted(Query(t, IdIsNot(id)), 1)
  }

  /** Deleting an id no row carries leaves the table as it was. */
  lemma DeleteRowAbsent<T>(t: Table<T>, id: Id)
    requires !HasId(t, id)
    ensures DeleteRow(t, id).table == t
  {
    QueryKeepsAll(t, IdIsNot(id));
  }

  /** Filtering a concatenation filters each part: `query` keeps the order
      of the rows it keeps. */
  lemma {:induction false} QueryAppend<T>(a: Table<T>, b: Table<T>, p: Row<T> -> bool)
    ensures Query(a + b, p) == Query(a, p) + Query(b, p)
  {
    if |a| == 0 {
      assert a + b == b;
    } else {
      assert (a + b)[0] == a[0];
      assert (a + b)[1..] == a[1..] + b;
      QueryAppend(a[1..], b, p);
    }
  }

  /** A filter every row passes returns the table itself. */
  lemma {:induction false} QueryKeepsAll<T>(t: Table<T>, p: Row<T> -> bool)
    requires forall i :: 0 <= i < |t| ==> p(t[i])
    ensures Query(t, p) == t
  {
    if |t| > 0 {
      QueryKeepsAll(t[1..], p);
    }
  }

  /** A filter no row passes returns nothing. */
  lemma {:induction false} QueryDropsAll<T>(t: Table<T>, p: Row<T> -> bool)
    requires forall i :: 0 <= i < |t| ==> !p(t[i])
    ensures Query(t, p) == []
  {
    if |t| > 0 {
      QueryDropsAll(t[1..], p);
    }
  }

  /** Deleting from a concatenation deletes from each part. */
  lemma DeleteRowAppend<T>(a: Table<T>, b: Table<T>, id: Id)
    ensures DeleteRow(a + b, id).table == DeleteRow(a, id).table + DeleteRow(b, id).table
  {
    QueryAppend(a, b, IdIsNot(id));
  }

  /** Deleting the id of the only row that carries it removes that row. */
  lemma DeleteOnly<T>(a: Table<T>, x: Row<T>, b: Table<T>)
    requires !HasId(a, x.id) && !HasId(b, x.id)
    ensures DeleteRow(a + [x] + b, x.id).table == a + b
  {
    var left := a + [x];
    DeleteRowAppend(left, b, x.id);
    DeleteRowAppend(a, [x], x.id);
    DeleteRowAbsent(a, x.id);
    DeleteRowAbsent(b, x.id);
    QueryDropsAll([x], IdIsNot(x.id));
    assert DeleteRow(left, x.id).table == a;
  }

  /** Deleting the id of the row just appended under the next id gives
      back the table as it was. */
  lemma DeleteAppended<T>(before: Table<T>, after: Table<T>, id: Id)
    requires id == NextId(before)
    requires |after| == |before| + 1 && after[..|before|] == before && after[|before|].id == id
    ensures DeleteRow(after, id).table == before
  {
    assert after == before + [after[|before|]] + [];
    DeleteOnly(before, after[|before|], []);
  }

  /** The row `getById` finds for an id only the appended row carries is
      that row. */
  lemma FoundAppended<T>(before: Table<T>, after: Table<T>, id: Id)
    requires !HasId(before, id)
    requires |after| == |before| + 1 && after[..|before|] == before && after[|before|].id == id
    ensures GetById(after, id) == Some(after[|before|])
  {
    assert HasId(after, id);
    var j :| 0 <= j < |after| && FirstWithId(after, j) && after[j] == GetById(after, id).value;
    if j < |before| {
      assert after[j] == after[..|before|][j];
    }
  }

  /** A table with the same ids row by row finds an id in the same place. */
  lemma FoundSameIds<T>(a: Table<T>, b: Table<T>, id: Id)
    requires HasId(a, id)
    requires |a| == |b| && forall i :: 0 <= i < |a| ==> a[i].id == b[i].id
    ensures HasId(b, id) && IndexOf(b, id) == IndexOf(a, id)
  {
    var i :| 0 <= i < |a| && a[i].id == id;
    assert b[i].id == id;
    var ia := IndexOf(a, id).value;
    var ib := IndexOf(b, id).value;
    assert a[ib].id == id;
    assert b[ia].id == id;
  }

  /** Each row from index `from` on carries an id no row before it has, as
      successive `insert`s hand out. */
  predicate FreshFrom<T>(t: Table<T>, from: nat) {
    forall k :: from <= k < |t| ==> !HasId(t[..k], t[k].id)
  }

  /** The cascade loop: `deleteRow(sheet, item.id)` for each
      row found, in order, as both cascades do. */
  function DeleteEach<T>(t: Table<T>, rows: Table<T>): (r: Table<T>)
    ensures forall k :: 0 <= k < |r| ==> r[k] in t && !HasId(rows, r[k].id)
    ensures forall k :: 0 <= k < |t| && !HasId(rows, t[k].id) ==> t[k] in r
    decreases |rows|
  {
    if |rows| == 0 then t
    else
      var r := DeleteEach(DeleteRow(t, rows[0].id).table, rows[1..]);
      assert forall id :: HasId(rows[1..], id) ==> HasId(rows, id) by {
        forall id | HasId(rows[1..], id) ensures HasId(rows, id) {
          var i :| 0 <= i < |rows[1..]| && rows[1..][i].id == id;
          assert rows[i + 1].id == id;
        }
      }
      assert forall id :: HasId(rows, id) && id != rows[0].id ==> HasId(rows[1..], id) by {
        forall id | HasId(rows, id) && id != rows[0].id ensures HasId(rows[1..], id) {
          var i :| 0 <= i < |rows| && rows[i].id == id;
          assert rows[1..][i - 1].id == id;
        }
      }
      r
  }

  /** Deleting the id of a row that is fresh from its own index on removes
      that row alone. */
  lemma DeleteFresh<T>(s: Table<T>, n: nat)
    requires n < |s|
    requires FreshFrom(s, n)
    ensures DeleteRow(s, s[n].id).table == s[..n] + s[n + 1..]
  {
    var id := s[n].id;
    var tail := s[n + 1..];
    assert s == s[..n] + [s[n]] + tail;
    assert !HasId(s[..n], id);
    assert !HasId(tail, id) by {
      forall j | 0 <= j < |tail|
        ensures tail[j].id != id
      {
        assert tail[j] == s[n + 1 + j];
        assert !HasId(s[..n + 1 + j], s[n + 1 + j].id);
        assert s[..n + 1 + j][n] == s[n];
      }
    }
    DeleteOnly(s[..n], s[n], tail);
  }

  /** Removing row `n` keeps the rows after it fresh. */
  lemma FreshAfterRemoval<T>(s: Table<T>, n: nat)
    requires n < |s|
    requires FreshFrom(s, n)
    ensures FreshFrom(s[..n] + s[n + 1..], n)
  {
    var next := s[..n] + s[n + 1..];
    forall k | n <= k < |next|
      ensures !HasId(next[..k], next[k].id)
    {
      assert next[k] == s[k + 1];
      assert !HasId(s[..k + 1], s[k + 1].id);
      forall j | 0 <= j < k
        ensures next[..k][j].id != next[k].id
      {
        if j < n {
          assert next[..k][j] == s[..k + 1][j];
        } else {
          assert next[..k][j] == s[..k + 1][j + 1];
        }
      }
    }
  }

  /** Deleting, in order, the rows fresh from `n` on removes exactly them. */
  lemma {:induction false} DeleteEachFresh<T>(s: Table<T>, n: nat)
    requires n <= |s|
    requires FreshFrom(s, n)
    ensures DeleteEach(s, s[n..]) == s[..n]
    decreases |s| - n
  {
    if n < |s| {
      var next := s[..n] + s[n + 1..];
      DeleteFresh(s, n);
      FreshAfterRemoval(s, n);
      assert s[n..][1..] == next[n..];
      DeleteEachFresh(next, n);
      assert next[..n] == s[..n];
    } else {
      assert s[n..] == [];
    }
  }

  /** The number of rows satisfying `p`: what `query(…).length` and
      `filter(…).length` report. */
  function CountWhere<T>(t: Table<T>, p: Row<T> -> bool): nat {
    if |t| == 0 then 0
    else (if p(t[0]) then 1 else 0) + CountWhere(t[1..], p)
  }

  /** `query` keeps exactly the rows `CountWhere` counts. */
  lemma {:induction false} QueryCounts<T>(t: Table<T>, p: Row<T> -> bool)
    ensures |Query(t, p)| == CountWhere(t, p)
  {
    if |t| > 0 {
      QueryCounts(t[1..], p);
    }
  }

  /** Some row is counted exactly when some row satisfies `p`. */
  lemma {:induction false} CountWherePositive<T>(t: Table<T>, p: Row<T> -> bool)
    ensures CountWhere(t, p) > 0 <==> exists i :: 0 <= i < |t| && p(t[i])
  {
    if |t| > 0 {
      CountWherePositive(t[1..], p);
      if !p(t[0]) && CountWhere(t, p) > 0 {
        var i :| 0 <= i < |t[1..]| && p(t[1..][i]);
        assert p(t[i + 1]);
      }
      if exists i :: 0 <= i < |t| && p(t[i]) {
        var i :| 0 <= i < |t| && p(t[i]);
        if i > 0 {
          assert p(t[1..][i - 1]);
        }
      }
    }
  }

  /** A filter that is the disjoint union of two others counts their sum. */
  lemma {:induction false} CountWhereSplit<T>(t: Table<T>, p: Row<T> -> bool, q: Row<T> -> bool, r: Row<T> -> bool)
    requires forall i :: 0 <= i < |t| ==> (p(t[i]) <==> q(t[i]) || r(t[i]))
    requires forall i :: 0 <= i < |t| ==> !(q(t[i]) && r(t[i]))
    ensures CountWhere(t, p) == CountWhere(t, q) + CountWhere(t, r)
  {
    if |t| > 0 {
      assert forall i :: 0 <= i < |t[1..]| ==> t[1..][i] == t[i + 1];
      CountWhereSplit(t[1..], p, q, r);
    }
  }

  /** A sheet the workbook does not have yet starts numbering at 1. */
  lemma MissingSheetStartsAtOne<T>(book: map<string, Table<T>>, sheet: string, data: T, now: Time)
    requires sheet !in book
    ensures Insert(GetAll(book, sheet), data, now).id == 1
  {
  }
}
