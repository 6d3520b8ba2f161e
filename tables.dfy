/** The relational tables the backend writes, as sequences of rows in insertion order.
    Every table has an auto-increment primary key; the queries the handlers run
    (`ORDER BY id DESC LIMIT 1`, `ORDER BY t DESC`, `DELETE ... WHERE id = ?`)
    become the functions below. */
module Tables {
  import opened Common

  /** One row: its auto-increment primary key and its other columns. */
  datatype Row<T> = Row(id: nat, data: T)

  function RowId<T>(r: Row<T>): int {
    r.id
  }

  /** Ids grow with insertion order, start at 1 and stay below the next auto-increment value. */
  ghost predicate WellFormed<T>(rows: seq<Row<T>>, next: nat) {
    && (forall i, j :: 0 <= i < j < |rows| ==> rows[i].id < rows[j].id)
    && (forall i :: 0 <= i < |rows| ==> 1 <= rows[i].id < next)
  }

  /** `INSERT`: the new row takes the next auto-increment id. */
  function Insert<T>(rows: seq<Row<T>>, next: nat, data: T): seq<Row<T>> {
    rows + [Row(next, data)]
  }

  lemma InsertWellFormed<T>(rows: seq<Row<T>>, next: nat, data: T)
    requires WellFormed(rows, next) && next >= 1
    ensures WellFormed(Insert(rows, next, data), next + 1)
  {
  }

  /** `ORDER BY key DESC LIMIT 1`: a row with the greatest key, nothing for an empty table.
      The database may return any of several rows sharing the greatest key; this function fixes
      one choice, the latest-inserted, and only a strict maximum is relied on elsewhere. */
  function MaxBy<T>(rows: seq<T>, key: T -> int): (r: Option<T>)
    ensures r.None? <==> |rows| == 0
    ensures r.Some? ==> r.value in rows && forall i :: 0 <= i < |rows| ==> key(rows[i]) <= key(r.value)
  {
    if |rows| == 0 then None
    else
      var last := rows[|rows| - 1];
      var init := MaxBy(rows[..|rows| - 1], key);
      assert rows == rows[..|rows| - 1] + [last];
      if init.Some? && key(init.value) > key(last) then init else Some(last)
  }

  /** In a well-formed table the greatest id belongs to the most recently inserted row. */
  lemma LatestIsLastInserted<T>(rows: seq<Row<T>>, next: nat)
    requires WellFormed(rows, next) && |rows| > 0
    ensures MaxBy(rows, RowId) == Some(rows[|rows| - 1])
  {
    var init := rows[..|rows| - 1];
    var m := MaxBy(init, RowId);
    if m.Some? {
      var k :| 0 <= k < |init| && init[k] == m.value;
      assert rows[k] == m.value;
    }
  }

  /** Read-after-write: right after an insert, the greatest-id read returns the new row. */
  lemma ReadAfterInsert<T>(rows: seq<Row<T>>, next: nat, data: T)
    requires WellFormed(rows, next) && next >= 1
    ensures MaxBy(Insert(rows, next, data), RowId) == Some(Row(next, data))
  {
    InsertWellFormed(rows, next, data);
    LatestIsLastInserted(Insert(rows, next, data), next + 1);
  }

  /** Appending a row whose key exceeds every earlier key makes it the `ORDER BY key DESC LIMIT 1`
      row, whichever row the database picks among equal keys. */
  lemma MaxByAppendGreatest<T>(rows: seq<T>, x: T, key: T -> int)
    requires forall i :: 0 <= i < |rows| ==> key(rows[i]) < key(x)
    ensures MaxBy(rows + [x], key) == Some(x)
  {
    assert (rows + [x])[..|rows|] == rows;
    var m := MaxBy(rows, key);
    if m.Some? {
      var k :| 0 <= k < |rows| && rows[k] == m.value;
    }
  }

  predicate HasId<T>(rows: seq<Row<T>>, id: int) {
    exists i :: 0 <= i < |rows| && rows[i].id == id
  }

  /** `DELETE FROM t WHERE id = ?`: every row with that id goes, the others stay in order. */
  function RemoveId<T>(rows: seq<Row<T>>, id: int): (r: seq<Row<T>>)
    ensures forall i :: 0 <= i < |r| ==> r[i] in rows && r[i].id != id
    ensures forall i :: 0 <= i < |rows| && rows[i].id != id ==> rows[i] in r
    ensures |r| <= |rows|
  {
    if |rows| == 0 then []
    else (if rows[0].id == id then [] else [rows[0]]) + RemoveId(rows[1..], id)
  }

  /** Deleting distributes over concatenation, so the surviving rows keep their relative order. */
  lemma {:induction false} RemoveIdConcat<T>(a: seq<Row<T>>, b: seq<Row<T>>, id: int)
    ensures RemoveId(a + b, id) == RemoveId(a, id) + RemoveId(b, id)
  {
    if |a| > 0 {
      assert (a + b)[1..] == a[1..] + b;
      RemoveIdConcat(a[1..], b, id);
    } else {
      assert a + b == b;
    }
  }

  /** Deleting an id no row has changes nothing; in particular a repeated delete is a no-op. */
  lemma {:induction false} RemoveIdAbsent<T>(rows: seq<Row<T>>, id: int)
    requires !HasId(rows, id)
    ensures RemoveId(rows, id) == rows
  {
    if |rows| > 0 {
      assert !HasId(rows[1..], id);
      RemoveIdAbsent(rows[1..], id);
      assert rows == [rows[0]] + rows[1..];
    }
  }

  /** After a delete, no row with that id is left. */
  lemma RemoveIdGone<T>(rows: seq<Row<T>>, id: int)
    ensures !HasId(RemoveId(rows, id), id)
  {
  }

  /** With unique ids, deleting a present id removes exactly one row. */
  lemma {:induction false} RemoveIdOne<T>(rows: seq<Row<T>>, next: nat, id: int)
    requires WellFormed(rows, next) && HasId(rows, id)
    ensures |RemoveId(rows, id)| == |rows| - 1
  {
    if rows[0].id == id {
      assert !HasId(rows[1..], id);
      RemoveIdAbsent(rows[1..], id);
    } else {
      var i :| 0 <= i < |rows| && rows[i].id == id;
      assert rows[1..][i - 1].id == id;
      RemoveIdOne(rows[1..], next, id);
    }
  }

  /** Deleting never brings in a row with a smaller id than the table had. */
  lemma RemoveIdKeepsLowerBound<T>(rows: seq<Row<T>>, lo: int, id: int)
    requires forall i :: 0 <= i < |rows| ==> lo < rows[i].id
    ensures forall j :: 0 <= j < |RemoveId(rows, id)| ==> lo < RemoveId(rows, id)[j].id
  {
    var r := RemoveId(rows, id);
    forall j | 0 <= j < |r| ensures lo < r[j].id {
      var k :| 0 <= k < |rows| && rows[k] == r[j];
    }
  }

  lemma ConsWellFormed<T>(x: Row<T>, tail: seq<Row<T>>, next: nat)
    requires WellFormed(tail, next) && 1 <= x.id < next
    requires forall j :: 0 <= j < |tail| ==> x.id < tail[j].id
    ensures WellFormed([x] + tail, next)
  {
  }

  lemma {:induction false} RemoveIdWellFormed<T>(rows: seq<Row<T>>, next: nat, id: int)
    requires WellFormed(rows, next)
    ensures WellFormed(RemoveId(rows, id), next)
  {
    if |rows| > 0 {
      assert WellFormed(rows[1..], next);
      RemoveIdWellFormed(rows[1..], next, id);
      RemoveIdKeepsLowerBound(rows[1..], rows[0].id, id);
      if rows[0].id != id {
        ConsWellFormed(rows[0], RemoveId(rows[1..], id), next);
      }
    }
  }

  predicate SortedDesc<T>(s: seq<T>, key: T -> int) {
    forall i, j :: 0 <= i < j < |s| ==> key(s[i]) >= key(s[j])
  }

  /** Places `x` in a descending sequence, before the elements with an equal key. */
  function InsertDesc<T>(x: T, s: seq<T>, key: T -> int): (r: seq<T>)
    requires SortedDesc(s, key)
    ensures SortedDesc(r, key)
    ensures multiset(r) == multiset(s) + multiset{x}
  {
    if |s| == 0 then [x]
    else if key(x) >= key(s[0]) then [x] + s
    else
      var rest := InsertDesc(x, s[1..], key);
      assert s == [s[0]] + s[1..];
      assert forall j :: 0 <= j < |rest| ==> key(s[0]) >= key(rest[j]) by {
        forall j | 0 <= j < |rest| ensures key(s[0]) >= key(rest[j]) {
          assert rest[j] in multiset(rest);
          if rest[j] != x {
            assert rest[j] in multiset(s[1..]);
            var k :| 0 <= k < |s[1..]| && s[1..][k] == rest[j];
            assert s[k + 1] == rest[j];
          }
        }
      }
      [s[0]] + rest
  }

  /** `ORDER BY key DESC`: the same rows, newest key first. */
  function SortDesc<T>(s: seq<T>, key: T -> int): (r: seq<T>)
    ensures SortedDesc(r, key)
    ensures multiset(r) == multiset(s)
  {
    if |s| == 0 then []
    else
      assert s == [s[0]] + s[1..];
      InsertDesc(s[0], SortDesc(s[1..], key), key)
  }

  /** The position of the first row a `SELECT ... WHERE` condition picks, in table order. */
  function FirstWhere<T>(rows: seq<T>, p: T -> bool): (k: Option<nat>)
    ensures k.Some? ==> k.value < |rows| && p(rows[k.value])
    ensures k.Some? ==> forall j :: 0 <= j < k.value ==> !p(rows[j])
    ensures k.None? <==> forall j :: 0 <= j < |rows| ==> !p(rows[j])
  {
    if |rows| == 0 then None
    else if p(rows[0]) then Some(0)
    else match FirstWhere(rows[1..], p)
      case None => None
      case Some(k) => Some(k + 1)
  }

  /** Scans the table for the first row satisfying `p`, as the driver returns `rows[0]`. */
  method SelectFirst<T>(rows: seq<T>, p: T -> bool) returns (k: Option<nat>)
    ensures k == FirstWhere(rows, p)
  {
    var i := 0;
    while i < |rows|
      invariant 0 <= i <= |rows|
      invariant forall j :: 0 <= j < i ==> !p(rows[j])
    {
      if p(rows[i]) {
        k := Some(i);
        FirstWhereUnique(rows, p, i);
        return;
      }
      i := i + 1;
    }
    k := None;
  }

  /** Any position that satisfies `p` and follows only rows that do not is the first match. */
  lemma FirstWhereUnique<T>(rows: seq<T>, p: T -> bool, i: nat)
    requires i < |rows| && p(rows[i])
    requires forall j :: 0 <= j < i ==> !p(rows[j])
    ensures FirstWhere(rows, p) == Some(i)
  {
  }

  /** The number of deleted rows (`affectedRows`) is zero exactly when no row had the id. */
  lemma RemoveIdAbsentSize<T>(rows: seq<Row<T>>, id: int)
    ensures !HasId(rows, id) <==> |RemoveId(rows, id)| == |rows|
  {
    if !HasId(rows, id) {
      RemoveIdAbsent(rows, id);
    } else {
      RemoveIdShrinks(rows, id);
    }
  }

  lemma {:induction false} RemoveIdShrinks<T>(rows: seq<Row<T>>, id: int)
    requires HasId(rows, id)
    ensures |RemoveId(rows, id)| < |rows|
  {
    if rows[0].id != id {
      var i :| 0 <= i < |rows| && rows[i].id == id;
      assert rows[1..][i - 1].id == id;
      RemoveIdShrinks(rows[1..], id);
    } else {
      assert |RemoveId(rows[1..], id)| <= |rows[1..]|;
    }
  }
}
