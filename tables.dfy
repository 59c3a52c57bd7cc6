/** In-memory relational tables.

    A table is the sequence of its rows in rowid order, which is the order in
    which an unordered query returns them. Every row carries its integer
    primary key. New rows get SQLite's rowid: one more than the largest id in
    the table, or 1 for an empty table; so a table built by inserts and
    deletes stays strictly ascending by id, which is also what makes the
    primary key unique. */
module Tables {
  import opened Wrappers

  datatype Row<T> = Row(id: int, val: T)

  type Table<T> = seq<Row<T>>

  /** Ids strictly increase along the table: ids are unique and the order is rowid order. */
  ghost predicate Ascending<T>(t: Table<T>) {
    forall i, j :: 0 <= i < j < |t| ==> t[i].id < t[j].id
  }

  predicate HasId<T>(t: Table<T>, id: int) {
    exists i :: 0 <= i < |t| && t[i].id == id
  }

  /** Position of the first row with primary key `id` (a lookup by primary key). */
  function Find<T>(t: Table<T>, id: int): (r: Option<nat>)
    ensures r.Some? ==> r.value < |t| && t[r.value].id == id
    ensures r.Some? ==> forall j :: 0 <= j < r.value ==> t[j].id != id
    ensures r.None? <==> !HasId(t, id)
  {
    if |t| == 0 then None
    else if t[0].id == id then Some(0)
    else match Find(t[1..], id)
      case None => assert forall j :: 1 <= j < |t| ==> t[j] == t[1..][j - 1]; None
      case Some(k) => Some(k + 1)
  }

  /** The record stored under primary key `id` (`Model.query.get(id)`). */
  function Get<T>(t: Table<T>, id: int): (r: Option<T>)
    ensures r.Some? <==> HasId(t, id)
    ensures r.Some? ==> Row(id, r.value) in t
  {
    match Find(t, id)
    case None => None
    case Some(i) => Some(t[i].val)
  }

  /** The largest id of a non-empty table. */
  function MaxId<T>(t: Table<T>): (m: int)
    requires |t| > 0
    ensures forall i :: 0 <= i < |t| ==> t[i].id <= m
    ensures HasId(t, m)
  {
    if |t| == 1 then t[0].id
    else
      var rest := MaxId(t[1..]);
      assert forall i :: 1 <= i < |t| ==> t[i] == t[1..][i - 1];
      if t[0].id > rest then t[0].id else rest
  }

  /** SQLite's rowid for the next insert: above every id in the table, and
      either 1 (empty table) or exactly one more than an existing id. */
  function NextId<T>(t: Table<T>): (r: int)
    ensures forall i :: 0 <= i < |t| ==> t[i].id < r
    ensures (|t| == 0 && r == 1) || (|t| > 0 && HasId(t, r - 1))
  {
    if |t| == 0 then 1 else MaxId(t) + 1
  }

  /** `db.session.add(v)`: the table with one new row under a fresh id. */
  function Insert<T>(t: Table<T>, v: T): (r: Table<T>)
    ensures |r| == |t| + 1 && r[..|t|] == t
    ensures r[|t|] == Row(NextId(t), v) && !HasId(t, NextId(t))
  {
    t + [Row(NextId(t), v)]
  }

  /** `db.session.delete(...)` of the row with primary key `id`. */
  function WithoutId<T>(t: Table<T>, id: int): (r: Table<T>)
    ensures forall row :: row in r ==> row in t && row.id != id
    ensures forall row :: row in t && row.id != id ==> row in r
    ensures |r| <= |t|
  {
    if |t| == 0 then []
    else (if t[0].id == id then [] else [t[0]]) + WithoutId(t[1..], id)
  }

  /** Field assignment on the row with primary key `id`: its record becomes `v`. */
  function Replace<T>(t: Table<T>, id: int, v: T): (r: Table<T>)
    ensures |r| == |t|
    ensures forall i :: 0 <= i < |t| ==> r[i].id == t[i].id
    ensures forall i :: 0 <= i < |t| && t[i].id != id ==> r[i] == t[i]
    ensures forall i :: 0 <= i < |t| && t[i].id == id ==> r[i].val == v
  {
    if |t| == 0 then []
    else [if t[0].id == id then Row(id, v) else t[0]] + Replace(t[1..], id, v)
  }

  // ---------------------------------------------------------------------
  // The table seen as a map from primary key to record.

  lemma {:induction false} AscendingGet<T>(t: Table<T>, row: Row<T>)
    requires Ascending(t) && row in t
    ensures Get(t, row.id) == Some(row.val)
  {
    var i :| 0 <= i < |t| && t[i] == row;
    assert forall j :: 0 <= j < |t| && j != i ==> t[j].id != row.id;
  }

  /** An insert makes the new id map to the new record and leaves every other id alone. */
  lemma InsertGet<T>(t: Table<T>, v: T, id: int)
    ensures Get(Insert(t, v), id) == if id == NextId(t) then Some(v) else Get(t, id)
  {
    var r := Insert(t, v);
    if id == NextId(t) {
      assert r[|t|] == Row(id, v);
      var k := Find(r, id).value;
      assert k == |t|;
    } else if HasId(t, id) {
      var k := Find(t, id).value;
      assert r[k] == t[k];
      assert Find(r, id) == Some(k);
    } else {
      assert !HasId(r, id);
    }
  }

  lemma {:induction false} InsertAscending<T>(t: Table<T>, v: T)
    requires Ascending(t)
    ensures Ascending(Insert(t, v))
  {
  }

  /** Deleting by index in an ascending table is deleting by primary key. */
  lemma RemoveAt<T>(t: Table<T>, i: nat)
    requires Ascending(t) && i < |t|
    ensures t[..i] + t[i + 1..] == WithoutId(t, t[i].id)
    ensures Ascending(WithoutId(t, t[i].id))
    ensures |WithoutId(t, t[i].id)| == |t| - 1
  {
    assert forall j :: 0 <= j < |t| && j != i ==> t[j].id != t[i].id;
    RemoveAtSplice(t, i);
    WithoutIdAscending(t, t[i].id);
  }

  lemma {:induction false} RemoveAtSplice<T>(t: Table<T>, i: nat)
    requires i < |t| && forall j :: 0 <= j < |t| && j != i ==> t[j].id != t[i].id
    ensures t[..i] + t[i + 1..] == WithoutId(t, t[i].id)
  {
    var id := t[i].id;
    if i == 0 {
      NoSuchId(t[1..], id);
      assert t[..0] + t[1..] == t[1..];
    } else {
      var tail := t[1..];
      assert tail[i - 1] == t[i];
      RemoveAtSplice(tail, i - 1);
      assert t[0].id != id;
      assert WithoutId(t, id) == [t[0]] + WithoutId(tail, id);
      SpliceFirst(t, i);
    }
  }

  lemma SpliceFirst<T>(t: seq<T>, i: nat)
    requires 0 < i < |t|
    ensures t[..i] + t[i + 1..] == [t[0]] + (t[1..][..i - 1] + t[1..][i..])
  {
    assert t[..i] == [t[0]] + t[1..][..i - 1];
    assert t[i + 1..] == t[1..][i..];
  }

  lemma {:induction false} NoSuchId<T>(t: Table<T>, id: int)
    requires forall j :: 0 <= j < |t| ==> t[j].id != id
    ensures WithoutId(t, id) == t
  {
    if |t| > 0 {
      NoSuchId(t[1..], id);
      assert t == [t[0]] + t[1..];
    }
  }

  /** After a delete the id maps to nothing and every other id is unchanged. */
  lemma {:induction false} WithoutIdGet<T>(t: Table<T>, id: int, other: int)
    requires Ascending(t)
    ensures Get(WithoutId(t, id), id) == None
    ensures other != id ==> Get(WithoutId(t, id), other) == Get(t, other)
  {
    var r := WithoutId(t, id);
    assert forall k :: 0 <= k < |r| ==> r[k] in r;
    WithoutIdAscending(t, id);
    if other != id {
      if HasId(t, other) {
        var k := Find(t, other).value;
        assert t[k] in r;
        AscendingGet(r, t[k]);
      } else {
        assert forall k :: 0 <= k < |r| ==> r[k] in t;
      }
    }
  }

  lemma {:induction false} WithoutIdAscending<T>(t: Table<T>, id: int)
    requires Ascending(t)
    ensures Ascending(WithoutId(t, id))
  {
    if |t| > 0 {
      WithoutIdAscending(t[1..], id);
      var rest := WithoutId(t[1..], id);
      forall row | row in rest ensures t[0].id < row.id {
        var j :| 0 <= j < |t[1..]| && t[1..][j] == row;
        assert t[j + 1] == row;
      }
    }
  }

  /** A field assignment changes the record under `id` and nothing else. */
  lemma {:induction false} ReplaceGet<T>(t: Table<T>, id: int, v: T, other: int)
    requires Ascending(t) && HasId(t, id)
    ensures Ascending(Replace(t, id, v))
    ensures Get(Replace(t, id, v), id) == Some(v)
    ensures other != id ==> Get(Replace(t, id, v), other) == Get(t, other)
  {
    var r := Replace(t, id, v);
    var i := Find(t, id).value;
    assert r[i] == Row(id, v);
    AscendingGet(r, r[i]);
    if other != id {
      if HasId(t, other) {
        var k := Find(t, other).value;
        assert r[k] == t[k];
        AscendingGet(r, r[k]);
      } else {
        assert !HasId(r, other);
      }
    }
  }

  /** Assigning the row found at position `i` is `Replace` of its primary key. */
  lemma UpdateAt<T>(t: Table<T>, i: nat, v: T)
    requires Ascending(t) && i < |t|
    ensures t[i := Row(t[i].id, v)] == Replace(t, t[i].id, v)
  {
    var r := Replace(t, t[i].id, v);
    assert forall k :: 0 <= k < |t| && k != i ==> t[k].id != t[i].id;
    assert forall k :: 0 <= k < |t| ==> r[k] == t[i := Row(t[i].id, v)][k];
  }
}
