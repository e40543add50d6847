/**
 * The JPA repositories as in-memory tables. Every entity has an IDENTITY key:
 * the database hands out increasing ids and, in this system, never deletes a
 * row, so a table is a map from id to record plus the next id to hand out.
 */
module Tables {

  import opened Results

  type Id = nat

  datatype Table<T> = Table(rows: map<Id, T>, nextId: Id) {

    /** Every stored id was handed out earlier. */
    ghost predicate Valid() {
      forall id :: id in rows ==> id < nextId
    }

    /** `repo.save(row)` for a new row: it gets the next id. */
    function Insert(row: T): Table<T> {
      Table(rows[nextId := row], nextId + 1)
    }

    /** `repo.save(row)` for a row loaded by `findById(id)`. */
    function Put(id: Id, row: T): Table<T>
      requires id in rows
    {
      Table(rows[id := row], nextId)
    }
  }

  /** A table no row has been saved into yet; IDENTITY starts at 1. */
  function Empty<T>(): (t: Table<T>)
    ensures t.Valid() && t.rows == map[]
  {
    Table(map[], 1)
  }

  predicate Decreasing(ids: seq<Id>) {
    forall i, j :: 0 <= i < j < |ids| ==> ids[i] > ids[j]
  }

  predicate Increasing(ids: seq<Id>) {
    forall i, j :: 0 <= i < j < |ids| ==> ids[i] < ids[j]
  }

  /** The ids below `n` whose rows satisfy `p`, largest first: a query with
      `ORDER BY id DESC`. */
  function SelectDescending<T>(rows: map<Id, T>, n: nat, p: T -> bool): (ids: seq<Id>)
    ensures forall id :: id in ids <==> id in rows && id < n && p(rows[id])
    ensures Decreasing(ids)
  {
    if n == 0 then []
    else if n - 1 in rows && p(rows[n - 1]) then
      var rest := SelectDescending(rows, n - 1, p);
      forall k | 0 <= k < |rest| ensures rest[k] < n - 1 {
        assert rest[k] in rest;
      }
      [n - 1] + rest
    else SelectDescending(rows, n - 1, p)
  }

  /** The ids below `n` whose rows satisfy `p`, smallest first: a query
      without `ORDER BY`, read in key order. */
  function SelectAscending<T>(rows: map<Id, T>, n: nat, p: T -> bool): (ids: seq<Id>)
    ensures forall id :: id in ids <==> id in rows && id < n && p(rows[id])
    ensures Increasing(ids)
  {
    if n == 0 then []
    else if n - 1 in rows && p(rows[n - 1]) then
      var rest := SelectAscending(rows, n - 1, p);
      forall k | 0 <= k < |rest| ensures rest[k] < n - 1 {
        assert rest[k] in rest;
      }
      rest + [n - 1]
    else SelectAscending(rows, n - 1, p)
  }

  /** An id list without repeats that holds exactly the ids of `keys` has
      one entry per key. */
  lemma {:induction false} ListedOnce(ids: seq<Id>, keys: set<Id>)
    requires forall i, j :: 0 <= i < j < |ids| ==> ids[i] != ids[j]
    requires forall id :: id in ids <==> id in keys
    ensures |ids| == |keys|
  {
    if ids != [] {
      var rest := ids[1..];
      assert forall i, j :: 0 <= i < j < |rest| ==> rest[i] != rest[j] by {
        forall i, j | 0 <= i < j < |rest| ensures rest[i] != rest[j] {
          assert rest[i] == ids[i + 1] && rest[j] == ids[j + 1];
        }
      }
      forall id ensures id in rest <==> id in keys - {ids[0]} {
        if id in rest {
          var i :| 0 <= i < |rest| && rest[i] == id;
          assert ids[i + 1] == id;
        }
      }
      ListedOnce(rest, keys - {ids[0]});
    }
  }

  /** `findAll(Sort.by(DESC, "id"))` restricted to the rows satisfying `p`. */
  function NewestFirst<T>(t: Table<T>, p: T -> bool): (ids: seq<Id>)
    requires t.Valid()
    ensures forall id :: id in ids <==> id in t.rows && p(t.rows[id])
    ensures Decreasing(ids)
  {
    SelectDescending(t.rows, t.nextId, p)
  }

  /** `findAll()` restricted to the rows satisfying `p`, in key order. */
  function InKeyOrder<T>(t: Table<T>, p: T -> bool): (ids: seq<Id>)
    requires t.Valid()
    ensures forall id :: id in ids <==> id in t.rows && p(t.rows[id])
    ensures Increasing(ids)
  {
    SelectAscending(t.rows, t.nextId, p)
  }

  function All<T>(row: T): bool { true }

  /** Listing a whole table, in either order, yields one id per row. */
  lemma ListAllCount<T>(t: Table<T>)
    requires t.Valid()
    ensures |InKeyOrder(t, All)| == |t.rows|
    ensures |NewestFirst(t, All)| == |t.rows|
  {
    ListedOnce(InKeyOrder(t, All), t.rows.Keys);
    ListedOnce(NewestFirst(t, All), t.rows.Keys);
  }

  /** A column declared `unique = true`: no two rows share a key. */
  ghost predicate Unique<T, K>(t: Table<T>, key: T -> K) {
    forall i, j :: i in t.rows && j in t.rows && key(t.rows[i]) == key(t.rows[j]) ==> i == j
  }

  /** Re-saving a row with its key unchanged keeps the column unique. */
  lemma PutKeepsUnique<T, K>(t: Table<T>, key: T -> K, id: Id, row: T)
    requires id in t.rows && Unique(t, key) && key(row) == key(t.rows[id])
    ensures Unique(t.Put(id, row), key)
  {
    var u := t.Put(id, row);
    forall i, j | i in u.rows && j in u.rows && key(u.rows[i]) == key(u.rows[j])
      ensures i == j
    {
      assert key(u.rows[i]) == key(t.rows[i]) && key(u.rows[j]) == key(t.rows[j]);
    }
  }

  /** Saving a new row whose key no row has yet keeps the column unique. */
  lemma InsertKeepsUnique<T, K>(t: Table<T>, key: T -> K, row: T)
    requires t.Valid() && Unique(t, key) && !Taken(t, key, key(row))
    ensures Unique(t.Insert(row), key)
  {
    var u := t.Insert(row);
    assert forall i :: i in t.rows ==> key(u.rows[i]) == key(t.rows[i]) != key(row);
  }

  /** Some row has key `k` (`existsByX`). */
  predicate Taken<T, K(==)>(t: Table<T>, key: T -> K, k: K) {
    exists id | id in t.rows :: key(t.rows[id]) == k
  }

  /** `findByX(k)` on a unique column: the one row with key `k`, if any. */
  function FindBy<T, K(==)>(t: Table<T>, key: T -> K, k: K): (r: Option<Id>)
    requires t.Valid() && Unique(t, key)
    ensures r.None? <==> !Taken(t, key, k)
    ensures r.Some? ==> r.value in t.rows && key(t.rows[r.value]) == k
    ensures r.Some? ==> forall id :: id in t.rows && key(t.rows[id]) == k ==> id == r.value
  {
    var ids := InKeyOrder(t, (row: T) => key(row) == k);
    assert forall id :: id in t.rows && key(t.rows[id]) == k ==> id in ids;
    if ids == [] then
      assert forall id :: id in t.rows ==> key(t.rows[id]) != k;
      None
    else Some(ids[0])
  }

  /** What a single-result finder on a column without a unique constraint
      yields: no row, one row, or several (which Spring Data reports as an
      incorrect result size). */
  datatype Lookup = NoRow | OneRow(id: Id) | SeveralRows

  function LookupBy<T, K(==)>(t: Table<T>, key: T -> K, k: K): (r: Lookup)
    requires t.Valid()
    ensures r.NoRow? <==> !Taken(t, key, k)
    ensures r.OneRow? ==> r.id in t.rows && key(t.rows[r.id]) == k
    ensures r.OneRow? ==> forall id :: id in t.rows && key(t.rows[id]) == k ==> id == r.id
    ensures r.SeveralRows? <==> exists i, j :: i in t.rows && j in t.rows && i != j
                                             && key(t.rows[i]) == k && key(t.rows[j]) == k
  {
    var ids := InKeyOrder(t, (row: T) => key(row) == k);
    assert forall id :: id in t.rows && key(t.rows[id]) == k ==> id in ids;
    if ids == [] then NoRow
    else if |ids| == 1 then
      assert ids[0] in ids && forall id :: id in ids ==> id == ids[0];
      OneRow(ids[0])
    else
      assert ids[0] in ids && ids[1] in ids && ids[0] != ids[1];
      SeveralRows
  }

  /** `repo.saveAll(rows)` of new rows: they get consecutive ids, in order,
      and the rows already stored keep theirs. */
  function InsertAll<T>(t: Table<T>, rows: seq<T>): (r: Table<T>)
    requires t.Valid()
    ensures r.Valid()
    ensures r.nextId == t.nextId + |rows|
    ensures forall id :: id in r.rows <==> id in t.rows || t.nextId <= id < t.nextId + |rows|
    ensures forall id :: id in t.rows ==> r.rows[id] == t.rows[id]
    ensures forall i :: 0 <= i < |rows| ==> r.rows[t.nextId + i] == rows[i]
  {
    if rows == [] then t
    else
      var before := InsertAll(t, rows[..|rows| - 1]);
      assert forall i :: 0 <= i < |rows| - 1 ==> rows[..|rows| - 1][i] == rows[i];
      before.Insert(rows[|rows| - 1])
  }

  /** `saveAll` as the repository runs it: one insert per row, in order. */
  method SaveEach<T>(t: Table<T>, rows: seq<T>) returns (r: Table<T>)
    requires t.Valid()
    ensures r == InsertAll(t, rows)
  {
    r := t;
    var i := 0;
    while i < |rows|
      invariant 0 <= i <= |rows|
      invariant r == InsertAll(t, rows[..i])
    {
      assert rows[..i + 1][..i] == rows[..i];
      r := r.Insert(rows[i]);
      i := i + 1;
    }
    assert rows[..i] == rows;
  }

  /** Saving `n` new rows adds exactly `n` rows. */
  lemma {:induction false} InsertAllCount<T>(t: Table<T>, rows: seq<T>)
    requires t.Valid()
    ensures |InsertAll(t, rows).rows| == |t.rows| + |rows|
  {
    if rows != [] {
      var init := rows[..|rows| - 1];
      InsertAllCount(t, init);
      var before := InsertAll(t, init);
      assert before.nextId !in before.rows;
    }
  }
}
