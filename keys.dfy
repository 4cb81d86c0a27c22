/**
 * Tables whose rows carry an integer primary key, as both applications keep
 * them: the order of an id sequence, lookup by key (`Model.query.get(id)`),
 * deletion by key, and updates that keep every row's key.
 */
module Keys {
  import opened Wrappers
  import opened PyOps

  /** Keys strictly increase along the table, as ids drawn from a sequence do. */
  predicate InKeyOrder<T>(rows: seq<T>, key: T -> int) {
    forall i, j :: 0 <= i < j < |rows| ==> key(rows[i]) < key(rows[j])
  }

  predicate UniqueKeys<T>(rows: seq<T>, key: T -> int) {
    forall i, j :: 0 <= i < |rows| && 0 <= j < |rows| && i != j ==> key(rows[i]) != key(rows[j])
  }

  predicate HasKey<T>(rows: seq<T>, key: T -> int, id: int) {
    exists i :: 0 <= i < |rows| && key(rows[i]) == id
  }

  /** Where the row with this primary key sits, if there is one. */
  function IndexOf<T>(rows: seq<T>, key: T -> int, id: int): (k: Option<nat>)
    ensures k.Some? ==> k.value < |rows| && key(rows[k.value]) == id
    ensures k.None? ==> forall i :: 0 <= i < |rows| ==> key(rows[i]) != id
  {
    if rows == [] then None
    else if key(rows[0]) == id then Some(0)
    else match IndexOf(rows[1..], key, id)
      case None => None
      case Some(k) => Some(k + 1)
  }

  /** `Model.query.get(id)`: the row with this primary key, or None. */
  function Get<T>(rows: seq<T>, key: T -> int, id: int): Option<T> {
    match IndexOf(rows, key, id)
    case None => None
    case Some(k) => Some(rows[k])
  }

  /** The rows a `DELETE ... WHERE id = ...` leaves. */
  function KeyIsNot<T>(key: T -> int, id: int): T -> bool {
    (x: T) => key(x) != id
  }

  lemma InKeyOrderIsUnique<T>(rows: seq<T>, key: T -> int)
    requires InKeyOrder(rows, key)
    ensures UniqueKeys(rows, key)
  {
    forall i, j | 0 <= i < |rows| && 0 <= j < |rows| && i != j
      ensures key(rows[i]) != key(rows[j])
    {
      if i < j { assert key(rows[i]) < key(rows[j]); } else { assert key(rows[j]) < key(rows[i]); }
    }
  }

  /** Filtering a table with unique keys keeps them unique. */
  lemma {:induction false} UniqueKeysOfFilter<T>(rows: seq<T>, key: T -> int, keep: T -> bool)
    requires UniqueKeys(rows, key)
    ensures UniqueKeys(Filter(rows, keep), key)
    decreases |rows|
  {
    if rows != [] {
      var tail := rows[1..];
      assert UniqueKeys(tail, key) by {
        forall i, j | 0 <= i < |tail| && 0 <= j < |tail| && i != j
          ensures key(tail[i]) != key(tail[j])
        {
          assert tail[i] == rows[i + 1] && tail[j] == rows[j + 1];
        }
      }
      UniqueKeysOfFilter(tail, key, keep);
      var rest := Filter(tail, keep);
      forall x | x in rest ensures key(x) != key(rows[0]) {
        var k :| 0 <= k < |tail| && tail[k] == x;
        assert rows[k + 1] == x;
      }
      if keep(rows[0]) {
        var r := [rows[0]] + rest;
        assert Filter(rows, keep) == r;
        forall i, j | 0 <= i < |r| && 0 <= j < |r| && i != j
          ensures key(r[i]) != key(r[j])
        {
          if i > 0 { assert r[i] == rest[i - 1]; }
          if j > 0 { assert r[j] == rest[j - 1]; }
        }
      } else {
        assert Filter(rows, keep) == rest;
      }
    }
  }

  /** Dropping the last row keeps keys unique, and no earlier row shares the last one's key. */
  lemma UniqueKeysOfInit<T>(rows: seq<T>, key: T -> int)
    requires UniqueKeys(rows, key) && rows != []
    ensures UniqueKeys(rows[..|rows| - 1], key)
    ensures forall x :: x in rows[..|rows| - 1] ==> key(x) != key(rows[|rows| - 1])
  {
    var init := rows[..|rows| - 1];
    forall i, j | 0 <= i < |init| && 0 <= j < |init| && i != j
      ensures key(init[i]) != key(init[j])
    {
      assert init[i] == rows[i] && init[j] == rows[j];
    }
    forall x | x in init ensures key(x) != key(rows[|rows| - 1]) {
      var k :| 0 <= k < |init| && init[k] == x;
      assert rows[k] == x;
    }
  }

  /** Taking out position k of a table in key order keeps it in key order,
      and what stays is exactly the rows whose key differs from the one taken out. */
  lemma RemovedRowIsTheOnlyOneGone<T>(before: seq<T>, key: T -> int, k: nat)
    requires InKeyOrder(before, key) && k < |before|
    ensures InKeyOrder(before[..k] + before[k + 1..], key)
    ensures before[..k] + before[k + 1..] == Filter(before, KeyIsNot(key, key(before[k])))
    ensures forall x :: x in before[..k] + before[k + 1..] <==> x in before && key(x) != key(before[k])
  {
    var keep := KeyIsNot(key, key(before[k]));
    SpliceKeepsKeyOrder(before, key, k);
    InKeyOrderIsUnique(before, key);
    SpliceIsDeleteByKey(before, key, k);
    forall x | x in before && key(x) != key(before[k])
      ensures x in Filter(before, keep)
    {
      var j :| 0 <= j < |before| && before[j] == x;
      FilterKeeps(before, keep, j);
    }
  }

  lemma SpliceKeepsKeyOrder<T>(before: seq<T>, key: T -> int, k: nat)
    requires InKeyOrder(before, key) && k < |before|
    ensures InKeyOrder(before[..k] + before[k + 1..], key)
  {
    var after := before[..k] + before[k + 1..];
    forall i | 0 <= i < |after|
      ensures after[i] == before[if i < k then i else i + 1]
    {
    }
  }

  /** With unique keys, splicing out position k deletes by its key. */
  lemma SpliceIsDeleteByKey<T>(before: seq<T>, key: T -> int, k: nat)
    requires UniqueKeys(before, key) && k < |before|
    ensures before[..k] + before[k + 1..] == Filter(before, KeyIsNot(key, key(before[k])))
  {
    var keep := KeyIsNot(key, key(before[k]));
    forall i | 0 <= i < |before| && i != k ensures keep(before[i]) {
      assert key(before[i]) != key(before[k]);
    }
    FilterDropsOne(before, keep, k);
  }

  /** Replacing rows by rows with the same keys keeps keys unique and keeps
      every key present. */
  lemma SameKeysKeepTable<T>(before: seq<T>, after: seq<T>, key: T -> int)
    requires |after| == |before|
    requires forall i :: 0 <= i < |before| ==> key(after[i]) == key(before[i])
    ensures UniqueKeys(before, key) ==> UniqueKeys(after, key)
    ensures forall id :: HasKey(before, key, id) ==> HasKey(after, key, id)
  {
    forall id | HasKey(before, key, id) ensures HasKey(after, key, id) {
      var i :| 0 <= i < |before| && key(before[i]) == id;
      assert key(after[i]) == id;
    }
  }
}
