/**
 * Tables whose rows carry a per-key number handed out as MAX + 1: trust-list
 * versions and artifact revisions per (zone, role), package generations per
 * (application, profile).  A table is seen here as its rows' (key, number)
 * pairs in insertion order.
 */
module Numbering {
  import opened Common

  /** SELECT MAX(number) WHERE key = ...; None stands for SQL NULL. */
  function MaxNumber<K(==)>(rows: seq<(K, int)>, key: K): Option<int> {
    if rows == [] then None
    else
      var rest := MaxNumber(rows[..|rows| - 1], key);
      var row := rows[|rows| - 1];
      if row.0 == key && (rest.None? || row.1 > rest.value) then Some(row.1) else rest
  }

  /** COALESCE(MAX(number), 0) + 1. */
  function NextNumber<K(==)>(rows: seq<(K, int)>, key: K): int {
    match MaxNumber(rows, key)
    case None => 1
    case Some(m) => m + 1
  }

  /** ORDER BY number DESC LIMIT 1, as a row index. */
  function Latest<K(==)>(rows: seq<(K, int)>, key: K): (r: Option<nat>)
    ensures r.Some? ==> r.value < |rows| && rows[r.value].0 == key
  {
    if rows == [] then None
    else
      var rest := Latest(rows[..|rows| - 1], key);
      var row := rows[|rows| - 1];
      if row.0 == key && (rest.None? || row.1 > rows[rest.value].1) then Some(|rows| - 1) else rest
  }

  /** Whatever the numbers: the latest row of a key has the greatest number of the key's rows. */
  lemma {:induction false} LatestIsGreatest<K>(rows: seq<(K, int)>, key: K)
    ensures Latest(rows, key).None? <==> forall i :: 0 <= i < |rows| ==> rows[i].0 != key
    ensures Latest(rows, key).Some? ==>
              forall i :: 0 <= i < |rows| && rows[i].0 == key ==> rows[i].1 <= rows[Latest(rows, key).value].1
  {
    if rows != [] {
      var init := rows[..|rows| - 1];
      LatestIsGreatest(init, key);
      assert forall i :: 0 <= i < |init| ==> init[i] == rows[i];
    }
  }

  function CountOf<K(==)>(rows: seq<(K, int)>, key: K): nat {
    if rows == [] then 0
    else CountOf(rows[..|rows| - 1], key) + (if rows[|rows| - 1].0 == key then 1 else 0)
  }

  /** Each key's rows are numbered 1, 2, 3, ... in insertion order. */
  predicate Sequential<K(==)>(rows: seq<(K, int)>) {
    rows == [] ||
    (var init, row := rows[..|rows| - 1], rows[|rows| - 1];
     Sequential(init) && row.1 == CountOf(init, row.0) + 1)
  }

  /** In a sequentially numbered table MAX is the number of rows of the key. */
  lemma {:induction false} MaxIsCount<K>(rows: seq<(K, int)>, key: K)
    requires Sequential(rows)
    ensures MaxNumber(rows, key) == (if CountOf(rows, key) == 0 then None else Some(CountOf(rows, key)))
    ensures NextNumber(rows, key) == CountOf(rows, key) + 1
  {
    if rows != [] {
      MaxIsCount(rows[..|rows| - 1], key);
    }
  }

  /** Handing out MAX + 1 keeps the numbering sequential, and only that number does. */
  lemma AppendSequentialIff<K>(rows: seq<(K, int)>, row: (K, int))
    requires Sequential(rows)
    ensures Sequential(rows + [row]) <==> row.1 == NextNumber(rows, row.0)
  {
    MaxIsCount(rows, row.0);
    assert (rows + [row])[..|rows|] == rows;
  }

  lemma CountAppend<K>(rows: seq<(K, int)>, row: (K, int), key: K)
    ensures CountOf(rows + [row], key) == CountOf(rows, key) + (if row.0 == key then 1 else 0)
  {
    assert (rows + [row])[..|rows|] == rows;
  }

  /** The newest row of a key carries the key's row count as its number, and no row of the key follows it. */
  lemma {:induction false} LatestIsLast<K>(rows: seq<(K, int)>, key: K)
    requires Sequential(rows)
    ensures Latest(rows, key).None? <==> CountOf(rows, key) == 0
    ensures Latest(rows, key).Some? ==> rows[Latest(rows, key).value].1 == CountOf(rows, key)
  {
    if rows != [] {
      LatestIsLast(rows[..|rows| - 1], key);
    }
  }

  /** A row of a key is never newer than the key's latest row. */
  lemma {:induction false} RowsUpToLatest<K>(rows: seq<(K, int)>, i: nat)
    requires Sequential(rows) && i < |rows|
    ensures var key := rows[i].0;
            && 1 <= rows[i].1 <= CountOf(rows, key)
            && Latest(rows, key).Some? && i <= Latest(rows, key).value
  {
    var init := rows[..|rows| - 1];
    LatestIsLast(init, rows[i].0);
    if i < |init| {
      assert init[i] == rows[i];
      RowsUpToLatest(init, i);
    }
  }

  /** Appending a row of the key makes it the newest; appending another key's row changes nothing for this key. */
  lemma LatestAppend<K>(rows: seq<(K, int)>, row: (K, int), key: K)
    requires Sequential(rows) && row.1 == NextNumber(rows, row.0)
    ensures Latest(rows + [row], key) == (if row.0 == key then Some(|rows|) else Latest(rows, key))
  {
    assert (rows + [row])[..|rows|] == rows;
    MaxIsCount(rows, key);
    LatestIsLast(rows, key);
  }

  lemma {:induction false} SequentialPrefix<K>(rows: seq<(K, int)>, n: nat, key: K)
    requires Sequential(rows) && n <= |rows|
    ensures Sequential(rows[..n])
    ensures CountOf(rows[..n], key) <= CountOf(rows, key)
  {
    if n < |rows| {
      var init := rows[..|rows| - 1];
      SequentialPrefix(init, n, key);
      assert init[..n] == rows[..n];
    } else {
      assert rows[..n] == rows;
    }
  }

  /** Later rows of a key carry strictly larger numbers. */
  lemma NumbersIncrease<K>(rows: seq<(K, int)>, i: nat, j: nat)
    requires Sequential(rows) && i < j < |rows| && rows[i].0 == rows[j].0
    ensures rows[i].1 < rows[j].1
  {
    SequentialPrefix(rows, j + 1, rows[j].0);
    var upTo := rows[..j + 1];
    assert upTo[..j] == rows[..j] && upTo[j] == rows[j];
    RowsUpToLatest(rows[..j], i);
  }

  lemma {:induction false} NumberOccurs<K>(rows: seq<(K, int)>, key: K, number: int)
    requires Sequential(rows) && 1 <= number <= CountOf(rows, key)
    ensures (key, number) in rows
  {
    var init, row := rows[..|rows| - 1], rows[|rows| - 1];
    if row != (key, number) {
      NumberOccurs(init, key, number);
      assert rows == init + [row];
    }
  }

  /** No gap and no repetition: exactly the numbers 1..n occur, each on exactly one row. */
  lemma Gapless<K>(rows: seq<(K, int)>, key: K, number: int)
    requires Sequential(rows)
    ensures 1 <= number <= CountOf(rows, key) <==> (key, number) in rows
    ensures forall i, j :: 0 <= i < |rows| && 0 <= j < |rows| && rows[i] == rows[j] ==> i == j
  {
    forall i, j | 0 <= i < |rows| && 0 <= j < |rows| && rows[i] == rows[j] ensures i == j {
      if i < j { NumbersIncrease(rows, i, j); }
      if j < i { NumbersIncrease(rows, j, i); }
    }
    if 1 <= number <= CountOf(rows, key) {
      NumberOccurs(rows, key, number);
    }
    if (key, number) in rows {
      var i :| 0 <= i < |rows| && rows[i] == (key, number);
      RowsUpToLatest(rows, i);
    }
  }
}
