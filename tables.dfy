/** What the GORM queries of the repositories do to a table, on a table held
    as a sequence of rows in storage order: `Where` filters, `First` finds,
    `Count` counts, `Delete` removes, `Updates` patches the rows a condition
    selects, a batch `Create` appends, and `Order("created_at DESC")` sorts. */
module Tables {
  import opened Wrappers
  import opened Models
  import opened Paging

  /** The rows that satisfy a `WHERE` condition, in storage order. */
  function Where<T(!new)>(rows: seq<T>, cond: T -> bool): (r: seq<T>)
    ensures |r| <= |rows|
    ensures forall i :: 0 <= i < |r| ==> cond(r[i])
    ensures forall x :: x in r <==> x in rows && cond(x)
  {
    if rows == [] then []
    else
      var init, last := rows[..|rows| - 1], rows[|rows| - 1];
      assert rows == init + [last];
      if cond(last) then Where(init, cond) + [last] else Where(init, cond)
  }

  lemma {:induction false} WhereAppend<T(!new)>(a: seq<T>, b: seq<T>, cond: T -> bool)
    ensures Where(a + b, cond) == Where(a, cond) + Where(b, cond)
    decreases |b|
  {
    if b != [] {
      var init, last := b[..|b| - 1], b[|b| - 1];
      assert a + b == (a + init) + [last];
      assert (a + b)[..|a + b| - 1] == a + init;
      WhereAppend(a, init, cond);
    } else {
      assert a + b == a;
    }
  }

  /** A table all of whose rows satisfy the condition is its own filter. */
  lemma {:induction false} WhereAll<T(!new)>(rows: seq<T>, cond: T -> bool)
    requires forall i :: 0 <= i < |rows| ==> cond(rows[i])
    ensures Where(rows, cond) == rows
    decreases |rows|
  {
    if rows != [] {
      WhereAll(rows[..|rows| - 1], cond);
      assert rows == rows[..|rows| - 1] + [rows[|rows| - 1]];
    }
  }

  /** A table none of whose rows satisfies the condition filters to nothing. */
  lemma WhereNone<T(!new)>(rows: seq<T>, cond: T -> bool)
    requires forall i :: 0 <= i < |rows| ==> !cond(rows[i])
    ensures Where(rows, cond) == []
  {
  }

  // ----- conditions on one key column: `Where("<key> = ?", k)` -----

  /** The rows whose key equals `k` (`want`) or differs from it (`!want`). */
  function Filter<T(!new), K(==)>(rows: seq<T>, key: T -> K, k: K, want: bool): seq<T> {
    Where(rows, x => (key(x) == k) == want)
  }

  /** `Where("<key> = ?", k)`. */
  function Matching<T(!new), K(==)>(rows: seq<T>, key: T -> K, k: K): (r: seq<T>)
    ensures |r| <= |rows|
    ensures forall i :: 0 <= i < |r| ==> key(r[i]) == k
    ensures forall x :: x in r <==> x in rows && key(x) == k
  {
    Filter(rows, key, k, true)
  }

  /** What `Where("<key> = ?", k).Delete(...)` leaves. */
  function Without<T(!new), K(==)>(rows: seq<T>, key: T -> K, k: K): (r: seq<T>)
    ensures |r| <= |rows|
    ensures forall i :: 0 <= i < |r| ==> key(r[i]) != k
    ensures forall x :: x in r <==> x in rows && key(x) != k
  {
    Filter(rows, key, k, false)
  }

  /** `Where("<key> = ?", k).Count(&n)`. */
  function Count<T(!new), K(==)>(rows: seq<T>, key: T -> K, k: K): nat {
    |Matching(rows, key, k)|
  }

  /** `Where("<key> = ?", k).First(&row)`: the first matching row, or
      nothing (`gorm.ErrRecordNotFound`). */
  function Find<T(!new), K(==)>(rows: seq<T>, key: T -> K, k: K): (r: Option<T>)
    ensures r.Some? ==> r.value in rows && key(r.value) == k
    ensures r.None? <==> forall x :: x in rows ==> key(x) != k
  {
    var m := Matching(rows, key, k);
    if m == [] then None
    else
      assert m[0] in m;
      Some(m[0])
  }

  /** Delete-then-create: the rows under key `k` give way to `batch`. */
  function Replace<T(!new), K(==)>(rows: seq<T>, key: T -> K, k: K, batch: seq<T>): seq<T> {
    Without(rows, key, k) + batch
  }

  /** Every row of `batch` carries the key `k`. */
  predicate AllKeyed<T(!new), K(==)>(batch: seq<T>, key: T -> K, k: K) {
    forall i :: 0 <= i < |batch| ==> key(batch[i]) == k
  }

  /** No two rows share a key: what a primary key (or a unique column)
      guarantees. */
  predicate UniqueKeys<T(!new), K(==)>(rows: seq<T>, key: T -> K) {
    forall i, j :: 0 <= i < j < |rows| ==> key(rows[i]) != key(rows[j])
  }

  lemma MatchingAppend<T(!new), K>(a: seq<T>, b: seq<T>, key: T -> K, k: K)
    ensures Matching(a + b, key, k) == Matching(a, key, k) + Matching(b, key, k)
    ensures Without(a + b, key, k) == Without(a, key, k) + Without(b, key, k)
  {
    WhereAppend(a, b, x => (key(x) == k) == true);
    WhereAppend(a, b, x => (key(x) == k) == false);
  }

  /** Deleting a key twice is deleting it once, and leaves no row under it. */
  lemma WithoutIdempotent<T(!new), K>(rows: seq<T>, key: T -> K, k: K)
    ensures Without(Without(rows, key, k), key, k) == Without(rows, key, k)
    ensures Matching(Without(rows, key, k), key, k) == []
  {
    var w := Without(rows, key, k);
    WhereAll(w, x => (key(x) == k) == false);
    WhereNone(w, x => (key(x) == k) == true);
  }

  /** A batch all of whose rows carry key `k` is all of `k` and none of the
      other keys. */
  lemma MatchingOfKeyed<T(!new), K>(batch: seq<T>, key: T -> K, k: K, other: K)
    requires AllKeyed(batch, key, k) && other != k
    ensures Matching(batch, key, k) == batch
    ensures Without(batch, key, k) == []
    ensures Matching(batch, key, other) == []
    ensures Without(batch, key, other) == batch
  {
    WhereAll(batch, x => (key(x) == k) == true);
    WhereNone(batch, x => (key(x) == k) == false);
    WhereNone(batch, x => (key(x) == other) == true);
    WhereAll(batch, x => (key(x) == other) == false);
  }

  /** Deleting one key keeps exactly the rows of every other key. */
  lemma MatchingOfWithout<T(!new), K>(rows: seq<T>, key: T -> K, k: K, other: K)
    requires other != k
    ensures Matching(Without(rows, key, k), key, other) == Matching(rows, key, other)
    decreases |rows|
  {
    if rows != [] {
      var init, last := rows[..|rows| - 1], rows[|rows| - 1];
      assert rows == init + [last];
      MatchingAppend(init, [last], key, k);
      MatchingAppend(init, [last], key, other);
      MatchingOfWithout(init, key, k, other);
      var w := Without(init, key, k);
      if key(last) == k {
        assert Without([last], key, k) == [] by { WhereNone([last], x => (key(x) == k) == false); }
        assert Matching([last], key, other) == [] by { WhereNone([last], x => (key(x) == other) == true); }
      } else {
        assert Without([last], key, k) == [last] by { WhereAll([last], x => (key(x) == k) == false); }
        MatchingAppend(w, [last], key, other);
      }
    }
  }

  /** After a replace with a batch keyed `k`, the rows under `k` are exactly
      the batch, and every other key keeps exactly its old rows. */
  lemma ReplaceSpec<T(!new), K>(rows: seq<T>, key: T -> K, k: K, batch: seq<T>, other: K)
    requires AllKeyed(batch, key, k) && other != k
    ensures Matching(Replace(rows, key, k, batch), key, k) == batch
    ensures Matching(Replace(rows, key, k, batch), key, other) == Matching(rows, key, other)
  {
    var w := Without(rows, key, k);
    MatchingAppend(w, batch, key, k);
    MatchingAppend(w, batch, key, other);
    WithoutIdempotent(rows, key, k);
    MatchingOfKeyed(batch, key, k, other);
    MatchingOfWithout(rows, key, k, other);
  }

  /** Replacing twice with the same batch keyed `k` is replacing once. */
  lemma ReplaceIdempotent<T(!new), K>(rows: seq<T>, key: T -> K, k: K, batch: seq<T>)
    requires AllKeyed(batch, key, k)
    ensures Replace(Replace(rows, key, k, batch), key, k, batch) == Replace(rows, key, k, batch)
  {
    var w := Without(rows, key, k);
    MatchingAppend(w, batch, key, k);
    WithoutIdempotent(rows, key, k);
    WhereNone(batch, x => (key(x) == k) == false);
  }

  /** The count under `k` is 0 when no row carries `k`. */
  lemma CountNone<T(!new), K>(rows: seq<T>, key: T -> K, k: K)
    requires forall i :: 0 <= i < |rows| ==> key(rows[i]) != k
    ensures Count(rows, key, k) == 0
  {
    WhereNone(rows, x => (key(x) == k) == true);
  }

  /** A row under another key does not change the count under `k`, and a
      row under `k` adds one. */
  lemma CountAppend<T(!new), K>(rows: seq<T>, key: T -> K, k: K, x: T)
    ensures Count(rows + [x], key, k) == Count(rows, key, k) + (if key(x) == k then 1 else 0)
  {
    MatchingAppend(rows, [x], key, k);
    if key(x) == k {
      WhereAll([x], y => (key(y) == k) == true);
    } else {
      WhereNone([x], y => (key(y) == k) == true);
    }
  }

  /** With unique keys, looking up a row's key finds that row. */
  lemma FindUnique<T(!new), K>(rows: seq<T>, key: T -> K, i: int)
    requires UniqueKeys(rows, key) && 0 <= i < |rows|
    ensures Find(rows, key, key(rows[i])) == Some(rows[i])
  {
    var r := Find(rows, key, key(rows[i]));
    assert rows[i] in rows;
    var j :| 0 <= j < |rows| && rows[j] == r.value;
    assert key(rows[j]) == key(rows[i]);
  }

  /** Appending a row whose key is new keeps the keys unique, and the new
      row is what its key finds. */
  lemma AppendUnique<T(!new), K>(rows: seq<T>, key: T -> K, x: T)
    requires UniqueKeys(rows, key) && Find(rows, key, key(x)).None?
    ensures UniqueKeys(rows + [x], key)
    ensures Find(rows + [x], key, key(x)) == Some(x)
  {
    var s := rows + [x];
    forall i, j | 0 <= i < j < |s| ensures key(s[i]) != key(s[j]) {
      if j == |rows| {
        assert s[i] in rows;
      }
    }
    FindUnique(s, key, |rows|);
  }

  /** Deleting a key keeps the keys unique. */
  lemma WithoutUnique<T(!new), K>(rows: seq<T>, key: T -> K, k: K)
    requires UniqueKeys(rows, key)
    ensures UniqueKeys(Without(rows, key, k), key)
  {
    WhereUnique(rows, x => (key(x) == k) == false, key);
  }

  /** Filtering keeps the keys unique. */
  lemma {:induction false} WhereUnique<T(!new), K>(rows: seq<T>, cond: T -> bool, key: T -> K)
    requires UniqueKeys(rows, key)
    ensures UniqueKeys(Where(rows, cond), key)
    decreases |rows|
  {
    if rows != [] {
      var init, last := rows[..|rows| - 1], rows[|rows| - 1];
      assert UniqueKeys(init, key);
      WhereUnique(init, cond, key);
      var w := Where(init, cond);
      if cond(last) {
        var s := w + [last];
        assert Where(rows, cond) == s;
        forall i | 0 <= i < |w| ensures key(w[i]) != key(last) {
          assert w[i] in init;
          var m :| 0 <= m < |init| && init[m] == w[i];
          assert rows[m] == w[i];
        }
        forall i, j | 0 <= i < j < |s| ensures key(s[i]) != key(s[j]) {
          if j == |w| {
            assert s[i] == w[i] && s[j] == last;
          } else {
            assert s[i] == w[i] && s[j] == w[j];
          }
        }
      }
    }
  }

  // ----- `Updates` on the rows one key selects -----

  /** Every row under key `k` becomes `apply(row, patch)`; the others stay. */
  function UpdateWhere<T(!new), K(==), P>(rows: seq<T>, key: T -> K, k: K, apply: (T, P) -> T, patch: P): (r: seq<T>)
    ensures |r| == |rows|
  {
    seq(|rows|, i requires 0 <= i < |rows| => if key(rows[i]) == k then apply(rows[i], patch) else rows[i])
  }

  /** A patch that keeps the key leaves every other key's rows as they were
      and keeps the keys unique. */
  lemma UpdateWhereOthers<T(!new), K, P>(rows: seq<T>, key: T -> K, k: K, apply: (T, P) -> T, patch: P, other: K)
    requires forall x :: key(apply(x, patch)) == key(x)
    requires other != k
    ensures Matching(UpdateWhere(rows, key, k, apply, patch), key, other) == Matching(rows, key, other)
    decreases |rows|
  {
    if rows != [] {
      var init, last := rows[..|rows| - 1], rows[|rows| - 1];
      var u := UpdateWhere(rows, key, k, apply, patch);
      assert rows == init + [last];
      assert u == UpdateWhere(init, key, k, apply, patch) + [u[|u| - 1]];
      UpdateWhereOthers(init, key, k, apply, patch, other);
      MatchingAppend(init, [last], key, other);
      MatchingAppend(UpdateWhere(init, key, k, apply, patch), [u[|u| - 1]], key, other);
      if key(last) == k {
        assert key(u[|u| - 1]) == k;
        WhereNone([last], x => (key(x) == other) == true);
        WhereNone([u[|u| - 1]], x => (key(x) == other) == true);
      } else {
        assert u[|u| - 1] == last;
      }
    }
  }

  /** With a key-keeping patch, the rows stay where they are and keep their
      keys, so a unique key stays unique. */
  lemma UpdateWhereUnique<T(!new), K, P>(rows: seq<T>, key: T -> K, k: K, apply: (T, P) -> T, patch: P)
    requires forall x :: key(apply(x, patch)) == key(x)
    requires UniqueKeys(rows, key)
    ensures UniqueKeys(UpdateWhere(rows, key, k, apply, patch), key)
  {
    var u := UpdateWhere(rows, key, k, apply, patch);
    assert forall i :: 0 <= i < |rows| ==> key(u[i]) == key(rows[i]);
  }

  /** A key-keeping patch keeps the number of rows under every key. */
  lemma {:induction false} UpdateWhereCount<T(!new), K, P>(rows: seq<T>, key: T -> K, k: K, apply: (T, P) -> T, patch: P, j: K)
    requires forall x :: key(apply(x, patch)) == key(x)
    ensures Count(UpdateWhere(rows, key, k, apply, patch), key, j) == Count(rows, key, j)
    decreases |rows|
  {
    if rows != [] {
      var init, last := rows[..|rows| - 1], rows[|rows| - 1];
      var u := UpdateWhere(rows, key, k, apply, patch);
      var ui := UpdateWhere(init, key, k, apply, patch);
      assert rows == init + [last];
      assert u == ui + [u[|u| - 1]];
      assert key(u[|u| - 1]) == key(last);
      UpdateWhereCount(init, key, k, apply, patch, j);
      CountAppend(init, key, j, last);
      CountAppend(ui, key, j, u[|u| - 1]);
    }
  }

  // ----- `Order("created_at DESC")` -----

  /** The order of `ORDER BY created_at DESC` in PostgreSQL: rows without a
      creation time (NULL) first, then newest to oldest. */
  predicate ComesFirst(a: Option<Time>, b: Option<Time>) {
    a.None? || (b.Some? && a.value >= b.value)
  }

  predicate SortedDesc<T>(s: seq<T>, at: T -> Option<Time>) {
    forall i, j :: 0 <= i < j < |s| ==> ComesFirst(at(s[i]), at(s[j]))
  }

  /** Places `x` before the first row it comes no later than. */
  function InsertDesc<T(==)>(x: T, s: seq<T>, at: T -> Option<Time>): (r: seq<T>)
    requires SortedDesc(s, at)
    ensures SortedDesc(r, at)
    ensures multiset(r) == multiset(s) + multiset{x}
    decreases |s|
  {
    if s == [] || ComesFirst(at(x), at(s[0])) then
      SortedCons(x, s, at);
      [x] + s
    else
      assert SortedDesc(s[1..], at);
      assert s == [s[0]] + s[1..];
      var rest := InsertDesc(x, s[1..], at);
      HeadBeforeInsert(x, s, rest, at);
      [s[0]] + rest
  }

  /** Putting in front a row that comes no later than the first keeps the
      order. */
  lemma SortedCons<T>(x: T, s: seq<T>, at: T -> Option<Time>)
    requires SortedDesc(s, at)
    requires s == [] || ComesFirst(at(x), at(s[0]))
    ensures SortedDesc([x] + s, at)
  {
    var r := [x] + s;
    forall i, j | 0 <= i < j < |r| ensures ComesFirst(at(r[i]), at(r[j])) {
      if i == 0 {
        assert r[j] == s[j - 1];
        if j > 1 {
          assert ComesFirst(at(s[0]), at(s[j - 1]));
        }
      } else {
        assert r[i] == s[i - 1] && r[j] == s[j - 1];
      }
    }
  }

  /** When `x` goes behind the first row, that row still comes first. */
  lemma HeadBeforeInsert<T>(x: T, s: seq<T>, rest: seq<T>, at: T -> Option<Time>)
    requires SortedDesc(s, at) && s != [] && !ComesFirst(at(x), at(s[0]))
    requires SortedDesc(rest, at) && multiset(rest) == multiset(s[1..]) + multiset{x}
    ensures SortedDesc([s[0]] + rest, at)
    ensures multiset([s[0]] + rest) == multiset(s) + multiset{x}
  {
    assert s == [s[0]] + s[1..];
    var r := [s[0]] + rest;
    forall j | 0 <= j < |rest| ensures ComesFirst(at(s[0]), at(rest[j])) {
      assert rest[j] in multiset(rest);
      if rest[j] != x {
        assert rest[j] in multiset(s[1..]);
        var m :| 0 <= m < |s[1..]| && s[1..][m] == rest[j];
        assert s[m + 1] == rest[j];
      }
    }
    forall i, j | 0 <= i < j < |r| ensures ComesFirst(at(r[i]), at(r[j])) {
      if i == 0 {
        assert r[j] == rest[j - 1];
      } else {
        assert r[i] == rest[i - 1] && r[j] == rest[j - 1];
      }
    }
  }

  /** The rows in `created_at DESC` order (equal times keep storage order). */
  function SortDesc<T(==)>(rows: seq<T>, at: T -> Option<Time>): (r: seq<T>)
    ensures SortedDesc(r, at)
    ensures multiset(r) == multiset(rows)
  {
    if rows == [] then []
    else
      assert rows == [rows[0]] + rows[1..];
      InsertDesc(rows[0], SortDesc(rows[1..], at), at)
  }

  /** Rows with the same creation time (both unset, or equal) are the same
      row: PostgreSQL's order is then fully determined. */
  ghost predicate TimesDetermineRows<T(!new)>(s: seq<T>, at: T -> Option<Time>) {
    forall x, y :: x in s && y in s && at(x) == at(y) ==> x == y
  }

  /** Two orders of the same rows that are both `created_at DESC` are the
      same order when no two rows share a time: so `SortDesc` is then the
      only order PostgreSQL can return. */
  lemma {:induction false} SortedDescUnique<T(!new)>(a: seq<T>, b: seq<T>, at: T -> Option<Time>)
    requires SortedDesc(a, at) && SortedDesc(b, at) && multiset(a) == multiset(b)
    requires TimesDetermineRows(a, at)
    ensures a == b
    decreases |a|
  {
    if a == [] {
      assert |b| == |multiset(b)| == 0;
    } else {
      SortedHeadsAgree(a, b, at);
      TailsSameRows(a, b);
      SortedTail(a, at);
      SortedTail(b, at);
      assert TimesDetermineRows(a[1..], at) by {
        TailRows(a);
      }
      SortedDescUnique(a[1..], b[1..], at);
      assert a == [a[0]] + a[1..] && b == [b[0]] + b[1..];
    }
  }

  /** Two sequences of the same rows with the same head have tails of the
      same rows. */
  lemma TailsSameRows<T>(a: seq<T>, b: seq<T>)
    requires a != [] && b != [] && a[0] == b[0] && multiset(a) == multiset(b)
    ensures multiset(a[1..]) == multiset(b[1..])
  {
    var x := a[0];
    assert a == [x] + a[1..] && b == [x] + b[1..];
    assert multiset(a) == multiset{x} + multiset(a[1..]);
    assert multiset(b) == multiset{x} + multiset(b[1..]);
    assert multiset(a[1..]) == multiset(a) - multiset{x};
  }

  lemma TailRows<T>(a: seq<T>)
    requires a != []
    ensures forall y :: y in a[1..] ==> y in a
  {
    forall y | y in a[1..] ensures y in a {
      var i :| 0 <= i < |a[1..]| && a[1..][i] == y;
      assert a[i + 1] == y;
    }
  }

  /** Two sorted orders of the same rows, whose times tell rows apart,
      start with the same row. */
  lemma SortedHeadsAgree<T(!new)>(a: seq<T>, b: seq<T>, at: T -> Option<Time>)
    requires SortedDesc(a, at) && SortedDesc(b, at) && multiset(a) == multiset(b)
    requires TimesDetermineRows(a, at) && a != []
    ensures b != [] && a[0] == b[0]
  {
    assert |b| == |multiset(b)| == |a|;
    assert b[0] in multiset(a) && a[0] in multiset(b);
    HeadComesFirst(a, b[0], at);
    HeadComesFirst(b, a[0], at);
  }

  /** The tail of a sorted sequence is sorted. */
  lemma SortedTail<T>(s: seq<T>, at: T -> Option<Time>)
    requires SortedDesc(s, at) && s != []
    ensures SortedDesc(s[1..], at)
  {
    forall i, j | 0 <= i < j < |s| - 1 ensures ComesFirst(at(s[1..][i]), at(s[1..][j])) {
      assert s[1..][i] == s[i + 1] && s[1..][j] == s[j + 1];
    }
  }

  /** The head of a sorted sequence comes no later than any of its rows. */
  lemma HeadComesFirst<T>(s: seq<T>, x: T, at: T -> Option<Time>)
    requires SortedDesc(s, at) && x in s
    ensures ComesFirst(at(s[0]), at(x))
  {
    var k :| 0 <= k < |s| && s[k] == x;
    if k > 0 {
      assert ComesFirst(at(s[0]), at(s[k]));
    }
  }

  // ----- the statements, with the driver's failure as a parameter -----

  /** `Create(&row)` on a table whose primary key is `key`: the driver's
      error, a duplicate key, or the table with the row appended. */
  function InsertRow<T(!new), K(==)>(rows: seq<T>, key: T -> K, row: T, fails: bool): Ret<seq<T>> {
    if fails then Fail(rows, DriverError)
    else if Find(rows, key, key(row)).Some? then Fail(rows, DuplicateKey)
    else Ok(rows + [row])
  }

  /** An insert adds exactly the one row when it succeeds and nothing when
      it fails; it succeeds exactly when the driver does and the key is new,
      and then the new row is what its key finds and keys stay unique. */
  lemma InsertRowSpec<T(!new), K>(rows: seq<T>, key: T -> K, row: T, fails: bool)
    requires UniqueKeys(rows, key)
    ensures InsertRow(rows, key, row, fails).IsOk() <==> !fails && forall x :: x in rows ==> key(x) != key(row)
    ensures var r := InsertRow(rows, key, row, fails);
      r.value == if r.IsOk() then rows + [row] else rows
    ensures var r := InsertRow(rows, key, row, fails);
      UniqueKeys(r.value, key) && (r.IsOk() ==> Find(r.value, key, key(row)) == Some(row))
  {
    if !fails && Find(rows, key, key(row)).None? {
      AppendUnique(rows, key, row);
    }
  }

  /** `Create(&batch)`: GORM refuses an empty slice; otherwise the whole
      batch is appended in one statement. */
  function InsertBatch<T>(rows: seq<T>, batch: seq<T>, fails: bool): (r: Ret<seq<T>>)
    ensures r.IsOk() <==> !fails && batch != []
    ensures r.value == if r.IsOk() then rows + batch else rows
  {
    if fails then Fail(rows, DriverError)
    else if batch == [] then Fail(rows, EmptySlice)
    else Ok(rows + batch)
  }

  /** `Where("<key> = ?", k).Delete(...)`. */
  function DeleteKey<T(!new), K(==)>(rows: seq<T>, key: T -> K, k: K, fails: bool): (r: Ret<seq<T>>)
    ensures r.IsOk() <==> !fails
    ensures r.value == if fails then rows else Without(rows, key, k)
  {
    if fails then Fail(rows, DriverError) else Ok(Without(rows, key, k))
  }

  /** Delete-then-create without a transaction of its own: a failed delete
      changes nothing and creates nothing; a failed create leaves the
      delete done. */
  function ReplaceKey<T(!new), K(==)>(rows: seq<T>, key: T -> K, k: K, batch: seq<T>, deleteFails: bool, createFails: bool): Ret<seq<T>> {
    var deleted := DeleteKey(rows, key, k, deleteFails);
    if !deleted.IsOk() then deleted else InsertBatch(deleted.value, batch, createFails)
  }

  /** The three outcomes of a replace, and what each leaves under `k` and
      under every other key. */
  lemma ReplaceKeySpec<T(!new), K>(rows: seq<T>, key: T -> K, k: K, batch: seq<T>, deleteFails: bool, createFails: bool, other: K)
    requires AllKeyed(batch, key, k) && other != k
    ensures var r := ReplaceKey(rows, key, k, batch, deleteFails, createFails);
      r.IsOk() <==> !deleteFails && !createFails && batch != []
    ensures deleteFails ==> ReplaceKey(rows, key, k, batch, deleteFails, createFails) == Fail(rows, DriverError)
    ensures var r := ReplaceKey(rows, key, k, batch, deleteFails, createFails);
      r.IsOk() ==> r.value == Replace(rows, key, k, batch) && Matching(r.value, key, k) == batch
    ensures var r := ReplaceKey(rows, key, k, batch, deleteFails, createFails);
      !deleteFails && !r.IsOk() ==> r.value == Without(rows, key, k) && Matching(r.value, key, k) == []
    ensures Matching(ReplaceKey(rows, key, k, batch, deleteFails, createFails).value, key, other) == Matching(rows, key, other)
  {
    var r := ReplaceKey(rows, key, k, batch, deleteFails, createFails);
    if !deleteFails {
      WithoutIdempotent(rows, key, k);
      MatchingOfWithout(rows, key, k, other);
      if r.IsOk() {
        ReplaceSpec(rows, key, k, batch, other);
      }
    }
  }

  /** A successful replace, repeated with the same batch, is a replace. */
  lemma ReplaceKeyTwice<T(!new), K>(rows: seq<T>, key: T -> K, k: K, batch: seq<T>)
    requires AllKeyed(batch, key, k) && batch != []
    ensures var once := ReplaceKey(rows, key, k, batch, false, false);
      ReplaceKey(once.value, key, k, batch, false, false) == once
  {
    ReplaceIdempotent(rows, key, k, batch);
  }

  /** `Where("<key> = ?", k).Count(&n)`: 0 and the error when the driver
      fails. */
  function CountKey<T(!new), K(==)>(rows: seq<T>, key: T -> K, k: K, fails: bool): (r: Ret<int>)
    ensures fails ==> r == Fail(0, DriverError)
    ensures !fails ==> r == Ok(Count(rows, key, k))
  {
    if fails then Fail(0, DriverError) else Ok(Count(rows, key, k))
  }

  /** `First` that turns `gorm.ErrRecordNotFound` into `(nil, nil)`. */
  function LookupKey<T(!new), K(==)>(rows: seq<T>, key: T -> K, k: K, fails: bool): (r: Ret<Option<T>>)
    ensures fails ==> r == Fail(None, DriverError)
    ensures !fails ==> r == Ok(Find(rows, key, k))
  {
    if fails then Fail(None, DriverError) else Ok(Find(rows, key, k))
  }

  // ----- reading rows back -----

  /** `Find` into a slice: every fetched row is decoded by `read`; the
      first row that cannot be decoded fails the whole call, and the caller
      gets no rows. */
  function ReadAll<T>(rows: seq<T>, read: T -> Ret<T>): (res: Ret<seq<T>>)
    ensures res.IsOk() ==> |res.value| == |rows|
    ensures !res.IsOk() ==> res.value == []
    decreases |rows|
  {
    if rows == [] then Ok([])
    else
      var head := read(rows[0]);
      var tail := ReadAll(rows[1..], read);
      if !head.IsOk() then Fail([], head.err.value)
      else if !tail.IsOk() then tail
      else Ok([head.value] + tail.value)
  }

  /** The rows read back exactly when each one does, and then row by row;
      otherwise the error is that of a row that cannot be read. */
  lemma {:induction false} ReadAllSpec<T>(rows: seq<T>, read: T -> Ret<T>)
    ensures ReadAll(rows, read).IsOk() <==> forall i :: 0 <= i < |rows| ==> read(rows[i]).IsOk()
    ensures ReadAll(rows, read).IsOk() ==> forall i :: 0 <= i < |rows| ==> ReadAll(rows, read).value[i] == read(rows[i]).value
    ensures !ReadAll(rows, read).IsOk() ==>
      exists i :: 0 <= i < |rows| && !read(rows[i]).IsOk() && ReadAll(rows, read).err == read(rows[i]).err
    decreases |rows|
  {
    if rows != [] {
      var tailRows := rows[1..];
      ReadAllSpec(tailRows, read);
      var head := read(rows[0]);
      var tail := ReadAll(tailRows, read);
      if head.IsOk() && tail.IsOk() {
        forall i | 0 <= i < |rows| ensures read(rows[i]).IsOk() && ReadAll(rows, read).value[i] == read(rows[i]).value {
          if i > 0 {
            assert rows[i] == tailRows[i - 1];
          }
        }
      } else if head.IsOk() {
        var j :| 0 <= j < |tailRows| && !read(tailRows[j]).IsOk() && tail.err == read(tailRows[j]).err;
        assert rows[j + 1] == tailRows[j];
      }
    }
  }

  /** Rows that each read back as themselves read back unchanged. */
  lemma {:induction false} ReadAllIdentity<T>(rows: seq<T>, read: T -> Ret<T>)
    requires forall i :: 0 <= i < |rows| ==> read(rows[i]) == Ok(rows[i])
    ensures ReadAll(rows, read) == Ok(rows)
    decreases |rows|
  {
    if rows != [] {
      assert forall j :: 0 <= j < |rows| - 1 ==> rows[1..][j] == rows[j + 1];
      ReadAllIdentity(rows[1..], read);
      assert rows == [rows[0]] + rows[1..];
    }
  }

  // ----- paged listings -----

  /** `Where(cond).Order("created_at DESC").Offset((page-1)*limit).Limit(limit)`. */
  function ListDesc<T(==,!new)>(rows: seq<T>, cond: T -> bool, at: T -> Option<Time>, page: int, limit: int): seq<T> {
    Window(SortDesc(Where(rows, cond), at), page, limit)
  }

  /** A slice of a sorted sequence is sorted. */
  lemma SliceSorted<T>(s: seq<T>, at: T -> Option<Time>, a: int, b: int)
    requires SortedDesc(s, at) && 0 <= a <= b <= |s|
    ensures SortedDesc(s[a..b], at)
  {
    var r := s[a..b];
    forall i, j | 0 <= i < j < |r| ensures ComesFirst(at(r[i]), at(r[j])) {
      assert r[i] == s[a + i] && r[j] == s[a + j];
    }
  }

  /** A page of a sorted sequence is sorted. */
  lemma OffsetLimitOfSorted<T(!new)>(s: seq<T>, at: T -> Option<Time>, offset: int, limit: int)
    requires SortedDesc(s, at)
    ensures SortedDesc(OffsetLimit(s, offset, limit), at)
  {
    var start := if offset > 0 then offset else 0;
    if start <= |s| {
      var skipped := s[start..];
      if limit >= 0 && limit < |skipped| {
        SliceSorted(s, at, start, start + limit);
        assert skipped[..limit] == s[start..start + limit];
      } else {
        SliceSorted(s, at, start, |s|);
      }
    }
  }

  /** Sorting keeps the length. */
  lemma SortDescLength<T(!new)>(rows: seq<T>, at: T -> Option<Time>)
    ensures |SortDesc(rows, at)| == |rows|
  {
    assert |SortDesc(rows, at)| == |multiset(SortDesc(rows, at))|;
  }

  /** A sorted listing holds only matching rows, at most `limit` of them, in
      `created_at DESC` order. */
  lemma ListDescSpec<T(!new)>(rows: seq<T>, cond: T -> bool, at: T -> Option<Time>, page: int, limit: int)
    ensures var r := ListDesc(rows, cond, at, page, limit);
      forall i :: 0 <= i < |r| ==> r[i] in rows && cond(r[i])
    ensures limit >= 0 ==> |ListDesc(rows, cond, at, page, limit)| <= limit
    ensures SortedDesc(ListDesc(rows, cond, at, page, limit), at)
  {
    var matches := Where(rows, cond);
    var sorted := SortDesc(matches, at);
    var offset := PageOffset64(page, limit);
    var r := OffsetLimit(sorted, offset, limit);
    assert ListDesc(rows, cond, at, page, limit) == r;
    OffsetLimitOfSorted(sorted, at, offset, limit);
    SortDescMembers(matches, at);
    OffsetLimitMembers(sorted, offset, limit);
  }

  /** A window holds only rows of the sequence it is cut from. */
  lemma OffsetLimitMembers<T>(rows: seq<T>, offset: int, limit: int)
    ensures forall x :: x in OffsetLimit(rows, offset, limit) ==> x in rows
  {
    var r := OffsetLimit(rows, offset, limit);
    var start := if offset > 0 then offset else 0;
    if r != [] {
      assert r == rows[start..start + |r|];
    }
  }

  /** When no two matching rows share a creation time, whatever
      `created_at DESC` order PostgreSQL picks gives the listing's pages. */
  lemma ListDescDetermined<T(!new)>(rows: seq<T>, cond: T -> bool, at: T -> Option<Time>, page: int, limit: int,
                                    sorted: seq<T>)
    requires SortedDesc(sorted, at) && multiset(sorted) == multiset(Where(rows, cond))
    requires TimesDetermineRows(Where(rows, cond), at)
    ensures Window(sorted, page, limit) == ListDesc(rows, cond, at, page, limit)
  {
    var s := SortDesc(Where(rows, cond), at);
    SortDescMembers(Where(rows, cond), at);
    assert TimesDetermineRows(s, at);
    SortedDescUnique(s, sorted, at);
  }

  /** Sorting keeps exactly the rows it was given. */
  lemma SortDescMembers<T(!new)>(rows: seq<T>, at: T -> Option<Time>)
    ensures forall x :: x in SortDesc(rows, at) <==> x in rows
  {
    var s := SortDesc(rows, at);
    forall x ensures x in s <==> x in rows {
      assert x in s <==> x in multiset(s);
      assert x in rows <==> x in multiset(rows);
    }
  }

  /** Every matching row is on the page its rank in the sorted order says:
      the pages of a listing tile all the rows its total counts. */
  lemma ListDescTiles<T(!new)>(rows: seq<T>, cond: T -> bool, at: T -> Option<Time>, limit: int, i: int)
    requires limit >= 1 && 0 <= i < |Where(rows, cond)| && i <= MaxInt64
    ensures |SortDesc(Where(rows, cond), at)| == |Where(rows, cond)|
    ensures var page := i / limit + 1;
      |ListDesc(rows, cond, at, page, limit)| > i % limit &&
      ListDesc(rows, cond, at, page, limit)[i % limit] == SortDesc(Where(rows, cond), at)[i]
  {
    var sorted := SortDesc(Where(rows, cond), at);
    SortDescLength(Where(rows, cond), at);
    WindowsTile(sorted, limit, i);
  }
}
