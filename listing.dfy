/**
 * The SQL the handlers run, over a table held as a sequence of rows in insertion order:
 * `SELECT ... WHERE p` is `Select`, `rows[0]` of such a query is `Find`, `UPDATE ... SET f WHERE p`
 * is `UpdateWhere`, and `ORDER BY created_at DESC` is `NewestFirst`. A row's serial id is its
 * insertion counter, so a table in insertion order has increasing ids.
 */
module Listing {
  import opened Optional

  /** The condition of a query without `WHERE`: every row matches. */
  predicate Always<T>(x: T) { true }

  /** The rows of `s` that satisfy `p`, in table order. */
  function Select<T(!new)>(s: seq<T>, p: T -> bool): (r: seq<T>)
    ensures |r| <= |s|
    ensures forall x :: x in r <==> x in s && p(x)
  {
    if s == [] then []
    else
      assert s == [s[0]] + s[1..];
      if p(s[0]) then [s[0]] + Select(s[1..], p) else Select(s[1..], p)
  }

  /** `SELECT COUNT(*) ... WHERE p`. */
  function Count<T(!new)>(s: seq<T>, p: T -> bool): nat {
    |Select(s, p)|
  }

  /** The first row the query `WHERE p` returns (`result.rows[0]`), or None when it returns no row. */
  function Find<T(!new)>(s: seq<T>, p: T -> bool): (r: Option<T>)
    ensures r.Some? ==> r.value in s && p(r.value)
    ensures r.None? <==> forall x :: x in s ==> !p(x)
  {
    var m := Select(s, p);
    if m == [] then None else assert m[0] in m; Some(m[0])
  }

  /** `UPDATE ... SET f WHERE p`: every row satisfying `p` is replaced by `f` of it; the others stay. */
  function UpdateWhere<T>(s: seq<T>, p: T -> bool, f: T -> T): (r: seq<T>)
    ensures |r| == |s|
  {
    seq(|s|, i requires 0 <= i < |s| => if p(s[i]) then f(s[i]) else s[i])
  }

  /** Apply `f` to every row: the column list of a SELECT, or the names a JOIN attaches. */
  function MapRows<T, U>(s: seq<T>, f: T -> U): (r: seq<U>)
    ensures |r| == |s|
  {
    seq(|s|, i requires 0 <= i < |s| => f(s[i]))
  }

  function Reverse<T>(s: seq<T>): (r: seq<T>)
    ensures |r| == |s|
  {
    seq(|s|, i requires 0 <= i < |s| => s[|s| - 1 - i])
  }

  /** Row `k` carries id `k + 1`: a SERIAL column on a table that never loses a row. */
  ghost predicate Serial<T>(s: seq<T>, key: T -> int) {
    forall k :: 0 <= k < |s| ==> key(s[k]) == k + 1
  }

  predicate Increasing<T>(s: seq<T>, key: T -> int) {
    forall i, j :: 0 <= i < j < |s| ==> key(s[i]) < key(s[j])
  }

  predicate Decreasing<T>(s: seq<T>, key: T -> int) {
    forall i, j :: 0 <= i < j < |s| ==> key(s[i]) > key(s[j])
  }

  lemma SerialIsIncreasing<T>(s: seq<T>, key: T -> int)
    requires Serial(s, key)
    ensures Increasing(s, key)
  {
  }

  /** The rows satisfying `p`, newest first: `WHERE p ORDER BY created_at DESC`. */
  function NewestFirst<T(!new)>(s: seq<T>, p: T -> bool, key: T -> int): (r: seq<T>)
    requires Increasing(s, key)
    ensures forall x :: x in r <==> x in s && p(x)
    ensures Decreasing(r, key)
    ensures |r| == Count(s, p)
  {
    SelectKeepsOrder(s, p, key);
    ReverseMembers(Select(s, p));
    Reverse(Select(s, p))
  }

  /** The rows satisfying `p`, oldest first: `WHERE p ORDER BY created_at ASC`. */
  function OldestFirst<T(!new)>(s: seq<T>, p: T -> bool, key: T -> int): (r: seq<T>)
    requires Increasing(s, key)
    ensures forall x :: x in r <==> x in s && p(x)
    ensures Increasing(r, key)
    ensures |r| == Count(s, p)
  {
    SelectKeepsOrder(s, p, key);
    Select(s, p)
  }

  lemma ReverseMembers<T>(s: seq<T>)
    ensures forall x :: x in Reverse(s) <==> x in s
  {
    var r := Reverse(s);
    forall x | x in s ensures x in r {
      var i :| 0 <= i < |s| && s[i] == x;
      assert r[|s| - 1 - i] == x;
    }
  }

  /** Filtering keeps the table's order. */
  lemma {:induction false} SelectKeepsOrder<T(!new)>(s: seq<T>, p: T -> bool, key: T -> int)
    requires Increasing(s, key)
    ensures Increasing(Select(s, p), key)
  {
    if s != [] {
      SelectKeepsOrder(s[1..], p, key);
      var rest := Select(s[1..], p);
      forall x | x in rest ensures key(s[0]) < key(x) {
        var j :| 0 <= j < |s[1..]| && s[1..][j] == x;
        assert s[j + 1] == x;
      }
    }
  }

  /** A query over a table with appended rows returns the old rows' matches, then the new ones'. */
  lemma {:induction false} SelectAppend<T(!new)>(s: seq<T>, t: seq<T>, p: T -> bool)
    ensures Select(s + t, p) == Select(s, p) + Select(t, p)
  {
    if s != [] {
      assert (s + t)[1..] == s[1..] + t;
      SelectAppend(s[1..], t, p);
    } else {
      assert s + t == t;
    }
  }

  /** A query no row satisfies returns nothing. */
  lemma SelectNone<T(!new)>(s: seq<T>, p: T -> bool)
    requires forall x :: x in s ==> !p(x)
    ensures Select(s, p) == []
  {
    if Select(s, p) != [] {
      assert Select(s, p)[0] in Select(s, p);
    }
  }

  /** A query every row satisfies returns the whole table. */
  lemma {:induction false} SelectAll<T(!new)>(s: seq<T>, p: T -> bool)
    requires forall x :: x in s ==> p(x)
    ensures Select(s, p) == s
  {
    if s != [] {
      assert s[0] in s;
      SelectAll(s[1..], p);
      assert [s[0]] + s[1..] == s;
    }
  }

  /** Every row of the source reappears, transformed, in the result. */
  lemma MapRowsMembers<T, U>(s: seq<T>, f: T -> U)
    ensures forall x :: x in s ==> f(x) in MapRows(s, f)
  {
    forall x | x in s ensures f(x) in MapRows(s, f) {
      var k :| 0 <= k < |s| && s[k] == x;
      assert MapRows(s, f)[k] == f(x);
    }
  }

  /** The largest `bigint`, the type PostgreSQL gives the values of `LIMIT` and `OFFSET`. */
  const MaxBigint := 0x7FFF_FFFF_FFFF_FFFF

  /** `LIMIT limit OFFSET offset`: skip `offset` rows, then return at most `limit` of the rest, in order. */
  function Page<T>(s: seq<T>, limit: nat, offset: nat): (r: seq<T>)
    ensures |r| <= limit
    ensures |r| == if offset >= |s| then 0 else if |s| - offset < limit then |s| - offset else limit
    ensures forall k :: 0 <= k < |r| ==> offset + k < |s| && r[k] == s[offset + k]
  {
    if offset >= |s| then []
    else if |s| - offset < limit then s[offset..]
    else s[offset..offset + limit]
  }

  /** Consecutive pages tile the listing: `a` rows from 0, then `b` rows from `a`, are the first `a + b` rows. */
  lemma PagesTile<T>(s: seq<T>, a: nat, b: nat)
    ensures Page(s, a, 0) + Page(s, b, a) == Page(s, a + b, 0)
  {
    var whole := Page(s, a + b, 0);
    var first := Page(s, a, 0);
    var second := Page(s, b, a);
    assert |first| + |second| == |whole|;
    forall k | 0 <= k < |whole| ensures (first + second)[k] == whole[k] {
      if k >= |first| {
        assert second[k - |first|] == s[a + (k - |first|)];
      }
    }
  }

  /** An update that never changes whether a row matches `p` commutes with the query `WHERE p`. */
  lemma {:induction false} SelectUpdateWhere<T(!new)>(s: seq<T>, p: T -> bool, q: T -> bool, f: T -> T)
    requires forall x :: x in s ==> p(f(x)) == p(x)
    ensures Select(UpdateWhere(s, q, f), p) == UpdateWhere(Select(s, p), q, f)
  {
    if s != [] {
      var u := UpdateWhere(s, q, f);
      assert s[0] in s;
      assert u[1..] == UpdateWhere(s[1..], q, f);
      SelectUpdateWhere(s[1..], p, q, f);
      var rest := Select(s[1..], p);
      if p(s[0]) {
        assert UpdateWhere([s[0]] + rest, q, f) == [u[0]] + UpdateWhere(rest, q, f);
      }
    }
  }

  /** So the first match after such an update is the first match before it, updated if `q` selects it. */
  lemma FindUpdateWhere<T(!new)>(s: seq<T>, p: T -> bool, q: T -> bool, f: T -> T)
    requires forall x :: x in s ==> p(f(x)) == p(x)
    ensures Find(UpdateWhere(s, q, f), p) ==
              match Find(s, p)
              case None => None
              case Some(x) => Some(if q(x) then f(x) else x)
  {
    SelectUpdateWhere(s, p, q, f);
  }

  /** The row appended last comes first once reversed. */
  lemma ReverseAppend<T>(s: seq<T>, x: T)
    ensures Reverse(s + [x]) == [x] + Reverse(s)
  {
    var r := Reverse(s + [x]);
    forall k | 0 < k < |r| ensures r[k] == Reverse(s)[k - 1] {
      assert r[k] == (s + [x])[|s| - k];
    }
  }

  /** Two conditions no row meets at once together match at most every row. */
  lemma {:induction false} CountDisjoint<T(!new)>(s: seq<T>, p: T -> bool, q: T -> bool)
    requires forall x :: x in s ==> !(p(x) && q(x))
    ensures Count(s, p) + Count(s, q) <= |s|
  {
    if s != [] {
      assert s[0] in s;
      CountDisjoint(s[1..], p, q);
    }
  }

  /** Two tables whose rows agree on `p` position by position have the same number of matches. */
  lemma {:induction false} CountPointwise<T(!new)>(s: seq<T>, u: seq<T>, p: T -> bool)
    requires |s| == |u|
    requires forall i :: 0 <= i < |s| ==> p(s[i]) == p(u[i])
    ensures Count(s, p) == Count(u, p)
  {
    if s != [] {
      CountPointwise(s[1..], u[1..], p);
    }
  }

  /** Replacing one matching row by a non-matching one removes exactly one match. */
  lemma {:induction false} CountUpdateOne<T(!new)>(s: seq<T>, k: nat, y: T, p: T -> bool)
    requires k < |s| && p(s[k]) && !p(y)
    ensures Count(s[k := y], p) + 1 == Count(s, p)
  {
    if k == 0 {
      assert s[k := y][1..] == s[1..];
    } else {
      assert s[k := y][1..] == s[1..][k - 1 := y];
      CountUpdateOne(s[1..], k - 1, y, p);
    }
  }

  /** The condition `WHERE id = k` on the column `key`. */
  function KeyIs<T>(key: T -> int, k: int): T -> bool {
    (x: T) => key(x) == k
  }

  /** On a serial table, `WHERE id = k` finds row `k - 1`, and no row when `k` was never issued. */
  lemma FindSerial<T(!new)>(s: seq<T>, key: T -> int, k: int)
    requires Serial(s, key)
    ensures Find(s, KeyIs(key, k)) == if 1 <= k <= |s| then Some(s[k - 1]) else None
  {
    var r := Find(s, KeyIs(key, k));
    if 1 <= k <= |s| {
      assert KeyIs(key, k)(s[k - 1]);
    }
    if r.Some? {
      var j :| 0 <= j < |s| && s[j] == r.value;
    }
  }

  /** On a serial table, `UPDATE ... WHERE id = k` rewrites row `k - 1` alone, or nothing when there is no such row. */
  lemma UpdateSerial<T>(s: seq<T>, key: T -> int, k: int, f: T -> T)
    requires Serial(s, key)
    ensures UpdateWhere(s, KeyIs(key, k), f) == if 1 <= k <= |s| then s[k - 1 := f(s[k - 1])] else s
  {
  }

  /** A query whose predicate agrees with another's on every row returns the same rows. */
  lemma {:induction false} SelectSameRows<T(!new)>(s: seq<T>, p: T -> bool, q: T -> bool)
    requires forall x :: x in s ==> p(x) == q(x)
    ensures Select(s, p) == Select(s, q)
  {
    if s != [] {
      assert s[0] in s;
      SelectSameRows(s[1..], p, q);
    }
  }
}
