/** The three SQL shapes the routers use, over a table held as a sequence:
    `SELECT ... WHERE` (Filter), `db.scalar(SELECT ... WHERE)` (Find, the first
    matching row), `UPDATE ... WHERE ... SET` (UpdateWhere), and the serial
    primary key handed out on `INSERT` (NextId).
 */
module Tables {
  import opened Schema

  /** The rows of `s` that satisfy `p`, in table order. */
  function Filter<T(!new)>(s: seq<T>, p: T -> bool): (r: seq<T>)
    ensures |r| <= |s|
    ensures forall x :: x in r <==> x in s && p(x)
  {
    if |s| == 0 then []
    else
      var rest := Filter(s[1..], p);
      assert forall x :: x in s <==> x == s[0] || x in s[1..];
      if p(s[0]) then [s[0]] + rest else rest
  }

  /** Inserting a row at the end of a table extends every query by at most that row. */
  lemma {:induction false} FilterAppend<T(!new)>(s: seq<T>, x: T, p: T -> bool)
    ensures Filter(s + [x], p) == Filter(s, p) + (if p(x) then [x] else [])
  {
    if |s| == 0 {
      assert s + [x] == [x];
    } else {
      assert (s + [x])[1..] == s[1..] + [x];
      FilterAppend(s[1..], x, p);
    }
  }

  /** A query no row satisfies returns nothing. */
  lemma {:induction false} FilterNone<T(!new)>(s: seq<T>, p: T -> bool)
    requires forall x :: x in s ==> !p(x)
    ensures Filter(s, p) == []
  {
    if |s| > 0 {
      assert s[0] in s;
      assert forall x :: x in s[1..] ==> x in s;
      FilterNone(s[1..], p);
    }
  }

  /** In a table with a unique key, equal keys mean the same row. */
  lemma KeyNamesOneRow<T, K>(s: seq<T>, key: T -> K, i: int, j: int)
    requires UniqueKeys(s, key)
    requires 0 <= i < |s| && 0 <= j < |s| && key(s[i]) == key(s[j])
    ensures i == j
  {
  }

  /** A query over a table with a unique key returns rows with a unique key. */
  lemma {:induction false} FilterKeepsKeysUnique<T(!new), K>(s: seq<T>, p: T -> bool, key: T -> K)
    requires UniqueKeys(s, key)
    ensures UniqueKeys(Filter(s, p), key)
  {
    if |s| > 0 {
      FilterKeepsKeysUnique(s[1..], p, key);
      var rest := Filter(s[1..], p);
      forall y | y in rest
        ensures key(y) != key(s[0])
      {
        var j :| 0 <= j < |s[1..]| && s[1..][j] == y;
        assert s[j + 1] == y;
      }
      if p(s[0]) {
        var r := [s[0]] + rest;
        forall i, j | 0 <= i < j < |r|
          ensures key(r[i]) != key(r[j])
        {
          if i == 0 {
            assert r[j] == rest[j - 1];
            assert r[j] in rest;
          } else {
            assert r[i] == rest[i - 1] && r[j] == rest[j - 1];
          }
        }
      }
    }
  }

  /** The first row of `s`, in the model's row order, that satisfies `p`, or
      `None` when there is none. */
  function Find<T(!new)>(s: seq<T>, p: T -> bool): (r: Option<T>)
    ensures r.Some? ==> r.value in s && p(r.value)
    ensures r.None? <==> forall x :: x in s ==> !p(x)
  {
    if |s| == 0 then None
    else if p(s[0]) then Some(s[0])
    else
      assert forall x :: x in s <==> x == s[0] || x in s[1..];
      Find(s[1..], p)
  }

  /** Inserting a row at the end of a table changes what `Find` returns only
      when no earlier row matches: then it returns the new row if that
      matches. */
  lemma {:induction false} FindAppend<T(!new)>(s: seq<T>, x: T, p: T -> bool)
    ensures Find(s + [x], p) == if Find(s, p).Some? then Find(s, p) else if p(x) then Some(x) else None
  {
    if |s| == 0 {
      assert s + [x] == [x];
      assert [x][1..] == [];
    } else {
      assert (s + [x])[0] == s[0];
      assert (s + [x])[1..] == s[1..] + [x];
      FindAppend(s[1..], x, p);
    }
  }

  /** `UPDATE ... SET f WHERE p`: every row satisfying `p` is rewritten by `f`. */
  function UpdateWhere<T>(s: seq<T>, p: T -> bool, f: T -> T): seq<T>
  {
    seq(|s|, i requires 0 <= i < |s| => if p(s[i]) then f(s[i]) else s[i])
  }

  /** The key a serial column hands to the next inserted row: above every key in use. */
  function NextId<T>(s: seq<T>, key: T -> Id): (r: Id)
    ensures r >= 1
    ensures forall i :: 0 <= i < |s| ==> key(s[i]) < r
  {
    if |s| == 0 then 1
    else
      var rest := NextId(s[1..], key);
      assert forall i :: 1 <= i < |s| ==> s[i] == s[1..][i - 1];
      if key(s[0]) + 1 > rest then key(s[0]) + 1 else rest
  }

  /** Appending a row under a fresh key keeps the key unique. */
  lemma AppendFreshKeepsKeysUnique<T, K>(s: seq<T>, x: T, key: T -> K)
    requires UniqueKeys(s, key)
    requires forall i :: 0 <= i < |s| ==> key(s[i]) != key(x)
    ensures UniqueKeys(s + [x], key)
  {
    var r := s + [x];
    forall i, j | 0 <= i < j < |r|
      ensures key(r[i]) != key(r[j])
    {
      assert r[i] == s[i];
    }
  }

  /** Rewriting rows without touching their keys keeps the key unique. */
  lemma UpdateKeepsKeysUnique<T, K>(s: seq<T>, p: T -> bool, f: T -> T, key: T -> K)
    requires UniqueKeys(s, key)
    requires forall x :: key(f(x)) == key(x)
    ensures UniqueKeys(UpdateWhere(s, p, f), key)
  {
  }
}
