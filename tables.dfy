/**
 * Row-set operations shared by the in-memory tables: the `WHERE` filter, the
 * `LIMIT 1` lookup, `MAX(col)`, `LIMIT … OFFSET …` paging and the
 * `UPDATE … WHERE` rewrite.
 */
module Tables {
  import opened Wrappers
  import opened Order

  /** The rows of `s` that satisfy `p`, in table order (`WHERE p`, `Array.filter`). */
  function Filter<T(!new)>(s: seq<T>, p: T -> bool): (r: seq<T>)
    ensures |r| <= |s|
    ensures forall x :: x in r <==> x in s && p(x)
    decreases |s|
  {
    if s == [] then [] else (if p(s[0]) then [s[0]] else []) + Filter(s[1..], p)
  }

  lemma {:induction false} FilterSnoc<T(!new)>(s: seq<T>, x: T, p: T -> bool)
    ensures Filter(s + [x], p) == Filter(s, p) + (if p(x) then [x] else [])
    decreases |s|
  {
    if s != [] {
      assert (s + [x])[1..] == s[1..] + [x];
      FilterSnoc(s[1..], x, p);
    }
  }

  /** Each row mapped by `f`, the rows it maps to nothing dropped, in table order (an inner join). */
  function FilterMap<R, E>(s: seq<R>, f: R -> Option<E>): seq<E>
    decreases |s|
  {
    if s == [] then []
    else (if f(s[0]).Some? then [f(s[0]).value] else []) + FilterMap(s[1..], f)
  }

  lemma {:induction false} FilterMapAppend<R, E>(a: seq<R>, b: seq<R>, f: R -> Option<E>)
    ensures FilterMap(a + b, f) == FilterMap(a, f) + FilterMap(b, f)
    decreases |a|
  {
    if a != [] {
      assert (a + b)[1..] == a[1..] + b;
      FilterMapAppend(a[1..], b, f);
    } else {
      assert a + b == b;
    }
  }

  /** `a` is `b` with some elements left out and the rest kept in their order. */
  predicate IsSubsequence<T(==)>(a: seq<T>, b: seq<T>)
    decreases |b|
  {
    if b == [] then a == []
    else (a != [] && a[0] == b[0] && IsSubsequence(a[1..], b[1..])) || IsSubsequence(a, b[1..])
  }

  lemma {:induction false} FilterSubsequence<T(!new)>(s: seq<T>, p: T -> bool)
    ensures IsSubsequence(Filter(s, p), s)
    decreases |s|
  {
    if s != [] {
      FilterSubsequence(s[1..], p);
      if p(s[0]) {
        assert Filter(s, p)[1..] == Filter(s[1..], p);
      } else {
        assert Filter(s, p) == Filter(s[1..], p);
      }
    }
  }

  /** No two rows share a key (a primary key). */
  predicate UniqueKeys<T>(s: seq<T>, key: T -> int) {
    forall i, j :: 0 <= i < j < |s| ==> key(s[i]) != key(s[j])
  }

  lemma {:induction false} FilterKeepsUnique<T(!new)>(s: seq<T>, p: T -> bool, key: T -> int)
    requires UniqueKeys(s, key)
    ensures UniqueKeys(Filter(s, p), key)
    decreases |s|
  {
    if s != [] {
      FilterKeepsUnique(s[1..], p, key);
      var rest := Filter(s[1..], p);
      if p(s[0]) {
        var r := Filter(s, p);
        assert r == [s[0]] + rest;
        forall i, j | 0 <= i < j < |r| ensures key(r[i]) != key(r[j]) {
          if i == 0 {
            assert r[j] in s[1..];
            var k :| 0 <= k < |s[1..]| && s[1..][k] == r[j];
            assert s[k + 1] == r[j];
          } else {
            assert r[i] == rest[i - 1] && r[j] == rest[j - 1];
          }
        }
      } else {
        assert Filter(s, p) == rest;
      }
    }
  }

  lemma AppendKeepsUnique<T>(s: seq<T>, x: T, key: T -> int)
    requires UniqueKeys(s, key) && forall i :: 0 <= i < |s| ==> key(s[i]) < key(x)
    ensures UniqueKeys(s + [x], key)
  {
  }

  lemma UpdateKeepsUnique<T>(s: seq<T>, p: T -> bool, f: T -> T, key: T -> int)
    requires UniqueKeys(s, key) && forall y :: key(f(y)) == key(y)
    ensures UniqueKeys(UpdateWhere(s, p, f), key)
  {
    var r := UpdateWhere(s, p, f);
    forall i, j | 0 <= i < j < |r| ensures key(r[i]) != key(r[j]) {
      assert key(r[i]) == key(s[i]) && key(r[j]) == key(s[j]);
    }
  }

  /** The earliest row of `s` satisfying `p`, if any (`… LIMIT 1`, `Array.find`). */
  function First<T>(s: seq<T>, p: T -> bool): (r: Option<T>)
    ensures r.None? <==> forall i :: 0 <= i < |s| ==> !p(s[i])
    ensures r.Some? ==> exists i :: 0 <= i < |s| && s[i] == r.value && p(s[i])
                                    && forall j :: 0 <= j < i ==> !p(s[j])
    decreases |s|
  {
    if s == [] then None
    else if p(s[0]) then Some(s[0])
    else
      var r := First(s[1..], p);
      assert r.Some? ==> exists i :: 0 <= i < |s[1..]| && s[1..][i] == r.value && p(s[1..][i])
                                    && forall j :: 0 <= j < i ==> !p(s[1..][j]);
      r
  }

  /** When exactly one row satisfies `p`, it is the one found. */
  lemma FirstUnique<T>(s: seq<T>, p: T -> bool, i: int)
    requires 0 <= i < |s| && p(s[i])
    requires forall j :: 0 <= j < |s| && j != i ==> !p(s[j])
    ensures First(s, p) == Some(s[i])
  {
  }

  /** The row whose primary key is `id`: `WHERE id = ?`, the first match. */
  function FindRow<T(==)>(s: seq<T>, key: T -> int, id: int): (r: Option<T>)
    ensures r.Some? <==> exists i :: 0 <= i < |s| && key(s[i]) == id
    ensures r.Some? ==> r.value in s && key(r.value) == id
  {
    First(s, (x: T) => key(x) == id)
  }

  /** With unique keys the row found for a key is the row carrying it. */
  lemma FindRowUnique<T>(s: seq<T>, key: T -> int, i: int)
    requires UniqueKeys(s, key) && 0 <= i < |s|
    ensures FindRow(s, key, key(s[i])) == Some(s[i])
  {
    forall j | 0 <= j < |s| && j != i ensures key(s[j]) != key(s[i]) {
      if j < i {
        assert key(s[j]) != key(s[i]);
      } else {
        assert key(s[i]) != key(s[j]);
      }
    }
    FirstUnique(s, (x: T) => key(x) == key(s[i]), i);
  }

  /** `MAX(key)` over the rows: NULL (`None`) when there are no rows. */
  function MaxKey<T(!new)>(s: seq<T>, key: T -> int): (r: Option<int>)
    ensures r.None? <==> s == []
    ensures r.Some? ==> forall x :: x in s ==> key(x) <= r.value
    ensures r.Some? ==> exists x :: x in s && key(x) == r.value
    decreases |s|
  {
    if s == [] then None
    else match MaxKey(s[1..], key)
      case None => Some(key(s[0]))
      case Some(m) => if key(s[0]) < m then Some(m) else Some(key(s[0]))
  }

  /**
   * SQLite's `LIMIT limit OFFSET offset`: a negative offset counts as zero
   * and a negative limit means no limit.
   */
  function Page<T>(s: seq<T>, limit: int, offset: int): (r: seq<T>)
    ensures var from := if offset < 0 then 0 else if offset > |s| then |s| else offset;
            && (limit >= 0 ==> |r| == if |s| - from < limit then |s| - from else limit)
            && (limit < 0 ==> |r| == |s| - from)
            && forall i :: 0 <= i < |r| ==> r[i] == s[from + i]
  {
    var from := if offset < 0 then 0 else if offset > |s| then |s| else offset;
    var rest := s[from..];
    if limit < 0 || limit >= |rest| then rest else rest[..limit]
  }

  /** A page of an ordered result is ordered, and holds rows of it only. */
  lemma PageOfSorted<T>(s: seq<T>, le: (T, T) -> bool, limit: int, offset: int)
    requires SortedBy(s, le)
    ensures SortedBy(Page(s, limit, offset), le)
    ensures forall x :: x in Page(s, limit, offset) ==> x in s
    ensures limit >= 0 ==> |Page(s, limit, offset)| <= limit
  {
    var r := Page(s, limit, offset);
    var from := if offset < 0 then 0 else if offset > |s| then |s| else offset;
    forall i, j | 0 <= i < j < |r| ensures le(r[i], r[j]) {
      assert r[i] == s[from + i] && r[j] == s[from + j];
    }
    forall x | x in r ensures x in s {
      var i :| 0 <= i < |r| && r[i] == x;
      assert s[from + i] == x;
    }
  }

  /**
   * A page of an ordered result is a contiguous window of it: a row left out
   * sorts wholly before or wholly after the listed ones; from offset 0 every
   * row left out sorts after them; and from offset 0 a limit that covers the
   * result lists all of it.
   */
  lemma PageWindow<T>(s: seq<T>, le: (T, T) -> bool, limit: int, offset: int)
    requires SortedBy(s, le)
    ensures var r := Page(s, limit, offset);
            forall x :: x in s && x !in r ==>
              (forall i :: 0 <= i < |r| ==> le(x, r[i])) || (forall i :: 0 <= i < |r| ==> le(r[i], x))
    ensures var r := Page(s, limit, offset);
            offset <= 0 ==> forall x :: x in s && x !in r ==> forall i :: 0 <= i < |r| ==> le(r[i], x)
    ensures offset <= 0 && (limit < 0 || |s| <= limit) ==> Page(s, limit, offset) == s
  {
    var r := Page(s, limit, offset);
    var from := if offset < 0 then 0 else if offset > |s| then |s| else offset;
    forall k | from <= k < from + |r| ensures s[k] in r {
      assert r[k - from] == s[k];
    }
    forall x | x in s && x !in r
      ensures (forall i :: 0 <= i < |r| ==> le(x, r[i])) || (forall i :: 0 <= i < |r| ==> le(r[i], x))
      ensures offset <= 0 ==> forall i :: 0 <= i < |r| ==> le(r[i], x)
    {
      var j :| 0 <= j < |s| && s[j] == x;
      if j < from {
        forall i | 0 <= i < |r| ensures le(x, r[i]) {
          assert r[i] == s[from + i];
        }
      } else {
        assert j >= from + |r|;
        forall i | 0 <= i < |r| ensures le(r[i], x) {
          assert r[i] == s[from + i];
        }
      }
    }
    if offset <= 0 && (limit < 0 || |s| <= limit) {
      assert |r| == |s| && forall i :: 0 <= i < |r| ==> r[i] == s[i];
    }
  }

  /** `UPDATE … SET f WHERE p`: every matching row rewritten by `f`, the others kept. */
  function UpdateWhere<T>(s: seq<T>, p: T -> bool, f: T -> T): (r: seq<T>)
    ensures |r| == |s|
    ensures forall i :: 0 <= i < |s| ==> r[i] == if p(s[i]) then f(s[i]) else s[i]
  {
    seq(|s|, i requires 0 <= i < |s| => if p(s[i]) then f(s[i]) else s[i])
  }

  /** How many rows satisfy `p` (the affected-row count of an `UPDATE` or `DELETE`). */
  function Count<T>(s: seq<T>, p: T -> bool): (n: nat)
    ensures n == 0 <==> forall i :: 0 <= i < |s| ==> !p(s[i])
    ensures n <= |s|
    decreases |s|
  {
    if s == [] then 0 else (if p(s[0]) then 1 else 0) + Count(s[1..], p)
  }
}
