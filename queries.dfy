/** The query and list primitives the backend relies on, over a table held
    as a sequence of rows in primary-key order:
    `.filter(p).first()`, `.filter(p).all()`, `.offset(skip).limit(n)`,
    and Python's `list.remove(x)`. */
module Queries {
  import opened Models

  /** `.filter(p).first()`: the index of the first row satisfying `p`. */
  function FindFirst<T>(rows: seq<T>, p: T -> bool): (r: Option<nat>)
    ensures r.Some? ==> r.value < |rows| && p(rows[r.value])
    ensures r.Some? ==> forall j :: 0 <= j < r.value ==> !p(rows[j])
    ensures r.None? <==> forall j :: 0 <= j < |rows| ==> !p(rows[j])
  {
    if |rows| == 0 then None
    else if p(rows[0]) then Some(0)
    else match FindFirst(rows[1..], p)
      case None => None
      case Some(k) => Some(k + 1)
  }

  /** `.filter(p).first()` as a row: the first row satisfying `p`, if any. */
  function Lookup<T>(rows: seq<T>, p: T -> bool): (r: Option<T>)
    ensures r.Some? ==> exists k :: 0 <= k < |rows| && rows[k] == r.value && p(rows[k])
                                    && forall j :: 0 <= j < k ==> !p(rows[j])
    ensures r.None? <==> forall j :: 0 <= j < |rows| ==> !p(rows[j])
  {
    match FindFirst(rows, p)
    case None => None
    case Some(k) => Some(rows[k])
  }

  /** `r` is `s` with some elements left out and the rest in their order. */
  predicate Subsequence<T(==)>(r: seq<T>, s: seq<T>)
    decreases |s|
  {
    |r| == 0 || (|s| > 0 && ((r[0] == s[0] && Subsequence(r[1..], s[1..])) || Subsequence(r, s[1..])))
  }

  /** `.filter(p).all()`: only rows satisfying `p`, every such row, no row
      more often than the table holds it, in table order. */
  function Filter<T(==)>(rows: seq<T>, p: T -> bool): (r: seq<T>)
    ensures |r| <= |rows|
    ensures forall i :: 0 <= i < |r| ==> r[i] in rows && p(r[i])
    ensures forall i :: 0 <= i < |rows| && p(rows[i]) ==> rows[i] in r
    ensures multiset(r) <= multiset(rows)
    ensures Subsequence(r, rows)
  {
    if |rows| == 0 then []
    else
      assert rows == [rows[0]] + rows[1..];
      if p(rows[0]) then
        var rest := Filter(rows[1..], p);
        assert ([rows[0]] + rest)[1..] == rest;
        [rows[0]] + rest
      else Filter(rows[1..], p)
  }

  /** Each value appears in the result exactly as often as in the table
      when it satisfies `p`, and not at all otherwise. */
  lemma {:induction false} FilterCounts<T>(rows: seq<T>, p: T -> bool)
    ensures forall x :: multiset(Filter(rows, p))[x] == if p(x) then multiset(rows)[x] else 0
  {
    if |rows| > 0 {
      FilterCounts(rows[1..], p);
      assert rows == [rows[0]] + rows[1..];
    }
  }

  /** Filtering a duplicate-free table gives a duplicate-free result. */
  lemma {:induction false} FilterOfDistinct<T>(rows: seq<T>, p: T -> bool)
    requires NoDuplicates(rows)
    ensures NoDuplicates(Filter(rows, p))
  {
    if |rows| > 0 {
      var tail := rows[1..];
      TailOfDistinct(rows);
      FilterOfDistinct(tail, p);
      if p(rows[0]) {
        var rest := Filter(tail, p);
        assert rows[0] !in rest by {
          assert rows[0] !in tail by { assert rows == [rows[0]] + tail; }
        }
        PrependFresh(rest, rows[0]);
      }
    }
  }

  lemma TailOfDistinct<T>(s: seq<T>)
    requires NoDuplicates(s) && |s| > 0
    ensures NoDuplicates(s[1..])
  {
    var t := s[1..];
    forall i, j | 0 <= i < j < |t| ensures t[i] != t[j] {
      assert t[i] == s[i + 1] && t[j] == s[j + 1];
    }
  }

  lemma PrependFresh<T>(s: seq<T>, x: T)
    requires NoDuplicates(s) && x !in s
    ensures NoDuplicates([x] + s)
  {
    var t := [x] + s;
    forall i, j | 0 <= i < j < |t| ensures t[i] != t[j] {
      assert t[j] == s[j - 1];
      if i > 0 {
        assert t[i] == s[i - 1];
      }
    }
  }

  /** `.offset(skip).limit(limit)`: at most `limit` rows, starting at row `skip`. */
  function Window<T>(rows: seq<T>, skip: nat, limit: nat): (r: seq<T>)
    ensures |r| == if skip >= |rows| then 0 else if |rows| - skip < limit then |rows| - skip else limit
    ensures forall i :: 0 <= i < |r| ==> r[i] == rows[skip + i]
  {
    if skip >= |rows| then []
    else if |rows| - skip < limit then rows[skip..]
    else rows[skip..skip + limit]
  }

  /** The position of the first occurrence of `x` in `s`. */
  function IndexOf<T(==)>(s: seq<T>, x: T): (k: nat)
    requires x in s
    ensures k < |s| && s[k] == x
    ensures forall j :: 0 <= j < k ==> s[j] != x
  {
    if s[0] == x then 0 else IndexOf(s[1..], x) + 1
  }

  /** Python's `list.remove(x)` with the "not present" case made a no-op:
      exactly one element goes, and only when `x` is present
      (`RemoveFirstMultiset`: it is one copy of `x`). */
  function RemoveFirst<T(==)>(s: seq<T>, x: T): (r: seq<T>)
    ensures x !in s ==> r == s
    ensures x in s ==> |r| == |s| - 1
  {
    if x in s then
      var k := IndexOf(s, x);
      s[..k] + s[k + 1..]
    else s
  }

  /** `remove` takes away one copy of `x` and nothing else. */
  lemma RemoveFirstMultiset<T>(s: seq<T>, x: T)
    ensures multiset(RemoveFirst(s, x)) == multiset(s) - multiset{x}
  {
    if x in s {
      var k := IndexOf(s, x);
      var a, b := s[..k], s[k + 1..];
      assert s == a + [x] + b;
      var ms, mr := multiset(s), multiset(a + b);
      assert ms == mr + multiset{x};
      assert forall y :: (ms - multiset{x})[y] == mr[y];
    }
  }

  predicate NoDuplicates<T(==)>(s: seq<T>) {
    forall i, j :: 0 <= i < j < |s| ==> s[i] != s[j]
  }

  lemma CutIndex<T>(s: seq<T>, k: nat, i: nat)
    requires k < |s| && i < |s| - 1
    ensures (s[..k] + s[k + 1..])[i] == s[if i < k then i else i + 1]
  {
  }

  /** Removing a member from a duplicate-free list keeps it duplicate-free. */
  lemma RemoveFirstKeepsNoDuplicates<T>(s: seq<T>, x: T)
    requires NoDuplicates(s)
    ensures NoDuplicates(RemoveFirst(s, x))
  {
    if x in s {
      var k := IndexOf(s, x);
      var r := s[..k] + s[k + 1..];
      forall i, j | 0 <= i < j < |r| ensures r[i] != r[j] {
        CutIndex(s, k, i);
        CutIndex(s, k, j);
      }
    }
  }

  /** Removing a member from a duplicate-free list takes out exactly that
      member and keeps every other one. */
  lemma RemoveFirstMembers<T>(s: seq<T>, x: T)
    requires NoDuplicates(s)
    ensures forall y :: y in RemoveFirst(s, x) <==> y in s && y != x
  {
    if x in s {
      var k := IndexOf(s, x);
      var r := s[..k] + s[k + 1..];
      forall i | 0 <= i < |r| ensures r[i] in s && r[i] != x {
        CutIndex(s, k, i);
      }
      forall j | 0 <= j < |s| && j != k ensures s[j] in r {
        var i := if j < k then j else j - 1;
        CutIndex(s, k, i);
      }
    }
  }

  /** Appending an element that is not yet present keeps a list duplicate-free. */
  lemma AppendFresh<T>(s: seq<T>, x: T)
    requires NoDuplicates(s) && x !in s
    ensures NoDuplicates(s + [x])
  {
    var t := s + [x];
    forall i, j | 0 <= i < j < |t| ensures t[i] != t[j] {
      if j == |s| {
        assert t[i] == s[i];
      } else {
        assert t[i] == s[i] && t[j] == s[j];
      }
    }
  }
}
