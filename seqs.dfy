/** The pandas and list idioms the dashboard builds on, restated over `seq`:
    `Series.unique()` and `drop_duplicates` (distinct values, first occurrence
    kept, in first-seen order), a boolean mask `df[mask]` (the rows that pass,
    in table order) and Python's `list.index` (position of the first equal
    element, `ValueError` when there is none). */
module Seqs {
  import opened Wrappers

  predicate NoDups<T(==)>(s: seq<T>)
  {
    forall i, j :: 0 <= i < j < |s| ==> s[i] != s[j]
  }

  /** Number of occurrences of `x` in `s`. */
  function Count<T(==)>(s: seq<T>, x: T): (n: nat)
    ensures n <= |s|
    ensures n > 0 <==> x in s
  {
    if s == [] then 0
    else Count(s[..|s| - 1], x) + (if s[|s| - 1] == x then 1 else 0)
  }

  lemma {:induction false} CountAppend<T>(a: seq<T>, b: seq<T>, x: T)
    ensures Count(a + b, x) == Count(a, x) + Count(b, x)
    decreases |b|
  {
    if b == [] {
      assert a + b == a;
    } else {
      assert (a + b)[..|a + b| - 1] == a + b[..|b| - 1];
      CountAppend(a, b[..|b| - 1], x);
    }
  }

  /** In a sequence without duplicates every member occurs exactly once. */
  lemma {:induction false} NoDupsCountOne<T>(s: seq<T>, x: T)
    requires NoDups(s) && x in s
    ensures Count(s, x) == 1
  {
    var p := s[..|s| - 1];
    assert NoDups(p);
    if s[|s| - 1] == x {
      assert x !in p;
    } else {
      assert x in p;
      NoDupsCountOne(p, x);
    }
  }

  /** Position of the first occurrence of `x` in `s`. */
  function FirstIndex<T(==)>(s: seq<T>, x: T): (k: nat)
    requires x in s
    ensures k < |s| && s[k] == x && x !in s[..k]
  {
    if s[0] == x then 0 else 1 + FirstIndex(s[1..], x)
  }

  /** Python's `list(opts).index(x)`: the first position holding `x`, or a
      `ValueError` when `x` is not in the list. */
  function IndexOf<T(==)>(s: seq<T>, x: T): (r: Result<nat, T>)
    ensures r.Ok? <==> x in s
    ensures r.Ok? ==> r.value < |s| && s[r.value] == x && forall k :: 0 <= k < r.value ==> s[k] != x
    ensures r.Err? ==> r.error == x
  {
    if s == [] then Err(x)
    else if s[0] == x then Ok(0)
    else match IndexOf(s[1..], x)
      case Ok(k) => Ok(k + 1)
      case Err(e) => Err(e)
  }

  /** `Series.unique()`: the distinct values of `s` in the order they are first
      seen. The result has no duplicates and holds exactly the values of `s`. */
  function Unique<T(==,!new)>(s: seq<T>): (r: seq<T>)
    ensures NoDups(r)
    ensures forall x :: x in r <==> x in s
    ensures |r| <= |s|
  {
    if s == [] then []
    else
      var p := Unique(s[..|s| - 1]);
      if s[|s| - 1] in p then p else p + [s[|s| - 1]]
  }

  /** `Unique` of a sequence extended by one value: the value is listed last
      unless it was seen before. */
  lemma UniqueSnoc<T(!new)>(s: seq<T>, x: T)
    ensures Unique(s + [x]) == if x in Unique(s) then Unique(s) else Unique(s) + [x]
  {
    assert (s + [x])[..|s|] == s;
  }

  /** The first-seen order of `Unique`: of two values it lists, the one listed
      first occurs first in `s`. */
  lemma {:induction false} UniqueFirstSeenOrder<T(!new)>(s: seq<T>, i: nat, j: nat)
    requires i < j < |Unique(s)|
    ensures FirstIndex(s, Unique(s)[i]) < FirstIndex(s, Unique(s)[j])
  {
    var n := |s| - 1;
    var pre := s[..n];
    var p := Unique(pre);
    var u := Unique(s);
    assert u[..|p|] == p;
    FirstIndexPrefix(s, n, u[i]);
    if j < |p| {
      FirstIndexPrefix(s, n, u[j]);
      UniqueFirstSeenOrder(pre, i, j);
    } else {
      assert u[j] == s[n] && s[n] !in pre;
      assert FirstIndex(s, u[j]) == n by {
        var k := FirstIndex(s, u[j]);
        assert k >= n;
      }
    }
  }

  lemma {:induction false} FirstIndexPrefix<T>(s: seq<T>, n: nat, x: T)
    requires n <= |s| && x in s[..n]
    ensures FirstIndex(s, x) == FirstIndex(s[..n], x)
  {
    if s[0] != x {
      assert s[1..][..n - 1] == s[..n][1..];
      FirstIndexPrefix(s[1..], n - 1, x);
    }
  }

  /** The first distinct value is the first value. */
  lemma {:induction false} UniqueHead<T(!new)>(s: seq<T>)
    requires s != []
    ensures Unique(s) != [] && Unique(s)[0] == s[0]
  {
    if |s| > 1 {
      var p := s[..|s| - 1];
      assert p[0] == s[0];
      UniqueHead(p);
    }
  }

  /** `df[mask]`: the elements that pass `keep`, in their original order. */
  function Where<T(!new)>(s: seq<T>, keep: T -> bool): (r: seq<T>)
    ensures |r| <= |s|
    ensures forall x :: x in r <==> x in s && keep(x)
  {
    if s == [] then []
    else Where(s[..|s| - 1], keep) + (if keep(s[|s| - 1]) then [s[|s| - 1]] else [])
  }

  /** Masking a concatenation masks each part: this fixes the order of the result. */
  lemma {:induction false} WhereAppend<T(!new)>(a: seq<T>, b: seq<T>, keep: T -> bool)
    ensures Where(a + b, keep) == Where(a, keep) + Where(b, keep)
    decreases |b|
  {
    if b == [] {
      assert a + b == a;
    } else {
      assert (a + b)[..|a + b| - 1] == a + b[..|b| - 1];
      WhereAppend(a, b[..|b| - 1], keep);
    }
  }

  /** A non-empty sequence is its front followed by its last element. */
  lemma SplitLast<T>(s: seq<T>)
    requires s != []
    ensures s == s[..|s| - 1] + [s[|s| - 1]]
  {
  }

  /** Masking a sequence extended by one element. */
  lemma WhereSnoc<T(!new)>(s: seq<T>, x: T, keep: T -> bool)
    ensures Where(s + [x], keep) == Where(s, keep) + (if keep(x) then [x] else [])
  {
    assert (s + [x])[..|s|] == s;
  }

  /** Each element that passes keeps all its occurrences; the others lose all of theirs. */
  lemma {:induction false} WhereCount<T(!new)>(s: seq<T>, keep: T -> bool, x: T)
    ensures Count(Where(s, keep), x) == if keep(x) then Count(s, x) else 0
  {
    if s != [] {
      var p := s[..|s| - 1];
      var last := if keep(s[|s| - 1]) then [s[|s| - 1]] else [];
      WhereCount(p, keep, x);
      CountAppend(Where(p, keep), last, x);
      assert last != [] ==> last[..0] == [];
    }
  }

  /** A mask that every element passes keeps the whole sequence. */
  lemma {:induction false} WhereAll<T(!new)>(s: seq<T>, keep: T -> bool)
    requires forall x :: x in s ==> keep(x)
    ensures Where(s, keep) == s
  {
    if s != [] {
      var p, x := s[..|s| - 1], s[|s| - 1];
      assert s == p + [x];
      assert forall y :: y in p ==> y in s;
      WhereAll(p, keep);
      WhereSnoc(p, x, keep);
    }
  }

  /** Two distinct values met in the order a, b are listed as a, b. */
  lemma UniqueAB<T(!new)>(a: T, b: T)
    requires a != b
    ensures Unique([a, b]) == [a, b]
  {
    UniqueSnoc([], a);
    assert [] + [a] == [a];
    UniqueSnoc([a], b);
    assert [a] + [b] == [a, b];
  }

  /** Meeting a again after a, b lists nothing new. */
  lemma UniqueABA<T(!new)>(a: T, b: T)
    requires a != b
    ensures Unique([a, b, a]) == [a, b]
  {
    UniqueAB(a, b);
    UniqueSnoc([a, b], a);
    assert [a, b] + [a] == [a, b, a];
  }

  /** Three distinct values met in the order a, b, a, c are listed as a, b, c. */
  lemma UniqueOfFour<T(!new)>(a: T, b: T, c: T)
    requires a != b && a != c && b != c
    ensures Unique([a, b, a, c]) == [a, b, c]
  {
    UniqueABA(a, b);
    UniqueSnoc([a, b, a], c);
    assert [a, b, a] + [c] == [a, b, a, c];
  }

  /** `df[mask]` whose first row passes starts with that row. */
  lemma {:induction false} WhereHead<T(!new)>(s: seq<T>, keep: T -> bool)
    requires s != [] && keep(s[0])
    ensures Where(s, keep) != [] && Where(s, keep)[0] == s[0]
  {
    assert s == [s[0]] + s[1..];
    WhereAppend([s[0]], s[1..], keep);
    assert Where([s[0]], keep) == Where([], keep) + [s[0]] by {
      assert [s[0]][..0] == [];
    }
  }

  /** A mask passing both of two values keeps both. */
  lemma MaskKeepsBoth<T(!new)>(a: T, b: T, keep: T -> bool)
    requires keep(a) && keep(b)
    ensures Where([a, b], keep) == [a, b]
  {
    WhereSnoc([], a, keep);
    assert [] + [a] == [a];
    WhereSnoc([a], b, keep);
    assert [a] + [b] == [a, b];
  }

  /** A mask passing the first two of three values keeps two. */
  lemma MaskKeepsFirstTwoOfThree<T(!new)>(a: T, b: T, c: T, keep: T -> bool)
    requires keep(a) && keep(b) && !keep(c)
    ensures |Where([a, b, c], keep)| == 2
  {
    MaskKeepsBoth(a, b, keep);
    WhereSnoc([a, b], c, keep);
    assert [a, b] + [c] == [a, b, c];
  }

  /** Of four values met in order, a mask passing the first two keeps two. */
  lemma MaskKeepsFirstTwo<T(!new)>(a: T, b: T, c: T, d: T, keep: T -> bool)
    requires keep(a) && keep(b) && !keep(c) && !keep(d)
    ensures |Where([a, b, c, d], keep)| == 2
  {
    MaskKeepsFirstTwoOfThree(a, b, c, keep);
    WhereSnoc([a, b, c], d, keep);
    assert [a, b, c] + [d] == [a, b, c, d];
  }
}
