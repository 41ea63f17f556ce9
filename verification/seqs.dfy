/** Generic sequence helpers: counting, searching, removal, truncation and a stable sort. */
module Seqs {
  import opened Wrappers

  /** Number of elements of `s` satisfying `p`. */
  function CountIf<T>(s: seq<T>, p: T -> bool): (n: nat)
    ensures n <= |s|
  {
    if |s| == 0 then 0
    else (if p(s[0]) then 1 else 0) + CountIf(s[1..], p)
  }

  /** The count is zero exactly when no element qualifies, and full exactly when all do. */
  lemma {:induction false} CountIfExtremes<T>(s: seq<T>, p: T -> bool)
    ensures CountIf(s, p) == 0 <==> forall i :: 0 <= i < |s| ==> !p(s[i])
    ensures CountIf(s, p) == |s| <==> forall i :: 0 <= i < |s| ==> p(s[i])
  {
    if |s| > 0 {
      CountIfExtremes(s[1..], p);
      assert forall i :: 1 <= i < |s| ==> s[i] == s[1..][i - 1];
    }
  }

  lemma {:induction false} CountIfAppend<T>(a: seq<T>, b: seq<T>, p: T -> bool)
    ensures CountIf(a + b, p) == CountIf(a, p) + CountIf(b, p)
  {
    if |a| == 0 {
      assert a + b == b;
    } else {
      assert (a + b)[1..] == a[1..] + b;
      CountIfAppend(a[1..], b, p);
    }
  }

  /** One step of the count: the head, then the rest. */
  lemma CountIfCons<T>(s: seq<T>, p: T -> bool)
    requires |s| > 0
    ensures CountIf(s, p) == (if p(s[0]) then 1 else 0) + CountIf(s[1..], p)
  {
  }

  /** An element meeting `p` always meets `q` too, so `q` counts at least as many. */
  lemma {:induction false} CountIfImplies<T>(s: seq<T>, p: T -> bool, q: T -> bool)
    requires forall i :: 0 <= i < |s| && p(s[i]) ==> q(s[i])
    ensures CountIf(s, p) <= CountIf(s, q)
  {
    if |s| > 0 {
      assert forall i :: 1 <= i < |s| ==> s[1..][i - 1] == s[i];
      CountIfImplies(s[1..], p, q);
    }
  }

  /** Counting does not depend on the order of the elements. */
  lemma {:induction false} CountIfPermutation<T>(a: seq<T>, b: seq<T>, p: T -> bool)
    requires multiset(a) == multiset(b)
    ensures CountIf(a, p) == CountIf(b, p)
    decreases |a|
  {
    if |a| == 0 {
      assert |b| == |multiset(b)| == 0;
    } else {
      var x := a[0];
      assert x in multiset(b) by {
        assert x in multiset(a);
      }
      var j :| 0 <= j < |b| && b[j] == x;
      var rest := RemoveAt(b, j);
      assert multiset(a[1..]) == multiset(rest) by {
        assert a == [x] + a[1..];
        RemoveAtMultiset(b, j);
        MultisetCancel(multiset(a[1..]), multiset(rest), x);
      }
      CountIfPermutation(a[1..], rest, p);
      CountIfRemoveAt(b, j, p);
    }
  }

  lemma MultisetCancel<T>(m: multiset<T>, n: multiset<T>, x: T)
    requires m + multiset{x} == n + multiset{x}
    ensures m == n
  {
    forall y
      ensures m[y] == n[y]
    {
      assert (m + multiset{x})[y] == m[y] + multiset{x}[y];
      assert (n + multiset{x})[y] == n[y] + multiset{x}[y];
    }
  }

  /** Removing one element lowers the count by one exactly when that element qualifies. */
  lemma {:induction false} CountIfRemoveAt<T>(s: seq<T>, i: nat, p: T -> bool)
    requires i < |s|
    ensures CountIf(s, p) == CountIf(RemoveAt(s, i), p) + (if p(s[i]) then 1 else 0)
  {
    var r := RemoveAt(s, i);
    if i == 0 {
      assert r == s[1..];
    } else {
      CountIfRemoveAt(s[1..], i - 1, p);
      var r' := RemoveAt(s[1..], i - 1);
      assert r == [s[0]] + r';
      assert r[1..] == r';
    }
  }

  /** Index of the first element satisfying `p` (JavaScript's `findIndex`, with `None` for -1). */
  function FindIndex<T>(s: seq<T>, p: T -> bool): (r: Option<nat>)
    ensures r.Some? ==> r.value < |s| && p(s[r.value])
    ensures r.Some? ==> forall j :: 0 <= j < r.value ==> !p(s[j])
    ensures r.None? <==> forall j :: 0 <= j < |s| ==> !p(s[j])
  {
    if |s| == 0 then None
    else if p(s[0]) then Some(0)
    else match FindIndex(s[1..], p)
      case None => None
      case Some(i) => Some(i + 1)
  }

  /** `s` with the element at `i` removed (JavaScript's `splice(i, 1)`). */
  function RemoveAt<T>(s: seq<T>, i: nat): (r: seq<T>)
    requires i < |s|
    ensures |r| == |s| - 1
    ensures forall j :: 0 <= j < i ==> r[j] == s[j]
    ensures forall j :: i <= j < |r| ==> r[j] == s[j + 1]
  {
    s[..i] + s[i + 1..]
  }

  /** Some element of `s` is mapped by `f` to `Some(v)`. */
  ghost predicate Yields<T, U>(s: seq<T>, f: T -> Option<U>, v: U) {
    exists i :: 0 <= i < |s| && f(s[i]) == Some(v)
  }

  lemma YieldsCons<T, U>(s: seq<T>, f: T -> Option<U>, v: U)
    requires |s| > 0
    ensures Yields(s, f, v) <==> f(s[0]) == Some(v) || Yields(s[1..], f, v)
  {
    if Yields(s[1..], f, v) {
      var i :| 0 <= i < |s[1..]| && f(s[1..][i]) == Some(v);
      assert f(s[i + 1]) == Some(v);
    }
    if Yields(s, f, v) && f(s[0]) != Some(v) {
      var i :| 0 <= i < |s| && f(s[i]) == Some(v);
      assert f(s[1..][i - 1]) == Some(v);
    }
  }

  /** Removing element `j` loses no value when another element `i` yields the same. */
  lemma YieldsRemoveAt<T, U>(s: seq<T>, f: T -> Option<U>, v: U, i: nat, j: nat)
    requires i < |s| && j < |s| && i != j
    requires f(s[j]) == f(s[i])
    ensures Yields(RemoveAt(s, j), f, v) <==> Yields(s, f, v)
  {
    var rest := RemoveAt(s, j);
    if Yields(rest, f, v) {
      var k :| 0 <= k < |rest| && f(rest[k]) == Some(v);
      var k' := if k < j then k else k + 1;
      assert rest[k] == s[k'];
    }
    if Yields(s, f, v) {
      var k :| 0 <= k < |s| && f(s[k]) == Some(v);
      var m := if k == j then i else k;
      var k' := if m < j then m else m - 1;
      assert rest[k'] == s[m];
    }
  }

  /** Every element but the removed one stays, and nothing else arrives. */
  lemma RemoveAtContents<T>(s: seq<T>, k: nat)
    requires k < |s|
    ensures forall i :: 0 <= i < |s| && i != k ==> s[i] in RemoveAt(s, k)
    ensures forall i :: 0 <= i < |s| - 1 ==> RemoveAt(s, k)[i] in s
  {
    var r := RemoveAt(s, k);
    forall i | 0 <= i < |s| && i != k
      ensures s[i] in r
    {
      if i < k {
        assert r[i] == s[i];
      } else {
        assert r[i - 1] == s[i];
      }
    }
    forall i | 0 <= i < |r|
      ensures r[i] in s
    {
      if i < k {
        assert r[i] == s[i];
      } else {
        assert r[i] == s[i + 1];
      }
    }
  }

  /** Removal takes away exactly one occurrence of the removed element. */
  lemma RemoveAtMultiset<T>(s: seq<T>, i: nat)
    requires i < |s|
    ensures multiset(RemoveAt(s, i)) + multiset{s[i]} == multiset(s)
  {
    assert s == s[..i] + [s[i]] + s[i + 1..];
  }

  /** The elements of `s` satisfying `p`, in order (JavaScript's `filter`). */
  function Filter<T>(s: seq<T>, p: T -> bool): (r: seq<T>)
    ensures |r| == CountIf(s, p)
    ensures forall i :: 0 <= i < |r| ==> p(r[i])
  {
    if |s| == 0 then []
    else if p(s[0]) then [s[0]] + Filter(s[1..], p)
    else Filter(s[1..], p)
  }

  /** Filtering keeps every qualifying element and adds nothing. */
  lemma {:induction false} FilterContents<T>(s: seq<T>, p: T -> bool)
    ensures forall i :: 0 <= i < |s| && p(s[i]) ==> s[i] in Filter(s, p)
    ensures multiset(Filter(s, p)) <= multiset(s)
  {
    if |s| > 0 {
      FilterContents(s[1..], p);
      assert s == [s[0]] + s[1..];
      assert forall i :: 1 <= i < |s| ==> s[i] == s[1..][i - 1];
    }
  }

  /** Filtering with a predicate every element meets keeps everything. */
  lemma {:induction false} FilterAll<T>(s: seq<T>, p: T -> bool)
    requires forall j :: 0 <= j < |s| ==> p(s[j])
    ensures Filter(s, p) == s
  {
    if |s| > 0 {
      FilterAll(s[1..], p);
      assert s == [s[0]] + s[1..];
    }
  }

  /** Filtering out the one element that fails `p` is removing it. */
  lemma {:induction false} FilterAllButOne<T>(s: seq<T>, i: nat, p: T -> bool)
    requires i < |s| && !p(s[i])
    requires forall j :: 0 <= j < |s| && j != i ==> p(s[j])
    ensures Filter(s, p) == RemoveAt(s, i)
  {
    if i == 0 {
      FilterAll(s[1..], p);
      assert RemoveAt(s, 0) == s[1..];
    } else {
      FilterAllButOne(s[1..], i - 1, p);
      assert p(s[0]);
      var r' := RemoveAt(s[1..], i - 1);
      assert RemoveAt(s, i) == [s[0]] + r';
    }
  }

  /** The sum of `f` over the elements of `s`. */
  function SumOf<T>(s: seq<T>, f: T -> int): int {
    if |s| == 0 then 0 else f(s[0]) + SumOf(s[1..], f)
  }

  /** Replacing one element changes the sum by the difference of the two values. */
  lemma {:induction false} SumOfUpdate<T>(s: seq<T>, k: nat, x: T, f: T -> int)
    requires k < |s|
    ensures SumOf(s[k := x], f) == SumOf(s, f) - f(s[k]) + f(x)
  {
    if k == 0 {
      assert s[k := x][1..] == s[1..];
    } else {
      SumOfUpdate(s[1..], k - 1, x, f);
      assert s[k := x][1..] == s[1..][k - 1 := x];
    }
  }

  /** The first `n` of the sorted qualifying elements are qualifying elements of `s`. */
  lemma TopOfFilterFrom<T>(s: seq<T>, p: T -> bool, key: T -> int, n: nat, r: seq<T>)
    requires r == Take(SortDesc(Filter(s, p), key), n)
    ensures forall i :: 0 <= i < |r| ==> r[i] in s && p(r[i])
  {
    var f := Filter(s, p);
    var sorted := SortDesc(f, key);
    FilterContents(s, p);
    forall i | 0 <= i < |r|
      ensures r[i] in s && p(r[i])
    {
      assert r[i] == sorted[i];
      assert sorted[i] in multiset(f);
      var j :| 0 <= j < |f| && f[j] == sorted[i];
    }
  }

  /** The first `n` elements of `s` (JavaScript's `slice(0, n)`). */
  function Take<T>(s: seq<T>, n: nat): (r: seq<T>)
    ensures |r| == if |s| <= n then |s| else n
    ensures r == s[..|r|]
  {
    if |s| <= n then s else s[..n]
  }

  /** A prefix holds no element more often than the whole. */
  lemma TakeSubMultiset<T>(s: seq<T>, n: nat)
    ensures multiset(Take(s, n)) <= multiset(s)
  {
    var t := Take(s, n);
    assert s == t + s[|t|..];
  }

  /** `key` is non-increasing along `s`. */
  ghost predicate SortedDesc<T>(s: seq<T>, key: T -> int) {
    forall i, j :: 0 <= i < j < |s| ==> key(s[i]) >= key(s[j])
  }

  /**
   * Inserts `x` in front of the first element whose key is not greater, so
   * that `x` precedes elements with an equal key.
   */
  function InsertDesc<T>(x: T, s: seq<T>, key: T -> int): (r: seq<T>)
    ensures multiset(r) == multiset(s) + multiset{x}
    ensures |r| == |s| + 1
    ensures r[0] == if |s| == 0 || key(x) >= key(s[0]) then x else s[0]
  {
    if |s| == 0 || key(x) >= key(s[0]) then [x] + s
    else
      var t := InsertDesc(x, s[1..], key);
      assert multiset(s) == multiset{s[0]} + multiset(s[1..]) by {
        assert s == [s[0]] + s[1..];
      }
      [s[0]] + t
  }

  /** Inserting into a sorted sequence keeps it sorted. */
  lemma {:induction false} InsertDescSorted<T>(x: T, s: seq<T>, key: T -> int)
    requires SortedDesc(s, key)
    ensures SortedDesc(InsertDesc(x, s, key), key)
  {
    if |s| == 0 || key(x) >= key(s[0]) {
      SortedCons(x, s, key);
    } else {
      SortedTail(s, key);
      InsertDescSorted(x, s[1..], key);
      assert |s| > 1 ==> key(s[0]) >= key(s[1]);
      SortedCons(s[0], InsertDesc(x, s[1..], key), key);
    }
  }

  lemma SortedTail<T>(s: seq<T>, key: T -> int)
    requires SortedDesc(s, key) && |s| > 0
    ensures SortedDesc(s[1..], key)
  {
    forall i, j | 0 <= i < j < |s| - 1
      ensures key(s[1..][i]) >= key(s[1..][j])
    {
      assert s[1..][i] == s[i + 1] && s[1..][j] == s[j + 1];
    }
  }

  lemma SortedCons<T>(x: T, t: seq<T>, key: T -> int)
    requires SortedDesc(t, key) && (|t| == 0 || key(x) >= key(t[0]))
    ensures SortedDesc([x] + t, key)
  {
    var r := [x] + t;
    forall i, j | 0 <= i < j < |r|
      ensures key(r[i]) >= key(r[j])
    {
      assert r[j] == t[j - 1];
      if i == 0 {
        assert key(t[0]) >= key(t[j - 1]) || j == 1;
      } else {
        assert r[i] == t[i - 1];
      }
    }
  }

  /**
   * A stable sort by `key`, largest first: the result of JavaScript's
   * `sort((a, b) => key(b) - key(a))`, whose sort is stable.
   */
  function SortDesc<T>(s: seq<T>, key: T -> int): (r: seq<T>)
    ensures SortedDesc(r, key)
    ensures multiset(r) == multiset(s)
    ensures |r| == |s|
  {
    if |s| == 0 then []
    else
      assert s == [s[0]] + s[1..];
      InsertDescSorted(s[0], SortDesc(s[1..], key), key);
      InsertDesc(s[0], SortDesc(s[1..], key), key)
  }

  /** The elements whose `key` is `v`. */
  function KeyIs<T>(key: T -> int, v: int): T -> bool {
    (x: T) => key(x) == v
  }

  /** Inserting `x` puts it in front of the other elements with its key. */
  lemma {:induction false} InsertDescTies<T>(x: T, s: seq<T>, key: T -> int, v: int)
    ensures Filter(InsertDesc(x, s, key), KeyIs(key, v)) == (if key(x) == v then [x] else []) + Filter(s, KeyIs(key, v))
    decreases |s|
  {
    if |s| == 0 || key(x) >= key(s[0]) {
      assert ([x] + s)[1..] == s;
    } else {
      InsertDescTies(x, s[1..], key, v);
      assert ([s[0]] + InsertDesc(x, s[1..], key))[1..] == InsertDesc(x, s[1..], key);
    }
  }

  /** The sort is stable: the elements with one key keep their order. */
  lemma {:induction false} SortDescStable<T>(s: seq<T>, key: T -> int, v: int)
    ensures Filter(SortDesc(s, key), KeyIs(key, v)) == Filter(s, KeyIs(key, v))
  {
    if |s| > 0 {
      SortDescStable(s[1..], key, v);
      InsertDescTies(s[0], SortDesc(s[1..], key), key, v);
    }
  }

  lemma {:induction false} FilterAppend<T>(a: seq<T>, b: seq<T>, p: T -> bool)
    ensures Filter(a + b, p) == Filter(a, p) + Filter(b, p)
  {
    if |a| > 0 {
      FilterAppend(a[1..], b, p);
      assert (a + b)[1..] == a[1..] + b;
    } else {
      assert a + b == b;
    }
  }

  /** The qualifying elements of a prefix are the first qualifying elements of the whole. */
  lemma FilterOfTake<T>(s: seq<T>, n: nat, p: T -> bool)
    ensures var f := Filter(Take(s, n), p);
      |f| <= |Filter(s, p)| && f == Filter(s, p)[..|f|]
  {
    var t := Take(s, n);
    assert s == t + s[|t|..];
    FilterAppend(t, s[|t|..], p);
  }

  /** The first qualifying index is the only index the search can return. */
  lemma FindIndexIsFirst<T>(s: seq<T>, p: T -> bool, i: nat)
    requires i < |s| && p(s[i])
    requires forall j :: 0 <= j < i ==> !p(s[j])
    ensures FindIndex(s, p) == Some(i)
  {
  }

  /** Searching a sequence with one more element at the end. */
  lemma FindIndexSnoc<T>(s: seq<T>, x: T, p: T -> bool)
    ensures FindIndex(s + [x], p) == match FindIndex(s, p)
      case Some(i) => Some(i)
      case None => if p(x) then Some(|s|) else None
  {
    var t := s + [x];
    assert forall j :: 0 <= j < |s| ==> t[j] == s[j];
    match FindIndex(s, p)
    case Some(i) =>
      FindIndexIsFirst(t, p, i);
    case None =>
      if p(x) {
        FindIndexIsFirst(t, p, |s|);
      } else {
        assert forall j :: 0 <= j < |t| ==> !p(t[j]);
      }
  }

  /**
   * Index of the first element satisfying `p` whose `key` is the largest
   * among those satisfying `p`.
   */
  function FirstBest<T>(s: seq<T>, p: T -> bool, key: T -> int): (r: Option<nat>)
    ensures r.None? <==> forall i :: 0 <= i < |s| ==> !p(s[i])
    ensures r.Some? ==> r.value < |s| && p(s[r.value])
    ensures r.Some? ==> forall j :: 0 <= j < |s| && p(s[j]) ==> key(s[j]) <= key(s[r.value])
    ensures r.Some? ==> forall j :: 0 <= j < r.value && p(s[j]) ==> key(s[j]) < key(s[r.value])
  {
    if |s| == 0 then None
    else
      var rest := FirstBest(s[1..], p, key);
      assert forall j :: 1 <= j < |s| ==> s[j] == s[1..][j - 1];
      PickBetter(p(s[0]), rest, key, s)
  }

  /** Chooses between the head of `s` and the best of its tail. */
  function PickBetter<T>(headQualifies: bool, rest: Option<nat>, key: T -> int, s: seq<T>): Option<nat>
    requires |s| > 0
    requires rest.Some? ==> rest.value + 1 < |s|
  {
    if rest.None? then (if headQualifies then Some(0) else None)
    else if headQualifies && key(s[0]) >= key(s[rest.value + 1]) then Some(0)
    else Some(rest.value + 1)
  }

  /** A stable descending sort of the elements satisfying `p` starts with the first best of them. */
  lemma SortedFilterHead<T>(s: seq<T>, p: T -> bool, key: T -> int)
    ensures var f := SortDesc(Filter(s, p), key);
      && (f == [] <==> FirstBest(s, p, key).None?)
      && (FirstBest(s, p, key).Some? ==> f != [] && f[0] == s[FirstBest(s, p, key).value])
  {
    CountIfExtremes(s, p);
    if FirstBest(s, p, key).Some? {
      SortedFilterHeadSome(s, p, key);
    }
  }

  lemma {:induction false} SortedFilterHeadSome<T>(s: seq<T>, p: T -> bool, key: T -> int)
    requires FirstBest(s, p, key).Some?
    ensures var f := SortDesc(Filter(s, p), key);
      f != [] && f[0] == s[FirstBest(s, p, key).value]
  {
    var rest := FirstBest(s[1..], p, key);
    var g' := SortDesc(Filter(s[1..], p), key);
    assert FirstBest(s, p, key) == PickBetter(p(s[0]), rest, key, s);
    if rest.Some? {
      SortedFilterHeadSome(s[1..], p, key);
      assert g'[0] == s[rest.value + 1];
    } else {
      CountIfExtremes(s[1..], p);
      assert g' == [];
    }
    if p(s[0]) {
      var f := Filter(s, p);
      assert f[0] == s[0] && f[1..] == Filter(s[1..], p);
      assert SortDesc(f, key) == InsertDesc(s[0], g', key);
    }
  }

  /** Cutting a sorted sequence after `n > 0` elements leaves out nothing larger than what it keeps. */
  lemma TakeKeepsTop<T>(s: seq<T>, key: T -> int, n: nat, k: nat)
    requires SortedDesc(s, key) && n > 0 && k < |s|
    ensures var t := Take(s, n);
      s[k] in t || (|t| == n && key(s[k]) <= key(t[n - 1]))
  {
    var t := Take(s, n);
    if k < |t| {
      assert t[k] == s[k];
    } else {
      assert t[n - 1] == s[n - 1];
    }
  }
}
