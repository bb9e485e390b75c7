/**
 * The queryset primitives the three query layers are built from, with a
 * queryset modelled as the sequence of rows it would yield:
 * `filter`/`exclude` select in order, `order_by` sorts, `[:n]` takes a
 * prefix, `distinct` drops repeated rows, and a filter across a
 * multi-valued relation yields one row per linked related row.
 */
module QuerySets {
  import opened Wrappers

  /** `a` is `b` with some rows dropped and the rest in their original order. */
  predicate IsSubsequence<T(==)>(a: seq<T>, b: seq<T>)
    decreases |b|
  {
    if |a| == 0 then true
    else if |b| == 0 then false
    else (a[0] == b[0] && IsSubsequence(a[1..], b[1..])) || IsSubsequence(a, b[1..])
  }

  /** Every earlier row stands in relation `before` to every later row. */
  ghost predicate Ordered<T>(s: seq<T>, before: (T, T) -> bool) {
    forall i, j :: 0 <= i < j < |s| ==> before(s[i], s[j])
  }

  /** `s` is ordered by `key`, greatest first (`order_by("-key")`). */
  ghost predicate SortedDesc<T>(s: seq<T>, key: T -> real) {
    forall i, j :: 0 <= i < j < |s| ==> key(s[i]) >= key(s[j])
  }

  /** No row occurs twice. */
  ghost predicate NoDuplicates<T>(s: seq<T>) {
    forall i, j :: 0 <= i < j < |s| ==> s[i] != s[j]
  }

  /** `filter(...)`: the rows satisfying `keep`, in their original order. */
  function Filter<T(!new)>(s: seq<T>, keep: T -> bool): (r: seq<T>)
    ensures forall x :: multiset(r)[x] == if keep(x) then multiset(s)[x] else 0
    ensures forall x :: x in r <==> x in s && keep(x)
    ensures IsSubsequence(r, s)
  {
    if |s| == 0 then []
    else
      assert s == [s[0]] + s[1..];
      var rest := Filter(s[1..], keep);
      if keep(s[0]) then
        assert ([s[0]] + rest)[1..] == rest;
        [s[0]] + rest
      else rest
  }

  /** Filtering two permutations of each other yields permutations of each other. */
  lemma FilterPermutation<T(!new)>(a: seq<T>, b: seq<T>, keep: T -> bool)
    requires multiset(a) == multiset(b)
    ensures multiset(Filter(a, keep)) == multiset(Filter(b, keep))
    ensures |Filter(a, keep)| == |Filter(b, keep)|
  {
    assert forall x :: multiset(Filter(a, keep))[x] == multiset(Filter(b, keep))[x];
    assert multiset(Filter(a, keep)) == multiset(Filter(b, keep));
    calc {
      |Filter(a, keep)|;
      |multiset(Filter(a, keep))|;
      |multiset(Filter(b, keep))|;
      |Filter(b, keep)|;
    }
  }

  /** The rows a filter keeps and the rows its negation keeps together make up the input. */
  lemma FilterSplit<T(!new)>(s: seq<T>, keep: T -> bool, drop: T -> bool)
    requires forall x :: drop(x) == !keep(x)
    ensures multiset(Filter(s, keep)) + multiset(Filter(s, drop)) == multiset(s)
  {
    var a, b := Filter(s, keep), Filter(s, drop);
    forall x ensures (multiset(a) + multiset(b))[x] == multiset(s)[x] {
      if keep(x) {
        assert !drop(x);
      }
    }
  }

  /** Filtering keeps any pairwise order the input had. */
  lemma {:induction false} FilterKeepsOrder<T(!new)>(s: seq<T>, keep: T -> bool, before: (T, T) -> bool)
    requires Ordered(s, before)
    ensures Ordered(Filter(s, keep), before)
  {
    if |s| > 0 {
      var tail := s[1..];
      var rest := Filter(tail, keep);
      assert Ordered(tail, before) by {
        forall i, j | 0 <= i < j < |tail| ensures before(tail[i], tail[j]) {
          assert tail[i] == s[i + 1] && tail[j] == s[j + 1];
        }
      }
      FilterKeepsOrder(tail, keep, before);
      if keep(s[0]) {
        forall y | y in rest ensures before(s[0], y) {
          var k :| 0 <= k < |tail| && tail[k] == y;
          assert s[k + 1] == y;
        }
        ConsOrdered(s[0], rest, before);
      }
    }
  }

  /** A head that comes before every row of an ordered tail keeps it ordered. */
  lemma ConsOrdered<T>(h: T, t: seq<T>, before: (T, T) -> bool)
    requires Ordered(t, before)
    requires forall y :: y in t ==> before(h, y)
    ensures Ordered([h] + t, before)
  {
    var r := [h] + t;
    forall i, j | 0 <= i < j < |r| ensures before(r[i], r[j]) {
      assert r[j] == t[j - 1];
      if i > 0 {
        assert r[i] == t[i - 1];
      }
    }
  }

  /** A filter every row passes is the identity. */
  lemma {:induction false} FilterAll<T(!new)>(s: seq<T>, keep: T -> bool)
    requires forall x :: x in s ==> keep(x)
    ensures Filter(s, keep) == s
  {
    if |s| > 0 {
      FilterAll(s[1..], keep);
    }
  }

  /** `qs[:n]`: at most the first `n` rows. */
  function Take<T>(s: seq<T>, n: nat): (r: seq<T>)
    ensures |r| == Min(n, |s|)
    ensures r == s[..|r|]
    ensures multiset(r) <= multiset(s)
  {
    if n <= |s| then
      assert s == s[..n] + s[n..];
      s[..n]
    else s
  }

  /** Every row of `s` left out of its first `n` rows is no greater than any row taken. */
  lemma TakeOfSortedIsTop<T>(s: seq<T>, key: T -> real, n: nat)
    requires SortedDesc(s, key)
    ensures SortedDesc(Take(s, n), key)
    ensures forall x, i :: x in s && x !in Take(s, n) && 0 <= i < |Take(s, n)| ==>
              key(x) <= key(Take(s, n)[i])
  {
    var r := Take(s, n);
    forall x, i | x in s && x !in r && 0 <= i < |r| ensures key(x) <= key(r[i]) {
      var j :| 0 <= j < |s| && s[j] == x;
      assert x !in s[..|r|];
      assert r[i] == s[i];
    }
  }

  /** A sorted prefix stays ordered by any relation the whole sequence was ordered by. */
  lemma TakeKeepsOrder<T>(s: seq<T>, n: nat, before: (T, T) -> bool)
    requires Ordered(s, before)
    ensures Ordered(Take(s, n), before)
  {
    var r := Take(s, n);
    forall i, j | 0 <= i < j < |r| ensures before(r[i], r[j]) {
      assert r[i] == s[i] && r[j] == s[j];
    }
  }

  /** Inserts `x` into a sequence sorted greatest first, before any equal keys. */
  function Insert<T>(x: T, s: seq<T>, key: T -> real): (r: seq<T>)
    requires SortedDesc(s, key)
    ensures multiset(r) == multiset(s) + multiset{x}
    ensures |r| == |s| + 1
    ensures r[0] == x || (|s| > 0 && r[0] == s[0])
    ensures SortedDesc(r, key)
  {
    if |s| == 0 || key(x) >= key(s[0]) then
      [x] + s
    else
      assert s == [s[0]] + s[1..];
      var rest := Insert(x, s[1..], key);
      assert key(s[0]) >= key(rest[0]);
      ConsSorted(s[0], rest, key);
      [s[0]] + rest
  }

  /** A head no smaller than the first key of a sorted tail keeps it sorted. */
  lemma ConsSorted<T>(h: T, t: seq<T>, key: T -> real)
    requires SortedDesc(t, key)
    requires |t| > 0 ==> key(h) >= key(t[0])
    ensures SortedDesc([h] + t, key)
  {
    var r := [h] + t;
    forall i, j | 0 <= i < j < |r| ensures key(r[i]) >= key(r[j]) {
      if i == 0 {
        assert r[j] == t[j - 1];
        assert key(t[0]) >= key(t[j - 1]) || j == 1;
      } else {
        assert r[i] == t[i - 1] && r[j] == t[j - 1];
      }
    }
  }

  /** `order_by("-key")`: a permutation of `s` sorted greatest first (stable). */
  function SortDesc<T>(s: seq<T>, key: T -> real): (r: seq<T>)
    ensures multiset(r) == multiset(s)
    ensures |r| == |s|
    ensures SortedDesc(r, key)
  {
    if |s| == 0 then []
    else
      assert s == [s[0]] + s[1..];
      var r := Insert(s[0], SortDesc(s[1..], key), key);
      assert |r| == |multiset(r)|;
      r
  }

  /** The sortedness of `SortDesc` read as an `Ordered` relation. */
  function DescBy<T>(key: T -> real): (T, T) -> bool {
    (a, b) => key(a) >= key(b)
  }

  lemma SortedDescIsOrdered<T>(s: seq<T>, key: T -> real)
    requires SortedDesc(s, key)
    ensures Ordered(s, DescBy(key))
  {
  }

  lemma OrderedIsSortedDesc<T>(s: seq<T>, key: T -> real)
    requires Ordered(s, DescBy(key))
    ensures SortedDesc(s, key)
  {
    forall i, j | 0 <= i < j < |s| ensures key(s[i]) >= key(s[j]) {
      assert DescBy(key)(s[i], s[j]);
    }
  }

  /** Two rows differ: the pairwise relation of a duplicate-free sequence. */
  function Unequal<T(==)>(): (T, T) -> bool {
    (a, b) => a != b
  }

  lemma NoDuplicatesIsOrdered<T>(s: seq<T>)
    requires NoDuplicates(s)
    ensures Ordered(s, Unequal())
  {
  }

  lemma OrderedIsNoDuplicates<T>(s: seq<T>)
    requires Ordered(s, Unequal())
    ensures NoDuplicates(s)
  {
    forall i, j | 0 <= i < j < |s| ensures s[i] != s[j] {
      assert Unequal()(s[i], s[j]);
    }
  }

  /** `distinct()`: the first occurrence of every row, in order of first occurrence. */
  function Distinct<T(==,!new)>(s: seq<T>): (r: seq<T>)
    ensures forall x :: x in r <==> x in s
    ensures NoDuplicates(r)
    ensures |r| <= |s|
    decreases |s|
  {
    if |s| == 0 then []
    else
      var init := s[..|s| - 1];
      assert s == init + [s[|s| - 1]];
      var d := Distinct(init);
      if s[|s| - 1] in d then d else d + [s[|s| - 1]]
  }

  /** The number of rows of `related` that `x` is linked to. */
  function Matches<T, U>(x: T, related: seq<U>, link: (T, U) -> bool): (n: nat)
    ensures n <= |related|
    ensures n == 0 <==> forall u :: u in related ==> !link(x, u)
  {
    if |related| == 0 then 0
    else
      assert forall u :: u in related ==> u == related[0] || u in related[1..];
      (if link(x, related[0]) then 1 else 0) + Matches(x, related[1..], link)
  }

  /** `n` copies of `x`. */
  function Repeat<T(!new)>(x: T, n: nat): (r: seq<T>)
    ensures |r| == n
    ensures forall y :: multiset(r)[y] == if y == x then n else 0
  {
    if n == 0 then [] else [x] + Repeat(x, n - 1)
  }

  /**
   * `filter(<relation>__<lookup>)` across a multi-valued relation without
   * `distinct()`: each row of `s` once per related row it is linked to.
   */
  function JoinRows<T(!new), U>(s: seq<T>, related: seq<U>, link: (T, U) -> bool): (r: seq<T>)
    ensures forall x :: multiset(r)[x] == multiset(s)[x] * Matches(x, related, link)
    ensures forall x :: x in r <==> x in s && exists u :: u in related && link(x, u)
  {
    if |s| == 0 then []
    else
      var rest := JoinRows(s[1..], related, link);
      var r := Repeat(s[0], Matches(s[0], related, link)) + rest;
      JoinRowsStep(s, related, link, rest);
      r
  }

  /** One step of `JoinRows`: prepending the copies of `s[0]` to the rows of `s[1..]`. */
  lemma JoinRowsStep<T(!new), U>(s: seq<T>, related: seq<U>, link: (T, U) -> bool, rest: seq<T>)
    requires |s| > 0
    requires forall x :: multiset(rest)[x] == multiset(s[1..])[x] * Matches(x, related, link)
    ensures forall x :: multiset(Repeat(s[0], Matches(s[0], related, link)) + rest)[x]
                        == multiset(s)[x] * Matches(x, related, link)
    ensures forall x :: x in Repeat(s[0], Matches(s[0], related, link)) + rest <==>
                        x in s && exists u :: u in related && link(x, u)
  {
    var r := Repeat(s[0], Matches(s[0], related, link)) + rest;
    assert s == [s[0]] + s[1..];
    forall x ensures multiset(r)[x] == multiset(s)[x] * Matches(x, related, link) {
      var m := Matches(x, related, link);
      var k := multiset(s[1..])[x];
      assert multiset(rest)[x] == k * m;
      if x == s[0] {
        assert multiset(s)[x] == k + 1;
        SuccTimes(k, m);
      } else {
        assert multiset(s)[x] == k;
      }
    }
    forall x ensures x in r <==> x in s && exists u :: u in related && link(x, u) {
      ProductPositive(multiset(s)[x], Matches(x, related, link));
    }
  }

  lemma SuccTimes(k: nat, m: nat)
    ensures (k + 1) * m == m + k * m
  {
  }

  lemma ProductPositive(a: nat, b: nat)
    ensures a * b > 0 <==> a > 0 && b > 0
  {
  }

  /** A row of an `annotate(total=Count(...))` queryset: the row and its count. */
  datatype Counted<T> = Counted(row: T, total: nat)

  /** The rows of an annotated queryset, without their counts. */
  function Rows<T>(s: seq<Counted<T>>): (r: seq<T>)
    ensures |r| == |s|
    ensures forall i :: 0 <= i < |s| ==> r[i] == s[i].row
  {
    seq(|s|, i requires 0 <= i < |s| => s[i].row)
  }

  /**
   * `annotate(total=Count(...))` after a join: each distinct row once, with
   * the number of related rows it is linked to.
   */
  function AnnotateCount<T(==,!new), U>(s: seq<T>, related: seq<U>, link: (T, U) -> bool): (r: seq<Counted<T>>)
    ensures NoDuplicates(Rows(r))
    ensures forall k :: k in r ==> k.row in s && k.total == Matches(k.row, related, link)
    ensures forall x :: x in s ==> x in Rows(r)
  {
    var grouped := Distinct(s);
    var r := seq(|grouped|, i requires 0 <= i < |grouped| =>
                 Counted(grouped[i], Matches(grouped[i], related, link)));
    assert Rows(r) == grouped;
    r
  }

  /** A creation time as a sort key. */
  function AsKey<T>(created: T -> int): T -> real {
    x => created(x) as real
  }

  /** `exclude(pk=...)` when an object is given, the queryset unchanged otherwise. */
  function ExcludePk<T(!new)>(s: seq<T>, pkOf: T -> int, excluded: Option<int>): (r: seq<T>)
    ensures forall x :: x in r <==> x in s && (excluded.Some? ==> pkOf(x) != excluded.value)
    ensures forall x :: multiset(r)[x] == if excluded.Some? && pkOf(x) == excluded.value then 0 else multiset(s)[x]
    ensures excluded.None? ==> r == s
    ensures IsSubsequence(r, s)
  {
    if excluded.None? then
      assert IsSubsequence(s, s) by { SubsequenceRefl(s); }
      s
    else Filter(s, x => pkOf(x) != excluded.value)
  }

  lemma {:induction false} SubsequenceRefl<T>(s: seq<T>)
    ensures IsSubsequence(s, s)
  {
    if |s| > 0 {
      SubsequenceRefl(s[1..]);
    }
  }

  /** `exclude(pk=obj.pk)` when an object is given, the key read with `pkOf`. */
  function ExcludeObject<T(!new)>(s: seq<T>, pkOf: T -> int, obj: Option<T>): (r: seq<T>)
    ensures forall x :: x in r <==> x in s && (obj.Some? ==> pkOf(x) != pkOf(obj.value))
    ensures forall x :: multiset(r)[x] == if obj.Some? && pkOf(x) == pkOf(obj.value) then 0 else multiset(s)[x]
    ensures obj.None? ==> r == s
    ensures IsSubsequence(r, s)
  {
    ExcludePk(s, pkOf, if obj.Some? then Some(pkOf(obj.value)) else None)
  }

  lemma ExcludePkPermutation<T(!new)>(a: seq<T>, b: seq<T>, pkOf: T -> int, excluded: Option<int>)
    requires multiset(a) == multiset(b)
    ensures multiset(ExcludePk(a, pkOf, excluded)) == multiset(ExcludePk(b, pkOf, excluded))
    ensures |ExcludePk(a, pkOf, excluded)| == |ExcludePk(b, pkOf, excluded)|
  {
    if excluded.Some? {
      FilterPermutation(a, b, x => pkOf(x) != excluded.value);
    } else {
      calc {
        |a|;
        |multiset(a)|;
        |multiset(b)|;
        |b|;
      }
    }
  }

  lemma {:induction false} ExcludePkKeepsOrder<T(!new)>(s: seq<T>, pkOf: T -> int, excluded: Option<int>, before: (T, T) -> bool)
    requires Ordered(s, before)
    ensures Ordered(ExcludePk(s, pkOf, excluded), before)
  {
    if excluded.Some? {
      FilterKeepsOrder(s, x => pkOf(x) != excluded.value, before);
    }
  }

  /**
   * `order_by("-created_at")`, then `exclude(pk=...)` when an object is given,
   * then `[:n]`: the shape shared by the "most recent" queries of posts and of
   * categories.
   */
  function RecentFirst<T(!new)>(s: seq<T>, created: T -> int, pkOf: T -> int, excluded: Option<int>, n: nat): (r: seq<T>)
    ensures forall i, j :: 0 <= i < j < |r| ==> created(r[i]) >= created(r[j])
    ensures forall x :: x in r ==> x in s && (excluded.Some? ==> pkOf(x) != excluded.value)
    ensures |r| == Min(n, |ExcludePk(s, pkOf, excluded)|)
    ensures multiset(r) <= multiset(ExcludePk(s, pkOf, excluded))
    ensures forall x, i :: x in ExcludePk(s, pkOf, excluded) && x !in r && 0 <= i < |r| ==>
              created(x) <= created(r[i])
  {
    var key := AsKey(created);
    var sorted := SortDesc(s, key);
    var kept := ExcludePk(sorted, pkOf, excluded);
    RecentFirstKept(s, key, pkOf, excluded, sorted, kept);
    TakeOfSortedIsTop(kept, key, n);
    Take(kept, n)
  }

  /** Sorting before the exclusion changes the order of the kept rows, not which rows are kept. */
  lemma RecentFirstKept<T(!new)>(s: seq<T>, key: T -> real, pkOf: T -> int, excluded: Option<int>,
                                 sorted: seq<T>, kept: seq<T>)
    requires sorted == SortDesc(s, key)
    requires kept == ExcludePk(sorted, pkOf, excluded)
    ensures |kept| == |ExcludePk(s, pkOf, excluded)|
    ensures multiset(kept) == multiset(ExcludePk(s, pkOf, excluded))
    ensures forall x :: x in kept <==> x in ExcludePk(s, pkOf, excluded)
    ensures SortedDesc(kept, key)
  {
    ExcludePkPermutation(sorted, s, pkOf, excluded);
    assert forall x :: x in sorted <==> x in multiset(s);
    SortedDescIsOrdered(sorted, key);
    ExcludePkKeepsOrder(sorted, pkOf, excluded, DescBy(key));
    OrderedIsSortedDesc(kept, key);
  }
}
