/** The array pipeline steps the handlers use: `filter`, `slice` with
    JavaScript's index rules, and a stable `sort` by a numeric key, newest
    first. */
module Seqs {

  /** `s.filter(p)` */
  function Filter<T(!new)>(s: seq<T>, p: T -> bool): (r: seq<T>)
    ensures |r| <= |s|
    ensures forall x :: x in r <==> x in s && p(x)
    ensures forall i :: 0 <= i < |r| ==> p(r[i])
    ensures IsSubsequence(r, s)
    ensures forall x :: multiset(r)[x] == if p(x) then multiset(s)[x] else 0
  {
    if s == [] then []
    else
      var rest := Filter(s[1..], p);
      assert s == [s[0]] + s[1..];
      if p(s[0]) then
        [s[0]] + rest
      else rest
  }

  /** `a` is `b` with some elements left out, the rest kept in order. */
  ghost predicate IsSubsequence<T>(a: seq<T>, b: seq<T>)
    decreases |b|
  {
    || a == []
    || (b != [] && ((a[0] == b[0] && IsSubsequence(a[1..], b[1..])) || IsSubsequence(a, b[1..])))
  }

  lemma AppendAssoc<T>(a: seq<T>, b: seq<T>, c: seq<T>)
    ensures (a + b) + c == a + (b + c)
  {
  }

  predicate NoDuplicates<T(==)>(s: seq<T>) {
    forall i, j :: 0 <= i < j < |s| ==> s[i] != s[j]
  }

  /** Elements that pass complementary tests are counted once each. */
  lemma {:induction false} FilterSplitsLength<T(!new)>(s: seq<T>, p: T -> bool, q: T -> bool)
    requires forall x :: p(x) <==> !q(x)
    ensures |Filter(s, p)| + |Filter(s, q)| == |s|
  {
    if s != [] {
      FilterSplitsLength(s[1..], p, q);
    }
  }

  /** Tests that no element passes twice select at most |s| elements in all. */
  lemma {:induction false} FilterThreeDisjoint<T(!new)>(s: seq<T>, p: T -> bool, q: T -> bool, r: T -> bool)
    requires forall x :: !(p(x) && q(x)) && !(p(x) && r(x)) && !(q(x) && r(x))
    ensures |Filter(s, p)| + |Filter(s, q)| + |Filter(s, r)| <= |s|
  {
    if s != [] {
      FilterThreeDisjoint(s[1..], p, q, r);
    }
  }

  /** Records numbered `length + 1` as they are appended, and never removed,
      carry their position plus one as id. */
  ghost predicate IdsArePositions<T>(s: seq<T>, id: T -> int) {
    forall i :: 0 <= i < |s| ==> id(s[i]) == i + 1
  }

  /** `[f(lo), f(lo + 1), ..., f(hi - 1)]`, built by appending, as a counting
      loop that pushes `f(i)` builds it. */
  function Tabulate<T>(lo: nat, hi: nat, f: nat -> T): seq<T>
    decreases hi
  {
    if hi <= lo then [] else Tabulate(lo, hi - 1, f) + [f(hi - 1)]
  }

  lemma {:induction false} TabulateAt<T>(lo: nat, hi: nat, f: nat -> T)
    requires lo <= hi
    ensures |Tabulate(lo, hi, f)| == hi - lo
    ensures forall i :: 0 <= i < hi - lo ==> Tabulate(lo, hi, f)[i] == f(lo + i)
    decreases hi
  {
    if lo < hi {
      TabulateAt(lo, hi - 1, f);
      var init := Tabulate(lo, hi - 1, f);
      assert Tabulate(lo, hi, f) == init + [f(hi - 1)];
      forall i | 0 <= i < hi - lo ensures Tabulate(lo, hi, f)[i] == f(lo + i) {
        if i < hi - 1 - lo {
          assert Tabulate(lo, hi, f)[i] == init[i];
        }
      }
    }
  }

  // ---------------------------------------------------------------- slice

  /** How `Array.prototype.slice` reads an index: a negative one counts from
      the end, and both kinds are clamped to [0, len]. */
  function ClampIndex(i: int, len: nat): (r: nat)
    ensures r <= len
    ensures 0 <= i ==> r == if i <= len then i else len
  {
    if i < 0 then (if len + i < 0 then 0 else len + i)
    else if i > len then len
    else i
  }

  /** `s.slice(start, end)` */
  function JsSlice<T>(s: seq<T>, start: int, end: int): (r: seq<T>)
    ensures |r| <= |s|
    ensures forall x :: x in r ==> x in s
  {
    var a := ClampIndex(start, |s|);
    var b := ClampIndex(end, |s|);
    if b <= a then [] else s[a..b]
  }

  /** One page of a listing: `slice((page - 1) * limit, (page - 1) * limit + limit)`. */
  function Paginate<T>(s: seq<T>, page: int, limit: int): (r: seq<T>)
    ensures forall x :: x in r ==> x in s
  {
    var start := (page - 1) * limit;
    JsSlice(s, start, start + limit)
  }

  /** On ordinary inputs a page is the run of at most `limit` elements that
      starts after the first `page - 1` pages. */
  lemma PaginateWindow<T>(s: seq<T>, page: int, limit: int)
    requires page >= 1 && limit >= 0
    ensures var start := (page - 1) * limit;
      var lo := if start <= |s| then start else |s|;
      var hi := if start + limit <= |s| then start + limit else |s|;
      Paginate(s, page, limit) == s[lo..hi]
    ensures |Paginate(s, page, limit)| <= limit
  {
    var start := (page - 1) * limit;
    assert start >= 0 by {
      assert page - 1 >= 0;
    }
  }

  /** With a positive page size, element `i` sits at place `i % limit` of
      page `i / limit + 1`: the pages together cover the whole listing. */
  lemma PaginateCovers<T>(s: seq<T>, limit: int, i: nat)
    requires limit > 0 && i < |s|
    ensures var page := Paginate(s, i / limit + 1, limit);
      i % limit < |page| && page[i % limit] == s[i]
  {
    var q := i / limit;
    var start := q * limit;
    assert start + i % limit == i;
    assert start <= i;
    PaginateWindow(s, q + 1, limit);
  }

  // ----------------------------------------------------------------- sort

  ghost predicate SortedDesc<T>(s: seq<T>, key: T -> int) {
    forall i, j :: 0 <= i < j < |s| ==> key(s[i]) >= key(s[j])
  }

  /** The elements of `s` with key `k`, in their order in `s`. */
  function WithKey<T>(s: seq<T>, key: T -> int, k: int): seq<T>
  {
    if s == [] then [] else (if key(s[0]) == k then [s[0]] else []) + WithKey(s[1..], key, k)
  }

  function InsertDesc<T>(x: T, s: seq<T>, key: T -> int): (r: seq<T>)
    requires SortedDesc(s, key)
    ensures |r| == |s| + 1 && (r[0] == x || (s != [] && r[0] == s[0]))
    ensures SortedDesc(r, key)
  {
    if s == [] || key(s[0]) <= key(x) then
      InsertDescConsSorted(x, s, key);
      [x] + s
    else
      var rest := InsertDesc(x, s[1..], key);
      assert rest[0] == x || key(rest[0]) == key(s[1]);
      InsertDescConsSorted(s[0], rest, key);
      [s[0]] + rest
  }

  lemma {:induction false} InsertDescPermutation<T>(x: T, s: seq<T>, key: T -> int)
    requires SortedDesc(s, key)
    ensures multiset(InsertDesc(x, s, key)) == multiset(s) + multiset{x}
  {
    if s != [] && key(s[0]) > key(x) {
      InsertDescPermutation(x, s[1..], key);
      assert s == [s[0]] + s[1..];
    }
  }

  lemma InsertDescConsSorted<T>(y: T, rest: seq<T>, key: T -> int)
    requires SortedDesc(rest, key) && (rest == [] || key(y) >= key(rest[0]))
    ensures SortedDesc([y] + rest, key)
  {
    var r := [y] + rest;
    forall i, j | 0 <= i < j < |r| ensures key(r[i]) >= key(r[j]) {
      assert r[j] == rest[j - 1];
      if i > 0 {
        assert r[i] == rest[i - 1];
      } else {
        assert key(rest[0]) >= key(rest[j - 1]);
      }
    }
  }

  /** Any page of a list sorted newest first is itself sorted. */
  lemma PaginateSorted<T>(s: seq<T>, key: T -> int, page: int, limit: int)
    requires SortedDesc(s, key)
    ensures SortedDesc(Paginate(s, page, limit), key)
  {
    var start := (page - 1) * limit;
    var a := ClampIndex(start, |s|);
    var b := ClampIndex(start + limit, |s|);
    if a < b {
      var w := s[a..b];
      forall i, j | 0 <= i < j < |w| ensures key(w[i]) >= key(w[j]) {
        assert w[i] == s[a + i] && w[j] == s[a + j];
      }
    }
  }

  /** `s.sort((a, b) => key(b) - key(a))`: descending by key; the sort is
      stable, as `Array.prototype.sort` is required to be. */
  function SortDesc<T>(s: seq<T>, key: T -> int): (r: seq<T>)
    ensures SortedDesc(r, key)
    ensures multiset(r) == multiset(s)
  {
    if s == [] then []
    else
      var r := InsertDesc(s[0], SortDesc(s[1..], key), key);
      InsertDescPermutation(s[0], SortDesc(s[1..], key), key);
      assert s == [s[0]] + s[1..];
      r
  }

  /** A listing sorted newest first and cut into pages of `limit` loses and
      duplicates nothing: element `i` of the sorted list is at place
      `i % limit` of page `i / limit + 1`. */
  lemma SortedPagesCover<T>(s: seq<T>, key: T -> int, limit: int, i: nat)
    requires limit > 0 && i < |s|
    ensures var sorted := SortDesc(s, key);
      && |sorted| == |s|
      && i % limit < |Paginate(sorted, i / limit + 1, limit)|
      && Paginate(sorted, i / limit + 1, limit)[i % limit] == sorted[i]
  {
    var sorted := SortDesc(s, key);
    assert |sorted| == |s| by {
      assert |multiset(sorted)| == |multiset(s)|;
    }
    PaginateCovers(sorted, limit, i);
  }

  lemma {:induction false} InsertDescWithKey<T>(x: T, s: seq<T>, key: T -> int, k: int)
    requires SortedDesc(s, key)
    ensures WithKey(InsertDesc(x, s, key), key, k) == (if key(x) == k then [x] else []) + WithKey(s, key, k)
  {
    var r := InsertDesc(x, s, key);
    var mx: seq<T> := if key(x) == k then [x] else [];
    if s == [] || key(s[0]) <= key(x) {
      assert r == [x] + s;
      assert r[0] == x && r[1..] == s;
      assert WithKey(r, key, k) == mx + WithKey(s, key, k);
    } else {
      var rest := InsertDesc(x, s[1..], key);
      assert r == [s[0]] + rest;
      assert r[0] == s[0] && r[1..] == rest;
      var m0: seq<T> := if key(s[0]) == k then [s[0]] else [];
      assert WithKey(r, key, k) == m0 + WithKey(rest, key, k);
      assert WithKey(s, key, k) == m0 + WithKey(s[1..], key, k);
      InsertDescWithKey(x, s[1..], key, k);
      assert m0 == [] || mx == [];
    }
  }

  /** Stability: among elements with equal keys the original order survives,
      which together with `SortedDesc` fixes the result completely. */
  lemma {:induction false} SortDescStable<T>(s: seq<T>, key: T -> int, k: int)
    ensures WithKey(SortDesc(s, key), key, k) == WithKey(s, key, k)
  {
    if s != [] {
      SortDescStable(s[1..], key, k);
      InsertDescWithKey(s[0], SortDesc(s[1..], key), key, k);
    }
  }
}
