/** Sequence utilities the core uses implicitly: ordering by a numeric key
    (`Array.prototype.sort`, pandas `sort_values`), filtering
    (`Array.prototype.filter`, boolean masks), first-match search
    (`Array.prototype.find`) and duplicate removal (`new Set`). */
module Sequences {
  import opened Outcomes

  /** `s` is in non-decreasing order of `key`. */
  ghost predicate SortedBy<T>(s: seq<T>, key: T -> int) {
    forall i, j :: 0 <= i < j < |s| ==> key(s[i]) <= key(s[j])
  }

  /** `s` is in strictly increasing order (so it has no duplicates). */
  ghost predicate StrictlyIncreasing(s: seq<int>) {
    forall i, j :: 0 <= i < j < |s| ==> s[i] < s[j]
  }

  /** Inserts `x` before the first element whose key is not smaller. */
  function InsertBy<T>(x: T, s: seq<T>, key: T -> int): (r: seq<T>)
    ensures multiset(r) == multiset(s) + multiset{x}
    ensures |r| == |s| + 1
    ensures forall k :: 0 <= k < |r| ==> r[k] == x || r[k] in s
  {
    if |s| == 0 then [x]
    else if key(x) <= key(s[0]) then [x] + s
    else
      var rest := InsertBy(x, s[1..], key);
      assert s == [s[0]] + s[1..];
      [s[0]] + rest
  }

  /** Inserting into an ordered sequence keeps it ordered. */
  lemma {:induction false} InsertBySorted<T>(x: T, s: seq<T>, key: T -> int)
    requires SortedBy(s, key)
    ensures SortedBy(InsertBy(x, s, key), key)
    decreases |s|
  {
    if |s| > 0 && key(x) > key(s[0]) {
      var rest := InsertBy(x, s[1..], key);
      InsertBySorted(x, s[1..], key);
      forall k | 0 <= k < |rest|
        ensures key(s[0]) <= key(rest[k])
      {
        if rest[k] != x {
          var j :| 0 <= j < |s[1..]| && s[1..][j] == rest[k];
          assert s[1..][j] == s[j + 1];
        }
      }
      var r := [s[0]] + rest;
      forall i, j | 0 <= i < j < |r|
        ensures key(r[i]) <= key(r[j])
      {
        if i > 0 {
          assert r[i] == rest[i - 1] && r[j] == rest[j - 1];
        } else {
          assert r[j] == rest[j - 1];
        }
      }
    }
  }

  /** Insertion sort by `key`: an ordered permutation of `s`. */
  function SortBy<T>(s: seq<T>, key: T -> int): (r: seq<T>)
    ensures SortedBy(r, key)
    ensures multiset(r) == multiset(s)
    ensures |r| == |s|
  {
    if |s| == 0 then []
    else
      assert s == [s[0]] + s[1..];
      InsertBySorted(s[0], SortBy(s[1..], key), key);
      InsertBy(s[0], SortBy(s[1..], key), key)
  }

  /** The identity key, for sorting plain integers. */
  function Id(x: int): int { x }

  /** Integers in ascending order. */
  function SortInts(s: seq<int>): (r: seq<int>)
    ensures forall i, j :: 0 <= i < j < |r| ==> r[i] <= r[j]
    ensures multiset(r) == multiset(s)
    ensures |r| == |s|
  {
    var r := SortBy(s, Id);
    assert SortedBy(r, Id);
    r
  }

  /** Index of the first element satisfying `p`, or `None`: `findIndex`. */
  function Find<T>(s: seq<T>, p: T -> bool): (r: Option<nat>)
    ensures r.Some? ==> r.value < |s| && p(s[r.value])
    ensures r.Some? ==> forall j :: 0 <= j < r.value ==> !p(s[j])
    ensures r.None? <==> forall j :: 0 <= j < |s| ==> !p(s[j])
  {
    if |s| == 0 then None
    else if p(s[0]) then Some(0)
    else match Find(s[1..], p)
      case None => None
      case Some(k) => Some(k + 1)
  }

  /** Removes adjacent repetitions from an ascending sequence. */
  function Dedup(s: seq<int>): (r: seq<int>)
    requires forall i, j :: 0 <= i < j < |s| ==> s[i] <= s[j]
    ensures StrictlyIncreasing(r)
    ensures forall x :: x in r <==> x in s
    ensures |s| > 0 ==> |r| > 0 && r[0] == s[0]
  {
    if |s| <= 1 then s
    else
      var rest := Dedup(s[1..]);
      if s[0] == s[1] then rest
      else
        assert forall x :: x in rest ==> x in s[1..];
        [s[0]] + rest
  }

  /** The elements of `s` satisfying `p`, in their original order. */
  function Filter<T>(s: seq<T>, p: T -> bool): (r: seq<T>)
    ensures |r| <= |s|
    ensures forall k :: 0 <= k < |r| ==> p(r[k]) && r[k] in s
    ensures forall k :: 0 <= k < |s| && p(s[k]) ==> s[k] in r
  {
    if |s| == 0 then []
    else
      var rest := Filter(s[1..], p);
      assert s == [s[0]] + s[1..];
      if p(s[0]) then [s[0]] + rest else rest
  }

  /** Filtering distributes over concatenation, so it keeps the relative
      order of the elements it keeps. */
  lemma {:induction false} FilterConcat<T>(a: seq<T>, b: seq<T>, p: T -> bool)
    ensures Filter(a + b, p) == Filter(a, p) + Filter(b, p)
    decreases |a|
  {
    if |a| > 0 {
      assert (a + b)[0] == a[0] && (a + b)[1..] == a[1..] + b;
      FilterConcat(a[1..], b, p);
      if p(a[0]) {
        assert [a[0]] + (Filter(a[1..], p) + Filter(b, p)) == ([a[0]] + Filter(a[1..], p)) + Filter(b, p);
      }
    } else {
      assert a + b == b;
    }
  }

  /** A filter keeps everything when every element passes and nothing when
      none does. */
  lemma {:induction false} FilterExtremes<T>(s: seq<T>, p: T -> bool)
    ensures (forall k :: 0 <= k < |s| ==> p(s[k])) ==> Filter(s, p) == s
    ensures (forall k :: 0 <= k < |s| ==> !p(s[k])) ==> Filter(s, p) == []
    decreases |s|
  {
    if |s| > 0 {
      FilterExtremes(s[1..], p);
    }
  }

  /** The first match of `q` among the elements kept by `p` is the first
      element of the whole sequence satisfying both. */
  lemma {:induction false} FindInFilter<T>(s: seq<T>, p: T -> bool, q: T -> bool)
    ensures Find(Filter(s, p), q).None? <==> Find(s, x => p(x) && q(x)).None?
    ensures Find(Filter(s, p), q).Some? ==>
      Filter(s, p)[Find(Filter(s, p), q).value] == s[Find(s, x => p(x) && q(x)).value]
    decreases |s|
  {
    if |s| > 0 {
      FindInFilter(s[1..], p, q);
    }
  }

  /** The head of a filter is the first element satisfying the filter. */
  lemma {:induction false} FilterHead<T>(s: seq<T>, p: T -> bool)
    ensures |Filter(s, p)| > 0 <==> Find(s, p).Some?
    ensures |Filter(s, p)| > 0 ==> Filter(s, p)[0] == s[Find(s, p).value]
    decreases |s|
  {
    if |s| > 0 {
      FilterHead(s[1..], p);
    }
  }

  /** Filtering an ascending sequence leaves an ascending sequence. */
  lemma {:induction false} FilterAscending(s: seq<int>, p: int -> bool)
    requires forall i, j :: 0 <= i < j < |s| ==> s[i] <= s[j]
    ensures forall i, j :: 0 <= i < j < |Filter(s, p)| ==> Filter(s, p)[i] <= Filter(s, p)[j]
    decreases |s|
  {
    if |s| > 0 {
      FilterAscending(s[1..], p);
      var rest := Filter(s[1..], p);
      forall k | 0 <= k < |rest|
        ensures s[0] <= rest[k]
      {
        assert rest[k] in s[1..];
      }
    }
  }
}
