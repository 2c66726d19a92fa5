/**
 * Generic sequence operations behind JavaScript's `Array.prototype.filter`,
 * `slice(0, n)` and `sort` with a numeric comparator.
 */
module Seqs {
  import opened Wrappers

  /** `s.filter(keep)`. */
  function Filter<T>(keep: T -> bool, s: seq<T>): (r: seq<T>)
    ensures |r| <= |s|
  {
    if s == [] then [] else (if keep(s[0]) then [s[0]] else []) + Filter(keep, s[1..])
  }

  /** `r` is `s` with some elements deleted, the rest kept in order. */
  predicate IsSubsequence<T(==)>(r: seq<T>, s: seq<T>)
    decreases |s|
  {
    if r == [] then true
    else if s == [] then false
    else (r[0] == s[0] && IsSubsequence(r[1..], s[1..])) || IsSubsequence(r, s[1..])
  }

  /** The filter keeps exactly the elements that pass, each as often as it occurs, in order. */
  lemma {:induction false} FilterSpec<T>(keep: T -> bool, s: seq<T>)
    ensures IsSubsequence(Filter(keep, s), s)
    ensures forall x :: x in Filter(keep, s) <==> x in s && keep(x)
    ensures forall x :: multiset(Filter(keep, s))[x] == if keep(x) then multiset(s)[x] else 0
  {
    if s != [] {
      FilterSpec(keep, s[1..]);
      assert s == [s[0]] + s[1..];
      var r := Filter(keep, s[1..]);
      if keep(s[0]) {
        assert Filter(keep, s) == [s[0]] + r;
        assert Filter(keep, s)[1..] == r;
      } else {
        assert Filter(keep, s) == r;
        SubsequenceOfTail(r, s);
      }
    }
  }

  lemma SubsequenceOfTail<T>(r: seq<T>, s: seq<T>)
    requires s != [] && IsSubsequence(r, s[1..])
    ensures IsSubsequence(r, s)
  {
  }

  /** A subsequence is never longer than the sequence it is drawn from. */
  lemma {:induction false} SubsequenceLength<T>(r: seq<T>, s: seq<T>)
    requires IsSubsequence(r, s)
    ensures |r| <= |s|
    decreases |s|
  {
    if r != [] {
      if r[0] == s[0] && IsSubsequence(r[1..], s[1..]) {
        SubsequenceLength(r[1..], s[1..]);
      } else {
        SubsequenceLength(r, s[1..]);
      }
    }
  }

  /** Filtering one more element at the end extends the result by that element when it passes. */
  lemma {:induction false} FilterSnoc<T>(keep: T -> bool, s: seq<T>, x: T)
    ensures Filter(keep, s + [x]) == Filter(keep, s) + (if keep(x) then [x] else [])
  {
    if s == [] {
      assert s + [x] == [x];
      assert [x][1..] == [];
    } else {
      var t := s + [x];
      assert t[0] == s[0];
      assert t[1..] == s[1..] + [x];
      FilterSnoc(keep, s[1..], x);
      var head := if keep(s[0]) then [s[0]] else [];
      var last := if keep(x) then [x] else [];
      calc {
        Filter(keep, t);
        head + Filter(keep, s[1..] + [x]);
        head + (Filter(keep, s[1..]) + last);
        (head + Filter(keep, s[1..])) + last;
      }
    }
  }

  /** Extending a prefix by one element. */
  lemma PrefixSnoc<T>(s: seq<T>, i: nat)
    requires i < |s|
    ensures s[..i + 1] == s[..i] + [s[i]]
  {
  }

  /** `s.map(f)`. */
  function Map<T, U>(f: T -> U, s: seq<T>): (r: seq<U>)
    ensures |r| == |s|
    ensures forall i :: 0 <= i < |s| ==> r[i] == f(s[i])
  {
    if s == [] then [] else [f(s[0])] + Map(f, s[1..])
  }

  lemma MapSnoc<T, U>(f: T -> U, s: seq<T>, x: T)
    ensures Map(f, s + [x]) == Map(f, s) + [f(x)]
  {
  }

  /** A filter that keeps every element returns its input. */
  lemma {:induction false} FilterKeepsAll<T>(keep: T -> bool, s: seq<T>)
    requires forall x :: x in s ==> keep(x)
    ensures Filter(keep, s) == s
  {
    if s != [] {
      assert s[0] in s;
      FilterKeepsAll(keep, s[1..]);
    }
  }

  /** Any prefix of a subsequence of `s` is again a subsequence of `s`. */
  lemma {:induction false} PrefixOfSubsequence<T>(r: seq<T>, s: seq<T>, n: nat)
    requires IsSubsequence(r, s)
    ensures IsSubsequence(Prefix(r, n), s)
    decreases |s|
  {
    var p := Prefix(r, n);
    if p != [] {
      if r[0] == s[0] && IsSubsequence(r[1..], s[1..]) {
        PrefixOfSubsequence(r[1..], s[1..], n - 1);
        assert Prefix(r[1..], n - 1) == p[1..];
      } else {
        PrefixOfSubsequence(r, s[1..], n);
      }
    }
  }

  /**
   * The first `n` elements that pass `keep`: drawn from `s` in order, each passing,
   * and every passing element of `s` among them when at most `n` pass.
   */
  lemma PrefixOfFilterSpec<T>(keep: T -> bool, s: seq<T>, n: nat)
    ensures IsSubsequence(Prefix(Filter(keep, s), n), s)
    ensures forall x :: x in Prefix(Filter(keep, s), n) ==> x in s && keep(x)
    ensures |Filter(keep, s)| <= n ==> forall x :: x in s && keep(x) ==> x in Prefix(Filter(keep, s), n)
  {
    var f := Filter(keep, s);
    FilterSpec(keep, s);
    PrefixOfSubsequence(f, s, n);
    forall x | x in Prefix(f, n)
      ensures x in s && keep(x)
    {
      var i :| 0 <= i < |Prefix(f, n)| && Prefix(f, n)[i] == x;
      assert f[i] == x;
      assert x in f;
    }
  }

  /** `s.slice(0, n)` for a non-negative `n`. */
  function Prefix<T>(s: seq<T>, n: nat): (r: seq<T>)
    ensures |r| == if n < |s| then n else |s|
    ensures r <= s
  {
    if n < |s| then s[..n] else s
  }

  lemma PrefixIsSlice<T>(s: seq<T>, n: nat)
    ensures Prefix(s, n) == s[..|Prefix(s, n)|]
  {
  }

  /** Ordered by `key`, largest first: the order `sort((a, b) => key(b) - key(a))` produces. */
  predicate SortedDesc<T>(s: seq<T>, key: T -> int) {
    forall i, j :: 0 <= i < j < |s| ==> key(s[i]) >= key(s[j])
  }

  /** Places `x` before the first element whose key is not larger, so that earlier elements of equal key stay first. */
  function Insert<T>(x: T, s: seq<T>, key: T -> int): (r: seq<T>)
    ensures |r| == |s| + 1
    ensures multiset(r) == multiset(s) + multiset{x}
  {
    if s == [] then [x]
    else if key(s[0]) <= key(x) then [x] + s
    else
      assert s == [s[0]] + s[1..];
      [s[0]] + Insert(x, s[1..], key)
  }

  /** A stable insertion sort, largest key first. */
  function SortDesc<T>(s: seq<T>, key: T -> int): (r: seq<T>)
    ensures |r| == |s|
    ensures multiset(r) == multiset(s)
  {
    if s == [] then []
    else
      assert s == [s[0]] + s[1..];
      Insert(s[0], SortDesc(s[1..], key), key)
  }

  lemma SortedCons<T>(h: T, t: seq<T>, key: T -> int)
    requires SortedDesc(t, key)
    requires forall e :: e in t ==> key(e) <= key(h)
    ensures SortedDesc([h] + t, key)
  {
    forall i, j | 0 <= i < j < |t| + 1
      ensures key(([h] + t)[i]) >= key(([h] + t)[j])
    {
      assert ([h] + t)[j] == t[j - 1];
      assert t[j - 1] in t;
    }
  }

  lemma InsertMembers<T>(x: T, s: seq<T>, key: T -> int)
    ensures forall e :: e in Insert(x, s, key) ==> e == x || e in s
  {
    forall e | e in Insert(x, s, key)
      ensures e == x || e in s
    {
      assert e in multiset(Insert(x, s, key));
    }
  }

  lemma {:induction false} InsertSorted<T>(x: T, s: seq<T>, key: T -> int)
    requires SortedDesc(s, key)
    ensures SortedDesc(Insert(x, s, key), key)
  {
    if s == [] {
    } else if key(s[0]) <= key(x) {
      SortedCons(x, s, key);
    } else {
      var t := Insert(x, s[1..], key);
      assert SortedDesc(s[1..], key);
      InsertSorted(x, s[1..], key);
      InsertMembers(x, s[1..], key);
      forall e | e in t
        ensures key(e) <= key(s[0])
      {
        if e != x {
          var k :| 0 <= k < |s[1..]| && s[1..][k] == e;
          assert s[k + 1] == e;
        }
      }
      SortedCons(s[0], t, key);
    }
  }

  /** The sort puts the elements in non-increasing key order. */
  lemma {:induction false} SortDescSorted<T>(s: seq<T>, key: T -> int)
    ensures SortedDesc(SortDesc(s, key), key)
  {
    if s != [] {
      SortDescSorted(s[1..], key);
      InsertSorted(s[0], SortDesc(s[1..], key), key);
    }
  }

  /** Sorting what is already in order changes nothing, so sorting twice is sorting once. */
  lemma {:induction false} SortDescOfSorted<T>(s: seq<T>, key: T -> int)
    requires SortedDesc(s, key)
    ensures SortDesc(s, key) == s
  {
    if s != [] {
      assert SortedDesc(s[1..], key);
      SortDescOfSorted(s[1..], key);
      assert s == [s[0]] + s[1..];
    }
  }

  /** The index of the first element that passes `p`, as `findIndex` gives it, or None. */
  function FindFirst<T>(p: T -> bool, s: seq<T>): (k: Option<nat>)
    ensures k.Some? ==> k.value < |s| && p(s[k.value]) && forall j :: 0 <= j < k.value ==> !p(s[j])
    ensures k.None? ==> forall j :: 0 <= j < |s| ==> !p(s[j])
  {
    if s == [] then None
    else if p(s[0]) then Some(0)
    else
      match FindFirst(p, s[1..])
      case Some(i) => Some(i + 1)
      case None => None
  }
}
