// The store's query primitives on sequences: filtering by a predicate,
// lookup of the first match, and ordering by a key, newest first.
module Collections {
  import opened Basics

  /** The elements of `s` satisfying `p`, in their order in `s`. */
  function Filter<T>(s: seq<T>, p: T -> bool): (r: seq<T>)
    ensures |r| <= |s|
    ensures forall x :: x in r ==> x in s && p(x)
  {
    if s == [] then []
    else Filter(s[..|s| - 1], p) + (if p(s[|s| - 1]) then [s[|s| - 1]] else [])
  }

  /** Every element of `s` that satisfies `p` is kept. */
  lemma {:induction false} FilterKeeps<T>(s: seq<T>, p: T -> bool, x: T)
    requires x in s && p(x)
    ensures x in Filter(s, p)
  {
    var n := |s| - 1;
    assert s == s[..n] + [s[n]];
    if x != s[n] {
      assert x in s[..n];
      FilterKeeps(s[..n], p, x);
    }
  }

  /** Filter distributes over concatenation: it preserves the relative order of what it keeps. */
  lemma {:induction false} FilterAppend<T>(s: seq<T>, t: seq<T>, p: T -> bool)
    ensures Filter(s + t, p) == Filter(s, p) + Filter(t, p)
    decreases |t|
  {
    if t == [] {
      assert s + t == s;
    } else {
      var n := |t| - 1;
      assert (s + t)[..|s + t| - 1] == s + t[..n];
      assert (s + t)[|s + t| - 1] == t[n];
      FilterAppend(s, t[..n], p);
    }
  }

  /** Membership in a filtered sequence, both directions. */
  lemma FilterMembers<T>(s: seq<T>, p: T -> bool)
    ensures forall x :: x in Filter(s, p) <==> x in s && p(x)
  {
    forall x | x in s && p(x)
      ensures x in Filter(s, p)
    {
      FilterKeeps(s, p, x);
    }
  }

  /** Two predicates that agree everywhere keep the same elements. */
  lemma {:induction false} FilterSamePredicate<T>(s: seq<T>, p: T -> bool, q: T -> bool)
    requires forall x :: p(x) == q(x)
    ensures Filter(s, p) == Filter(s, q)
  {
    if s != [] {
      FilterSamePredicate(s[..|s| - 1], p, q);
      assert p(s[|s| - 1]) == q(s[|s| - 1]);
    }
  }

  /** A predicate that holds everywhere keeps everything. */
  lemma {:induction false} FilterAll<T>(s: seq<T>, p: T -> bool)
    requires forall x :: p(x)
    ensures Filter(s, p) == s
  {
    if s != [] {
      var n := |s| - 1;
      FilterAll(s[..n], p);
      assert p(s[n]);
      assert s[..n] + [s[n]] == s;
    }
  }

  /** The index of the first element of `s` satisfying `p`, if there is one. */
  function FirstIndex<T>(s: seq<T>, p: T -> bool): (r: Option<nat>)
    ensures r.Some? ==> r.value < |s| && p(s[r.value])
    ensures r.Some? ==> forall j :: 0 <= j < r.value ==> !p(s[j])
    ensures r.None? <==> forall j :: 0 <= j < |s| ==> !p(s[j])
  {
    if s == [] then None
    else if p(s[0]) then Some(0)
    else match FirstIndex(s[1..], p)
      case None => None
      case Some(k) => Some(k + 1)
  }

  /** `s` is ordered by `key`, largest first: no element has a larger key than its predecessor. */
  predicate SortedDesc<T>(s: seq<T>, key: T -> int)
  {
    forall i :: 0 < i < |s| ==> key(s[i - 1]) >= key(s[i])
  }

  /** Ordered by adjacent pairs means ordered between any two positions. */
  lemma {:induction false} SortedDescPairs<T>(s: seq<T>, key: T -> int, i: nat, j: nat)
    requires SortedDesc(s, key)
    requires i <= j < |s|
    ensures key(s[i]) >= key(s[j])
    decreases j - i
  {
    if i < j {
      SortedDescPairs(s, key, i + 1, j);
    }
  }

  /** Inserts `x` into a sequence that is ordered by `key`, largest first. */
  function InsertDesc<T>(x: T, s: seq<T>, key: T -> int): (r: seq<T>)
    requires SortedDesc(s, key)
    ensures SortedDesc(r, key)
    ensures multiset(r) == multiset(s) + multiset{x}
    ensures |r| == |s| + 1 && (r[0] == x || (s != [] && r[0] == s[0]))
  {
    if s == [] then [x]
    else if key(x) >= key(s[0]) then [x] + s
    else
      assert s == [s[0]] + s[1..];
      var rest := InsertDesc(x, s[1..], key);
      assert key(s[0]) >= key(rest[0]);
      [s[0]] + rest
  }

  /** `s` reordered by `key`, largest first (insertion sort). */
  function SortDesc<T>(s: seq<T>, key: T -> int): (r: seq<T>)
    ensures SortedDesc(r, key)
    ensures multiset(r) == multiset(s)
  {
    if s == [] then []
    else
      assert s == [s[0]] + s[1..];
      InsertDesc(s[0], SortDesc(s[1..], key), key)
  }

  /** A sorted sequence holds exactly the elements of the sequence it was sorted from. */
  lemma SortMembers<T>(s: seq<T>, key: T -> int)
    ensures forall x :: x in SortDesc(s, key) <==> x in s
  {
    var r := SortDesc(s, key);
    forall x ensures x in r <==> x in s {
      assert x in r <==> x in multiset(r);
      assert x in s <==> x in multiset(s);
    }
  }
}
