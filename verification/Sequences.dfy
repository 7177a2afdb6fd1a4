/** Generic sequence operations shared by the model: a stable insertion sort
    by an integer key (the order MongoDB's `$sort` stage and ECMAScript's
    `Array.prototype.sort` produce for this model), order-preserving filters,
    first-match search, de-duplication and reversal. */
module Sequences {

  datatype Option<T> = None | Some(value: T)

  /** `s` is ordered by non-decreasing `key`. */
  ghost predicate SortedBy<T(!new)>(s: seq<T>, key: T -> int) {
    forall i, j :: 0 <= i < j < |s| ==> key(s[i]) <= key(s[j])
  }

  /** `s` is ordered by strictly increasing `key`. */
  ghost predicate StrictlyIncreasing<T(!new)>(s: seq<T>, key: T -> int) {
    forall i, j :: 0 <= i < j < |s| ==> key(s[i]) < key(s[j])
  }

  /** Inserts `x` after the leading elements whose key is not larger. */
  function Insert<T(!new)>(s: seq<T>, x: T, key: T -> int): (r: seq<T>)
    ensures |r| == |s| + 1
  {
    if s == [] || key(x) < key(s[0]) then [x] + s
    else [s[0]] + Insert(s[1..], x, key)
  }

  /** Stable sort of `s` by ascending `key`: a permutation of `s` (sorted by `SortByOrders`). */
  function SortBy<T(!new)>(s: seq<T>, key: T -> int): (r: seq<T>)
    ensures |r| == |s|
  {
    if s == [] then []
    else Insert(SortBy(s[..|s| - 1], key), s[|s| - 1], key)
  }

  /** `Insert` adds exactly `x`. */
  lemma {:induction false} InsertPermutes<T(!new)>(s: seq<T>, x: T, key: T -> int)
    ensures multiset(Insert(s, x, key)) == multiset(s) + multiset{x}
  {
    if s != [] && key(s[0]) <= key(x) {
      InsertPermutes(s[1..], x, key);
      ConsMultiset(s[0], Insert(s[1..], x, key));
      HeadTail(s);
    }
  }

  /** `SortBy` is a permutation. */
  lemma {:induction false} SortByPermutes<T(!new)>(s: seq<T>, key: T -> int)
    ensures multiset(SortBy(s, key)) == multiset(s)
  {
    if s != [] {
      SortByPermutes(s[..|s| - 1], key);
      InsertPermutes(SortBy(s[..|s| - 1], key), s[|s| - 1], key);
      assert s == s[..|s| - 1] + [s[|s| - 1]];
    }
  }

  /** Inserting into a sorted sequence keeps it sorted. */
  lemma {:induction false} InsertOrders<T(!new)>(s: seq<T>, x: T, key: T -> int)
    requires SortedBy(s, key)
    ensures SortedBy(Insert(s, x, key), key)
  {
    if s != [] && key(s[0]) <= key(x) {
      var rest := Insert(s[1..], x, key);
      assert SortedBy(s[1..], key) by {
        forall i, j | 0 <= i < j < |s| - 1 ensures key(s[1..][i]) <= key(s[1..][j]) {
          assert s[1..][i] == s[i + 1] && s[1..][j] == s[j + 1];
        }
      }
      InsertOrders(s[1..], x, key);
      forall j | 0 <= j < |rest| ensures key(s[0]) <= key(rest[j]) {
        InsertBound(s, x, key, j);
      }
      ConsOrders(s[0], rest, key);
    }
  }

  /** Every element of `Insert(s[1..], x)` has a key not below `s[0]`'s, when `s` is sorted and `x` is not below `s[0]`. */
  lemma InsertBound<T(!new)>(s: seq<T>, x: T, key: T -> int, j: nat)
    requires SortedBy(s, key) && |s| > 0 && key(s[0]) <= key(x)
    requires j < |Insert(s[1..], x, key)|
    ensures key(s[0]) <= key(Insert(s[1..], x, key)[j])
  {
    var rest := Insert(s[1..], x, key);
    InsertPermutes(s[1..], x, key);
    assert rest[j] in multiset(rest);
    if rest[j] != x {
      assert rest[j] in multiset(s[1..]);
      var i :| 0 <= i < |s[1..]| && s[1..][i] == rest[j];
      assert s[i + 1] == rest[j];
    }
  }

  /** Putting an element in front of a sorted sequence whose keys are all at least its own keeps it sorted. */
  lemma ConsOrders<T(!new)>(h: T, rest: seq<T>, key: T -> int)
    requires SortedBy(rest, key)
    requires forall j :: 0 <= j < |rest| ==> key(h) <= key(rest[j])
    ensures SortedBy([h] + rest, key)
  {
    var r := [h] + rest;
    forall i, j | 0 <= i < j < |r| ensures key(r[i]) <= key(r[j]) {
      assert r[j] == rest[j - 1];
      if i > 0 { assert r[i] == rest[i - 1]; }
    }
  }

  /** The result of `SortBy` is sorted. */
  lemma {:induction false} SortByOrders<T(!new)>(s: seq<T>, key: T -> int)
    ensures SortedBy(SortBy(s, key), key)
  {
    if s != [] {
      SortByOrders(s[..|s| - 1], key);
      InsertOrders(SortBy(s[..|s| - 1], key), s[|s| - 1], key);
    }
  }

  /** An element whose key is not below any other goes to the end. */
  lemma {:induction false} InsertLast<T(!new)>(s: seq<T>, x: T, key: T -> int)
    requires forall i :: 0 <= i < |s| ==> key(s[i]) <= key(x)
    ensures Insert(s, x, key) == s + [x]
  {
    if s != [] {
      InsertLast(s[1..], x, key);
      assert s == [s[0]] + s[1..];
    }
  }

  /** Sorting an already sorted sequence changes nothing (the sort is stable). */
  lemma {:induction false} SortByIdentity<T(!new)>(s: seq<T>, key: T -> int)
    requires SortedBy(s, key)
    ensures SortBy(s, key) == s
  {
    if s != [] {
      var p, x := s[..|s| - 1], s[|s| - 1];
      SortedInit(s, key);
      SortByIdentity(p, key);
      InsertLast(p, x, key);
      assert p + [x] == s;
    }
  }

  /** Dropping the last element of a sorted sequence leaves it sorted, below that element. */
  lemma SortedInit<T(!new)>(s: seq<T>, key: T -> int)
    requires SortedBy(s, key) && |s| > 0
    ensures SortedBy(s[..|s| - 1], key)
    ensures forall i :: 0 <= i < |s| - 1 ==> key(s[i]) <= key(s[|s| - 1])
  {
    var p := s[..|s| - 1];
    forall i, j | 0 <= i < j < |p| ensures key(p[i]) <= key(p[j]) {
      assert p[i] == s[i] && p[j] == s[j];
    }
  }

  /** Appending an element whose key is maximal appends it to the sorted result. */
  lemma {:induction false} SortByAppendMax<T(!new)>(p: seq<T>, x: T, key: T -> int)
    requires forall i :: 0 <= i < |p| ==> key(p[i]) <= key(x)
    ensures SortBy(p + [x], key) == SortBy(p, key) + [x]
  {
    var s, sp := p + [x], SortBy(p, key);
    assert s[..|s| - 1] == p;
    SortByPermutes(p, key);
    forall i | 0 <= i < |sp| ensures key(sp[i]) <= key(x) {
      assert sp[i] in multiset(p);
      var j :| 0 <= j < |p| && p[j] == sp[i];
    }
    InsertLast(sp, x, key);
  }

  /** Reverses `s`. */
  function Reverse<T(!new)>(s: seq<T>): (r: seq<T>)
    ensures |r| == |s|
    ensures forall i :: 0 <= i < |s| ==> r[i] == s[|s| - 1 - i]
  {
    seq(|s|, i requires 0 <= i < |s| => s[|s| - 1 - i])
  }

  /** Reversing the first `k` elements of the reversal gives the last `k` elements. */
  lemma ReverseOfReversedPrefix<T(!new)>(s: seq<T>, k: nat)
    requires k <= |s|
    ensures Reverse(Reverse(s)[..k]) == s[|s| - k..]
  {
    var r := Reverse(s)[..k];
    var q := Reverse(r);
    forall i | 0 <= i < k ensures q[i] == s[|s| - k + i] {
      ReversedPrefixAt(s, k, i);
    }
    EqualPointwise(q, s[|s| - k..]);
  }

  lemma ReversedPrefixAt<T(!new)>(s: seq<T>, k: nat, i: nat)
    requires i < k <= |s|
    ensures Reverse(Reverse(s)[..k])[i] == s[|s| - k + i]
  {
    var r := Reverse(s)[..k];
    assert Reverse(r)[i] == r[k - 1 - i];
    assert r[k - 1 - i] == Reverse(s)[k - 1 - i];
  }

  /** A second update at the same index overrides the first. */
  lemma SetTwice<T>(s: seq<T>, i: nat, x: T, y: T)
    requires i < |s|
    ensures s[i := x][i := y] == s[i := y]
  {
  }

  /** Sequences of equal length that agree at every index are equal. */
  lemma EqualPointwise<T>(a: seq<T>, b: seq<T>)
    requires |a| == |b| && forall i :: 0 <= i < |a| ==> a[i] == b[i]
    ensures a == b
  {
  }

  /** The first `k` elements are not changed by appending. */
  lemma TakeAppend<T>(s: seq<T>, x: T, k: nat)
    requires k <= |s|
    ensures (s + [x])[..k] == s[..k]
  {
    assert (s + [x])[..k] == s[..k];
  }

  /** Taking every element gives the whole sequence. */
  lemma TakeAll<T>(s: seq<T>)
    ensures s[..|s|] == s
  {
  }

  /** Taking one more element appends it. */
  lemma TakeNext<T>(s: seq<T>, i: nat)
    requires i < |s|
    ensures s[..i + 1] == s[..i] + [s[i]]
  {
    assert s[..i + 1] == s[..i] + [s[i]];
  }

  /** Sorting a sequence whose keys strictly decrease reverses it. */
  lemma {:induction false} SortByStrictlyDecreasing<T(!new)>(s: seq<T>, key: T -> int)
    requires forall i, j :: 0 <= i < j < |s| ==> key(s[j]) < key(s[i])
    ensures SortBy(s, key) == Reverse(s)
  {
    if s != [] {
      var p, x := s[..|s| - 1], s[|s| - 1];
      SortByStrictlyDecreasing(p, key);
      var rp := Reverse(p);
      if rp != [] {
        assert rp[0] == p[|p| - 1];
        assert key(x) < key(rp[0]);
      }
    }
  }

  /** Keeps, in order, the elements of `s` satisfying `p` (a `$match` stage). */
  function Filter<T(!new)>(s: seq<T>, p: T -> bool): (r: seq<T>)
    ensures |r| <= |s|
  {
    if s == [] then []
    else (if p(s[0]) then [s[0]] else []) + Filter(s[1..], p)
  }

  /** `Filter` keeps exactly the elements satisfying `p`, each as often as it occurs. */
  lemma {:induction false} FilterCounts<T(!new)>(s: seq<T>, p: T -> bool)
    ensures forall x :: multiset(Filter(s, p))[x] == if p(x) then multiset(s)[x] else 0
  {
    if s != [] {
      FilterCounts(s[1..], p);
      HeadTail(s);
      var h := if p(s[0]) then [s[0]] else [];
      assert multiset(h + Filter(s[1..], p)) == multiset(h) + multiset(Filter(s[1..], p));
    }
  }

  lemma FilterMembers<T(!new)>(s: seq<T>, p: T -> bool)
    ensures forall x :: x in Filter(s, p) <==> x in s && p(x)
  {
    FilterCounts(s, p);
    forall x ensures x in Filter(s, p) <==> x in s && p(x) {
      assert x in Filter(s, p) <==> x in multiset(Filter(s, p));
      assert x in s <==> x in multiset(s);
    }
  }

  /** Every element `Filter` keeps satisfies `p`, and `Filter` keeps the order of `s`. */
  lemma {:induction false} FilterOrders<T(!new)>(s: seq<T>, p: T -> bool, key: T -> int)
    requires SortedBy(s, key)
    ensures SortedBy(Filter(s, p), key)
  {
    if s != [] {
      var rest := Filter(s[1..], p);
      assert SortedBy(s[1..], key) by {
        forall i, j | 0 <= i < j < |s| - 1 ensures key(s[1..][i]) <= key(s[1..][j]) {
          assert s[1..][i] == s[i + 1] && s[1..][j] == s[j + 1];
        }
      }
      FilterOrders(s[1..], p, key);
      if p(s[0]) {
        FilterMembers(s[1..], p);
        forall j | 0 <= j < |rest| ensures key(s[0]) <= key(rest[j]) {
          assert rest[j] in s[1..];
          var i :| 0 <= i < |s| - 1 && s[1..][i] == rest[j];
          assert s[i + 1] == rest[j];
        }
        ConsOrders(s[0], rest, key);
      }
    }
  }

  /** `Filter` keeps a strictly increasing sequence strictly increasing. */
  lemma {:induction false} FilterIncreasing<T(!new)>(s: seq<T>, p: T -> bool, key: T -> int)
    requires StrictlyIncreasing(s, key)
    ensures StrictlyIncreasing(Filter(s, p), key)
  {
    if s != [] {
      var rest := Filter(s[1..], p);
      assert StrictlyIncreasing(s[1..], key) by {
        forall i, j | 0 <= i < j < |s| - 1 ensures key(s[1..][i]) < key(s[1..][j]) {
          assert s[1..][i] == s[i + 1] && s[1..][j] == s[j + 1];
        }
      }
      FilterIncreasing(s[1..], p, key);
      if p(s[0]) {
        FilterMembers(s[1..], p);
        forall j | 0 <= j < |rest| ensures key(s[0]) < key(rest[j]) {
          assert rest[j] in s[1..];
          var i :| 0 <= i < |s| - 1 && s[1..][i] == rest[j];
          assert s[i + 1] == rest[j];
        }
        var r := [s[0]] + rest;
        forall i, j | 0 <= i < j < |r| ensures key(r[i]) < key(r[j]) {
          assert r[j] == rest[j - 1];
          if i > 0 { assert r[i] == rest[i - 1]; }
        }
      }
    }
  }

  /** `Filter` keeps keys distinct. */
  lemma {:induction false} FilterDistinct<T(!new), K>(s: seq<T>, p: T -> bool, key: T -> K)
    requires DistinctKeys(s, key)
    ensures DistinctKeys(Filter(s, p), key)
  {
    if s != [] {
      var rest := Filter(s[1..], p);
      assert DistinctKeys(s[1..], key) by {
        forall i, j | 0 <= i < j < |s| - 1 ensures key(s[1..][i]) != key(s[1..][j]) {
          assert s[1..][i] == s[i + 1] && s[1..][j] == s[j + 1];
        }
      }
      FilterDistinct(s[1..], p, key);
      if p(s[0]) {
        FilterMembers(s[1..], p);
        forall j | 0 <= j < |rest| ensures key(s[0]) != key(rest[j]) {
          assert rest[j] in s[1..];
          var i :| 0 <= i < |s| - 1 && s[1..][i] == rest[j];
          assert s[i + 1] == rest[j];
        }
        ConsDistinct(s[0], rest, key);
      }
    }
  }

  /** Filtering an extended sequence filters the extension on its own. */
  lemma {:induction false} FilterAppend<T(!new)>(s: seq<T>, x: T, p: T -> bool)
    ensures Filter(s + [x], p) == Filter(s, p) + (if p(x) then [x] else [])
  {
    if s != [] {
      assert (s + [x])[1..] == s[1..] + [x];
      FilterAppend(s[1..], x, p);
    } else {
      assert [x][1..] == [];
    }
  }

  /** A filter that every element passes keeps the whole sequence. */
  lemma {:induction false} FilterKeepsAll<T(!new)>(s: seq<T>, p: T -> bool)
    requires forall i :: 0 <= i < |s| ==> p(s[i])
    ensures Filter(s, p) == s
  {
    if s != [] {
      assert forall i :: 0 <= i < |s[1..]| ==> p(s[1..][i]) by {
        forall i | 0 <= i < |s[1..]| ensures p(s[1..][i]) { assert s[1..][i] == s[i + 1]; }
      }
      FilterKeepsAll(s[1..], p);
      assert [s[0]] + s[1..] == s;
    }
  }

  /** Filtering by a stronger predicate after a weaker one is filtering by the stronger one. */
  lemma {:induction false} FilterNarrows<T(!new)>(s: seq<T>, p: T -> bool, q: T -> bool)
    requires forall x :: q(x) ==> p(x)
    ensures Filter(Filter(s, p), q) == Filter(s, q)
  {
    if s != [] {
      FilterNarrows(s[1..], p, q);
      var fp := Filter(s, p);
      if p(s[0]) {
        assert fp == [s[0]] + Filter(s[1..], p);
        assert fp[0] == s[0] && fp[1..] == Filter(s[1..], p);
      } else {
        assert fp == [] + Filter(s[1..], p);
        assert fp == Filter(s[1..], p);
      }
    }
  }

  /** Filtering by a predicate that excludes the first one leaves nothing. */
  lemma {:induction false} FilterExcludes<T(!new)>(s: seq<T>, p: T -> bool, q: T -> bool)
    requires forall x :: p(x) ==> !q(x)
    ensures Filter(Filter(s, p), q) == []
  {
    if s != [] {
      FilterExcludes(s[1..], p, q);
      var fp := Filter(s, p);
      if p(s[0]) {
        assert fp == [s[0]] + Filter(s[1..], p);
        assert fp[0] == s[0] && fp[1..] == Filter(s[1..], p);
      } else {
        assert fp == [] + Filter(s[1..], p);
        assert fp == Filter(s[1..], p);
      }
    }
  }

  /** Filters by predicates that agree everywhere give the same result. */
  lemma {:induction false} FilterSame<T(!new)>(s: seq<T>, p: T -> bool, q: T -> bool)
    requires forall x :: p(x) == q(x)
    ensures Filter(s, p) == Filter(s, q)
  {
    if s != [] {
      FilterSame(s[1..], p, q);
    }
  }

  /** The index of the first element satisfying `p`, if any. */
  function FirstIndex<T(!new)>(s: seq<T>, p: T -> bool): (r: Option<nat>)
    ensures r.Some? ==> r.value < |s| && p(s[r.value])
    ensures r.Some? ==> forall j :: 0 <= j < r.value ==> !p(s[j])
    ensures r.None? <==> forall j :: 0 <= j < |s| ==> !p(s[j])
  {
    if s == [] then None
    else if p(s[0]) then Some(0)
    else match FirstIndex(s[1..], p)
      case None => None
      case Some(i) => Some(i + 1)
  }

  /** Sequences on which `p` agrees index by index have the same first match. */
  lemma {:induction false} FirstIndexSame<T(!new)>(s: seq<T>, t: seq<T>, p: T -> bool)
    requires |s| == |t| && forall i :: 0 <= i < |s| ==> p(s[i]) == p(t[i])
    ensures FirstIndex(s, p) == FirstIndex(t, p)
  {
    if s != [] && !p(s[0]) {
      assert forall i :: 0 <= i < |s[1..]| ==> p(s[1..][i]) == p(t[1..][i]) by {
        forall i | 0 <= i < |s[1..]| ensures p(s[1..][i]) == p(t[1..][i]) {
          assert s[1..][i] == s[i + 1] && t[1..][i] == t[i + 1];
        }
      }
      FirstIndexSame(s[1..], t[1..], p);
    }
  }

  /** `findOne`: the first element satisfying `p`, if any. */
  function Find<T(!new)>(s: seq<T>, p: T -> bool): (r: Option<T>)
    ensures r.Some? ==> r.value in s && p(r.value)
    ensures r.None? <==> forall i :: 0 <= i < |s| ==> !p(s[i])
  {
    match FirstIndex(s, p)
    case Some(i) => Some(s[i])
    case None => None
  }

  /** `deleteOne`: removes the first element satisfying `p`, if any. */
  function RemoveFirst<T(!new)>(s: seq<T>, p: T -> bool): (r: seq<T>)
    ensures |r| <= |s|
  {
    if s == [] then []
    else if p(s[0]) then s[1..]
    else [s[0]] + RemoveFirst(s[1..], p)
  }

  /** `RemoveFirst` removes exactly the element `FirstIndex` finds. */
  lemma {:induction false} RemoveFirstAt<T(!new)>(s: seq<T>, p: T -> bool)
    ensures match FirstIndex(s, p)
      case None => RemoveFirst(s, p) == s
      case Some(i) => RemoveFirst(s, p) == s[..i] + s[i + 1..]
  {
    if s != [] && !p(s[0]) {
      RemoveFirstAt(s[1..], p);
      match FirstIndex(s[1..], p)
      case None =>
      case Some(i) =>
        assert [s[0]] + (s[1..][..i] + s[1..][i + 1..]) == s[..i + 1] + s[i + 2..];
    }
  }

  /** The only element of `s + [x]` satisfying `p` is `x`, so `Find` returns it. */
  lemma FindLast<T(!new)>(s: seq<T>, x: T, p: T -> bool)
    requires forall i :: 0 <= i < |s| ==> !p(s[i])
    requires p(x)
    ensures Find(s + [x], p) == Some(x)
    ensures FirstIndex(s + [x], p) == Some(|s|)
  {
    var t := s + [x];
    assert t[|s|] == x;
    forall j | 0 <= j < |s| ensures !p(t[j]) {
      assert t[j] == s[j];
    }
    assert FirstIndex(t, p).Some?;
  }

  /** Removing one element keeps keys distinct. */
  lemma RemoveAtDistinct<T, K>(s: seq<T>, i: nat, key: T -> K)
    requires i < |s| && DistinctKeys(s, key)
    ensures DistinctKeys(s[..i] + s[i + 1..], key)
  {
    var r := s[..i] + s[i + 1..];
    forall a, b | 0 <= a < b < |r| ensures key(r[a]) != key(r[b]) {
      var a' := if a < i then a else a + 1;
      var b' := if b < i then b else b + 1;
      assert r[a] == s[a'] && r[b] == s[b'];
    }
  }

  /** Replacing an element by one with the same key keeps the keys strictly increasing. */
  lemma UpdateIncreasing<T(!new)>(s: seq<T>, i: nat, x: T, key: T -> int)
    requires i < |s| && StrictlyIncreasing(s, key) && key(x) == key(s[i])
    ensures StrictlyIncreasing(s[i := x], key)
  {
    var r := s[i := x];
    forall a, b | 0 <= a < b < |r| ensures key(r[a]) < key(r[b]) {
      assert key(r[a]) == key(s[a]) && key(r[b]) == key(s[b]);
    }
  }

  /** The distinct elements of `s`, in order of first appearance (`[...new Set(s)]`). */
  function Distinct<T(==,!new)>(s: seq<T>): (r: seq<T>)
    ensures forall x :: x in r <==> x in s
    ensures forall i, j :: 0 <= i < j < |r| ==> r[i] != r[j]
  {
    if s == [] then []
    else
      var d := Distinct(s[..|s| - 1]);
      assert s == s[..|s| - 1] + [s[|s| - 1]];
      if s[|s| - 1] in d then d else d + [s[|s| - 1]]
  }

  /** Some element of `s` has key `k`. */
  predicate HasKey<T(!new), K(==)>(s: seq<T>, key: T -> K, k: K) {
    exists i :: 0 <= i < |s| && key(s[i]) == k
  }

  /** The first element of `s` for each key, in order of first appearance
      (a `$group` stage whose accumulator is `$first`). */
  function FirstPerKey<T(!new), K(==)>(s: seq<T>, key: T -> K): (r: seq<T>)
    ensures |r| <= |s|
  {
    if s == [] then []
    else
      var init := FirstPerKey(s[..|s| - 1], key);
      if HasKey(s[..|s| - 1], key, key(s[|s| - 1])) then init else init + [s[|s| - 1]]
  }

  /** Every element `FirstPerKey` keeps is the first of its key in `s`. */
  lemma {:induction false} FirstPerKeyIndex<T(!new), K>(s: seq<T>, key: T -> K, x: T) returns (i: nat)
    requires x in FirstPerKey(s, key)
    ensures i < |s| && s[i] == x
    ensures forall j :: 0 <= j < i ==> key(s[j]) != key(x)
  {
    var init := s[..|s| - 1];
    if x in FirstPerKey(init, key) {
      i := FirstPerKeyIndex(init, key, x);
    } else {
      i := |s| - 1;
      forall j | 0 <= j < i ensures key(s[j]) != key(x) {
        assert init[j] == s[j];
      }
    }
  }

  /** Every key of `s` is the key of some element `FirstPerKey` keeps. */
  lemma {:induction false} FirstPerKeyCovers<T(!new), K>(s: seq<T>, key: T -> K, i: nat) returns (x: T)
    requires i < |s|
    ensures x in FirstPerKey(s, key) && key(x) == key(s[i])
  {
    var init := s[..|s| - 1];
    var last := s[|s| - 1];
    if i < |s| - 1 {
      assert init[i] == s[i];
      x := FirstPerKeyCovers(init, key, i);
    } else if HasKey(init, key, key(last)) {
      var j :| 0 <= j < |init| && key(init[j]) == key(last);
      x := FirstPerKeyCovers(init, key, j);
    } else {
      x := last;
    }
  }

  /** No two elements of `s` share a key. */
  ghost predicate DistinctKeys<T, K>(s: seq<T>, key: T -> K) {
    forall i, j :: 0 <= i < j < |s| ==> key(s[i]) != key(s[j])
  }

  lemma DistinctKeysAt<T, K>(s: seq<T>, key: T -> K, i: nat, j: nat)
    requires DistinctKeys(s, key) && i < j < |s|
    ensures key(s[i]) != key(s[j])
  {
  }

  /** `FirstPerKey` keeps at most one element per key. */
  lemma {:induction false} FirstPerKeyDistinct<T(!new), K>(s: seq<T>, key: T -> K)
    ensures DistinctKeys(FirstPerKey(s, key), key)
  {
    if s != [] {
      var init := s[..|s| - 1];
      var last := s[|s| - 1];
      var prev := FirstPerKey(init, key);
      FirstPerKeyDistinct(init, key);
      if !HasKey(init, key, key(last)) {
        forall i | 0 <= i < |prev| ensures key(prev[i]) != key(last) {
          var k := FirstPerKeyIndex(init, key, prev[i]);
          assert key(init[k]) != key(last);
        }
        SnocDistinct(prev, last, key);
        assert FirstPerKey(s, key) == prev + [last];
      } else {
        assert FirstPerKey(s, key) == prev;
      }
    }
  }

  lemma SnocDistinct<T, K>(s: seq<T>, x: T, key: T -> K)
    requires DistinctKeys(s, key)
    requires forall i :: 0 <= i < |s| ==> key(s[i]) != key(x)
    ensures DistinctKeys(s + [x], key)
  {
    var r := s + [x];
    forall i, j | 0 <= i < j < |r| ensures key(r[i]) != key(r[j]) {
      assert r[i] == s[i];
    }
  }

  /** `FirstPerKey` keeps the order of `s`. */
  lemma {:induction false} FirstPerKeyOrders<T(!new), K>(s: seq<T>, key: T -> K, order: T -> int)
    requires SortedBy(s, order)
    ensures SortedBy(FirstPerKey(s, key), order)
  {
    if s != [] {
      var init := s[..|s| - 1];
      var last := s[|s| - 1];
      var prev := FirstPerKey(init, key);
      SortedInit(s, order);
      FirstPerKeyOrders(init, key, order);
      if !HasKey(init, key, key(last)) {
        forall i | 0 <= i < |prev| ensures order(prev[i]) <= order(last) {
          var k := FirstPerKeyIndex(init, key, prev[i]);
          assert init[k] == s[k];
        }
        SnocOrders(prev, last, order);
      }
    }
  }

  lemma SnocOrders<T(!new)>(s: seq<T>, x: T, key: T -> int)
    requires SortedBy(s, key)
    requires forall i :: 0 <= i < |s| ==> key(s[i]) <= key(x)
    ensures SortedBy(s + [x], key)
  {
    var r := s + [x];
    forall i, j | 0 <= i < j < |r| ensures key(r[i]) <= key(r[j]) {
      assert r[i] == s[i];
    }
  }

  /** Applies the partial map `f` to each element, in order, dropping the
      elements it does not map (a `$lookup` followed by `$unwind` and `$project`). */
  function FilterMap<T, U>(s: seq<T>, f: T -> Option<U>): (r: seq<U>)
    ensures |r| <= |s|
  {
    if s == [] then []
    else (if f(s[0]).Some? then [f(s[0]).value] else []) + FilterMap(s[1..], f)
  }

  /** Every result of `FilterMap` is the image of an element of `s`. */
  lemma {:induction false} FilterMapSource<T, U>(s: seq<T>, f: T -> Option<U>, y: U) returns (i: nat)
    requires y in FilterMap(s, f)
    ensures i < |s| && f(s[i]) == Some(y)
  {
    if f(s[0]) == Some(y) {
      i := 0;
    } else {
      var j := FilterMapSource(s[1..], f, y);
      i := j + 1;
    }
  }

  /** Every element `f` maps has its image in `FilterMap`. */
  lemma {:induction false} FilterMapKeeps<T, U>(s: seq<T>, f: T -> Option<U>, i: nat)
    requires i < |s| && f(s[i]).Some?
    ensures f(s[i]).value in FilterMap(s, f)
  {
    if i > 0 {
      assert s[1..][i - 1] == s[i];
      FilterMapKeeps(s[1..], f, i - 1);
    }
  }

  /** `FilterMap` keeps the order of `s` when `f` keeps the key. */
  lemma {:induction false} FilterMapOrders<T(!new), U(!new)>(s: seq<T>, f: T -> Option<U>, from: T -> int, to: U -> int)
    requires SortedBy(s, from)
    requires forall x :: f(x).Some? ==> to(f(x).value) == from(x)
    ensures SortedBy(FilterMap(s, f), to)
  {
    if s != [] {
      var rest := FilterMap(s[1..], f);
      assert SortedBy(s[1..], from) by {
        forall i, j | 0 <= i < j < |s| - 1 ensures from(s[1..][i]) <= from(s[1..][j]) {
          assert s[1..][i] == s[i + 1] && s[1..][j] == s[j + 1];
        }
      }
      FilterMapOrders(s[1..], f, from, to);
      if f(s[0]).Some? {
        forall j | 0 <= j < |rest| ensures to(f(s[0]).value) <= to(rest[j]) {
          var k := FilterMapSource(s[1..], f, rest[j]);
          assert s[1..][k] == s[k + 1];
        }
        ConsOrders(f(s[0]).value, rest, to);
      }
    }
  }

  /** `FilterMap` gives distinct images distinct ids when `f` does. */
  lemma {:induction false} FilterMapDistinct<T, U, K>(s: seq<T>, f: T -> Option<U>, id: U -> K)
    requires forall i, j :: 0 <= i < j < |s| && f(s[i]).Some? && f(s[j]).Some? ==> id(f(s[i]).value) != id(f(s[j]).value)
    ensures DistinctKeys(FilterMap(s, f), id)
  {
    if s != [] {
      var rest := FilterMap(s[1..], f);
      forall i, j | 0 <= i < j < |s| - 1 && f(s[1..][i]).Some? && f(s[1..][j]).Some?
        ensures id(f(s[1..][i]).value) != id(f(s[1..][j]).value)
      {
        assert s[1..][i] == s[i + 1] && s[1..][j] == s[j + 1];
      }
      FilterMapDistinct(s[1..], f, id);
      if f(s[0]).Some? {
        forall j | 0 <= j < |rest| ensures id(f(s[0]).value) != id(rest[j]) {
          var k := FilterMapSource(s[1..], f, rest[j]);
          assert s[1..][k] == s[k + 1];
        }
        ConsDistinct(f(s[0]).value, rest, id);
      }
    }
  }

  lemma ConsDistinct<T, K>(h: T, rest: seq<T>, id: T -> K)
    requires DistinctKeys(rest, id)
    requires forall j :: 0 <= j < |rest| ==> id(h) != id(rest[j])
    ensures DistinctKeys([h] + rest, id)
  {
    var r := [h] + rest;
    forall i, j | 0 <= i < j < |r| ensures id(r[i]) != id(r[j]) {
      assert r[j] == rest[j - 1];
      if i > 0 { assert r[i] == rest[i - 1]; }
    }
  }

  /** In a sorted sequence, an element of a prefix has a key no larger than
      that of an element outside it. */
  lemma SortedPrefixDominates<T(!new)>(t: seq<T>, k: nat, key: T -> int, x: T, y: T)
    requires SortedBy(t, key) && k <= |t|
    requires x in t[..k] && y in multiset(t) && y !in t[..k]
    ensures key(x) <= key(y)
  {
    assert t == t[..k] + t[k..];
    assert y in t;
    SortedSplit(t, k, key, x, y);
  }

  /** In a sorted sequence an element of a prefix has a key not above an element of the rest. */
  lemma SortedSplit<T(!new)>(t: seq<T>, k: nat, key: T -> int, x: T, y: T)
    requires SortedBy(t, key) && k <= |t|
    requires x in t[..k] && y in t[k..]
    ensures key(x) <= key(y)
  {
    var i :| 0 <= i < k && t[..k][i] == x;
    var j :| 0 <= j < |t| - k && t[k..][j] == y;
    assert t[i] == x && t[k + j] == y;
  }

  /** In a strictly increasing sequence no key is above the last one. */
  lemma StrictlyIncreasingMax<T(!new)>(s: seq<T>, key: T -> int)
    requires StrictlyIncreasing(s, key) && |s| > 0
    ensures forall x :: x in s ==> key(x) <= key(s[|s| - 1])
  {
    forall x | x in s ensures key(x) <= key(s[|s| - 1]) {
      var i :| 0 <= i < |s| && s[i] == x;
      assert i < |s| - 1 ==> key(s[i]) < key(s[|s| - 1]);
    }
  }

  /** A prefix and the matching suffix split the multiset of the whole. */
  lemma SplitMultiset<T(!new)>(t: seq<T>, k: nat)
    requires k <= |t|
    ensures multiset(t) == multiset(t[..k]) + multiset(t[k..])
  {
    assert t == t[..k] + t[k..];
  }

  /** Removing the element at index `i` removes one occurrence of it. */
  lemma RemoveAtPermutes<T>(s: seq<T>, i: nat)
    requires i < |s|
    ensures multiset(s[..i] + s[i + 1..]) == multiset(s) - multiset{s[i]}
  {
    assert s == s[..i] + [s[i]] + s[i + 1..];
  }

  /** Removing one element keeps a strictly increasing sequence strictly increasing. */
  lemma RemoveAtIncreasing<T(!new)>(s: seq<T>, i: nat, key: T -> int)
    requires i < |s| && StrictlyIncreasing(s, key)
    ensures StrictlyIncreasing(s[..i] + s[i + 1..], key)
  {
    var r := s[..i] + s[i + 1..];
    forall a, b | 0 <= a < b < |r| ensures key(r[a]) < key(r[b]) {
      assert r[a] == if a < i then s[a] else s[a + 1];
      assert r[b] == if b < i then s[b] else s[b + 1];
    }
  }

  lemma MultisetSplit<T>(a: multiset<T>, b: multiset<T>, c: multiset<T>)
    requires a == b + c
    ensures a - b == c && b <= a
  {
  }

  lemma MultisetCancel<T>(a: multiset<T>, b: multiset<T>, c: multiset<T>, d: multiset<T>)
    requires a == b - c && b == c + d
    ensures a == d && a + c == b
  {
  }

  /** If `ws` plus one `v` fits in `a`, then `v` is left in `a - ws`, and removing both in turn is removing their sum. */
  lemma MultisetRemaining<T>(a: multiset<T>, ws: multiset<T>, v: T)
    requires ws + multiset{v} <= a
    ensures ws <= a && v in a - ws
    ensures a - ws - multiset{v} == a - (ws + multiset{v})
  {
    assert (ws + multiset{v})[v] == ws[v] + 1;
  }

  lemma LastMultiset<T>(s: seq<T>)
    requires |s| > 0
    ensures multiset(s) == multiset(s[..|s| - 1]) + multiset{s[|s| - 1]}
  {
    assert s == s[..|s| - 1] + [s[|s| - 1]];
  }

  lemma HeadTail<T>(s: seq<T>)
    requires |s| > 0
    ensures multiset(s) == multiset{s[0]} + multiset(s[1..])
  {
    assert s == [s[0]] + s[1..];
  }

  lemma ConsMultiset<T>(h: T, t: seq<T>)
    ensures multiset([h] + t) == multiset{h} + multiset(t)
  {
  }

  lemma InitOfSnoc<T>(s: seq<T>, x: T)
    ensures (s + [x])[..|s|] == s && (s + [x])[|s|] == x
  {
    assert (s + [x])[..|s|] == s;
  }
}
