/**
 * Generic list operations the components build on: JavaScript's `filter`,
 * `reduce`-sums, `slice(0, n)`, `[...new Set(xs)]`, and the id-keyed
 * replace and remove updates that every list state in the application uses.
 */
module Lists {
  import opened Wrappers

  /** `r` is `s` with some elements left out and the rest in their original order. */
  ghost predicate Subsequence<T>(r: seq<T>, s: seq<T>)
    decreases |s|
  {
    r == [] || (s != [] && ((r[0] == s[0] && Subsequence(r[1..], s[1..])) || Subsequence(r, s[1..])))
  }

  lemma {:induction false} SubsequenceOfSelf<T>(s: seq<T>)
    ensures Subsequence(s, s)
  {
    if s != [] {
      SubsequenceOfSelf(s[1..]);
    }
  }

  /** `s.filter(p)`: the elements satisfying `p`, in their original order. */
  function Filter<T>(s: seq<T>, p: T -> bool): (r: seq<T>)
    ensures |r| <= |s|
    ensures multiset(r) <= multiset(s)

    ensures forall x :: x in r ==> x in s && p(x)
    ensures forall x :: x in s && p(x) ==> x in r
    ensures (forall x :: x in s ==> p(x)) ==> r == s
    ensures (forall x :: x in s ==> !p(x)) ==> r == []
    ensures Subsequence(r, s)
  {
    if s == [] then []
    else
      var rest := Filter(s[1..], p);
      assert s == [s[0]] + s[1..];
      if p(s[0]) then
        assert ([s[0]] + rest)[1..] == rest;
        [s[0]] + rest
      else rest
  }

  /** `Filter` keeps every copy of an element satisfying `p` and no copy of any other. */
  lemma {:induction false} FilterMultiplicity<T>(s: seq<T>, p: T -> bool, x: T)
    ensures multiset(Filter(s, p))[x] == if p(x) then multiset(s)[x] else 0
  {
    if s != [] {
      FilterMultiplicity(s[1..], p, x);
      var rest := Filter(s[1..], p);
      assert Filter(s, p) == if p(s[0]) then [s[0]] + rest else rest;
      MultiplicityStep(s, Filter(s, p), rest, p(s[0]), x);
    }
  }

  /** How the count of `x` changes when the head of `s` is kept in front of `rest`, or dropped. */
  lemma MultiplicityStep<T>(s: seq<T>, r: seq<T>, rest: seq<T>, kept: bool, x: T)
    requires s != []
    requires r == if kept then [s[0]] + rest else rest
    ensures multiset(r)[x] == multiset(rest)[x] + (if kept && x == s[0] then 1 else 0)
    ensures multiset(s)[x] == multiset(s[1..])[x] + (if x == s[0] then 1 else 0)
  {
    assert s == [s[0]] + s[1..];
    assert multiset(s) == multiset{s[0]} + multiset(s[1..]);
    if kept {
      assert multiset(r) == multiset{s[0]} + multiset(rest);
    }
  }

  lemma FilterMultiplicities<T>(s: seq<T>, p: T -> bool)
    ensures forall x :: x in s ==> multiset(Filter(s, p))[x] == if p(x) then multiset(s)[x] else 0
  {
    forall x | x in s
      ensures multiset(Filter(s, p))[x] == if p(x) then multiset(s)[x] else 0
    {
      FilterMultiplicity(s, p, x);
    }
  }

  lemma {:induction false} FilterConcat<T>(a: seq<T>, b: seq<T>, p: T -> bool)
    ensures Filter(a + b, p) == Filter(a, p) + Filter(b, p)
  {
    if a == [] {
      assert a + b == b;
    } else {
      assert (a + b)[1..] == a[1..] + b;
      FilterConcat(a[1..], b, p);
    }
  }

  /** Filtering a filtered list by `q` keeps no more than filtering the whole list by `q`. */
  lemma {:induction false} FilterOfFilterShorter<T>(s: seq<T>, p: T -> bool, q: T -> bool)
    ensures |Filter(Filter(s, p), q)| <= |Filter(s, q)|
  {
    if s != [] {
      FilterOfFilterShorter(s[1..], p, q);
      var rest := Filter(s[1..], p);
      if p(s[0]) {
        assert Filter(s, p) == [s[0]] + rest;
        assert ([s[0]] + rest)[1..] == rest;
      }
    }
  }

  /** `s.reduce((sum, x) => sum + f(x), 0)` */
  function Sum<T>(s: seq<T>, f: T -> int): int
  {
    if s == [] then 0 else f(s[0]) + Sum(s[1..], f)
  }

  lemma {:induction false} SumConcat<T>(a: seq<T>, b: seq<T>, f: T -> int)
    ensures Sum(a + b, f) == Sum(a, f) + Sum(b, f)
  {
    if a == [] {
      assert a + b == b;
    } else {
      assert (a + b)[1..] == a[1..] + b;
      SumConcat(a[1..], b, f);
    }
  }

  /** A sum of non-negative terms over a filtered list is at most the sum over the whole list. */
  lemma {:induction false} SumFilterAtMost<T>(s: seq<T>, p: T -> bool, f: T -> int)
    requires forall x :: x in s ==> f(x) >= 0
    ensures Sum(Filter(s, p), f) <= Sum(s, f)
  {
    if s != [] {
      SumFilterAtMost(s[1..], p, f);
      if p(s[0]) {
        var rest := Filter(s[1..], p);
        assert ([s[0]] + rest)[1..] == rest;
      }
    }
  }

  /** `s.slice(0, n)`, with JavaScript's reading of a negative end as counted from the back. */
  function SlicePrefix<T>(s: seq<T>, n: int): (r: seq<T>)
    ensures 0 <= n <= |s| ==> r == s[..n]
    ensures n >= |s| ==> r == s
    ensures n < 0 ==> r == s[..if |s| + n > 0 then |s| + n else 0]
  {
    if n >= |s| then s
    else if n >= 0 then s[..n]
    else if |s| + n > 0 then s[..|s| + n]
    else []
  }

  ghost predicate NoDup<T>(s: seq<T>)
  {
    forall i, j :: 0 <= i < j < |s| ==> s[i] != s[j]
  }

  /** The index of the first occurrence of `x` in `s`. */
  function FirstIndex<T(==)>(s: seq<T>, x: T): (i: nat)
    requires x in s
    ensures i < |s| && s[i] == x
    ensures forall j :: 0 <= j < i ==> s[j] != x
  {
    if s[0] == x then 0 else 1 + FirstIndex(s[1..], x)
  }

  /** The elements of `r` appear in the order of their first occurrences in `s`. */
  ghost predicate InFirstOccurrenceOrder<T>(r: seq<T>, s: seq<T>)
  {
    forall i, j :: 0 <= i < j < |r| && r[i] in s && r[j] in s ==> FirstIndex(s, r[i]) < FirstIndex(s, r[j])
  }

  /** `[...new Set(s)]` for the elements not in `seen`: first occurrences, in order. */
  function DistinctExcept<T(==)>(s: seq<T>, seen: set<T>): (r: seq<T>)
    ensures NoDup(r)
    ensures forall x :: x in r ==> x in s && x !in seen
    ensures forall x :: x in s && x !in seen ==> x in r
    ensures Subsequence(r, s)
  {
    if s == [] then []
    else if s[0] in seen then DistinctExcept(s[1..], seen)
    else
      var rest := DistinctExcept(s[1..], seen + {s[0]});
      assert ([s[0]] + rest)[1..] == rest;
      [s[0]] + rest
  }

  lemma {:induction false} DistinctExceptInOrder<T>(s: seq<T>, seen: set<T>)
    ensures InFirstOccurrenceOrder(DistinctExcept(s, seen), s)
  {
    if s != [] {
      if s[0] in seen {
        var rest := DistinctExcept(s[1..], seen);
        DistinctExceptInOrder(s[1..], seen);
        InOrderPastHead(s, rest);
        assert DistinctExcept(s, seen) == rest;
      } else {
        var rest := DistinctExcept(s[1..], seen + {s[0]});
        DistinctExceptInOrder(s[1..], seen + {s[0]});
        InOrderPastHead(s, rest);
        InOrderWithHead(s, rest);
        assert DistinctExcept(s, seen) == [s[0]] + rest;
      }
    }
  }

  /** Elements ordered by their first occurrences after the head, and other than it, are ordered in the whole list. */
  lemma InOrderPastHead<T>(s: seq<T>, r: seq<T>)
    requires s != [] && InFirstOccurrenceOrder(r, s[1..])
    requires forall x :: x in r ==> x in s[1..] && x != s[0]
    ensures InFirstOccurrenceOrder(r, s)
  {
    forall i, j | 0 <= i < j < |r| && r[i] in s && r[j] in s
      ensures FirstIndex(s, r[i]) < FirstIndex(s, r[j])
    {
      assert r[i] in r && r[j] in r;
    }
  }

  /** The head of the list goes before every element that occurs first later. */
  lemma InOrderWithHead<T>(s: seq<T>, r: seq<T>)
    requires s != [] && InFirstOccurrenceOrder(r, s)
    requires forall x :: x in r ==> x in s && x != s[0]
    ensures InFirstOccurrenceOrder([s[0]] + r, s)
  {
    var r' := [s[0]] + r;
    forall i, j | 0 <= i < j < |r'| && r'[i] in s && r'[j] in s
      ensures FirstIndex(s, r'[i]) < FirstIndex(s, r'[j])
    {
      assert r'[j] == r[j - 1] && r[j - 1] in r;
      if i > 0 {
        assert r'[i] == r[i - 1];
      }
    }
  }

  /** `[...new Set(s)]`: each element once, in the order of its first occurrence. */
  function Distinct<T(==)>(s: seq<T>): (r: seq<T>)
    ensures NoDup(r)
    ensures forall x :: x in r ==> x in s
    ensures forall x :: x in s ==> x in r
    ensures Subsequence(r, s)
    ensures InFirstOccurrenceOrder(r, s)
  {
    DistinctExceptInOrder(s, {});
    DistinctExcept(s, {})
  }

  /** Filtering keeps the relative order of first occurrences. */
  lemma {:induction false} FilterKeepsFirstOrder<T>(s: seq<T>, p: T -> bool, x: T, y: T)
    requires x in Filter(s, p) && y in Filter(s, p)
    requires FirstIndex(Filter(s, p), x) < FirstIndex(Filter(s, p), y)
    ensures x in s && y in s && FirstIndex(s, x) < FirstIndex(s, y)
  {
    var f := Filter(s, p);
    if p(s[0]) {
      assert f == [s[0]] + Filter(s[1..], p);
      if x != s[0] {
        FilterKeepsFirstOrder(s[1..], p, x, y);
      }
    } else {
      FilterKeepsFirstOrder(s[1..], p, x, y);
    }
  }

  lemma FilterInOrder<T>(r: seq<T>, s: seq<T>, p: T -> bool)
    requires InFirstOccurrenceOrder(r, Filter(s, p))
    requires forall x :: x in r ==> x in Filter(s, p)
    ensures InFirstOccurrenceOrder(r, s)
  {
    forall i, j | 0 <= i < j < |r| && r[i] in s && r[j] in s
      ensures FirstIndex(s, r[i]) < FirstIndex(s, r[j])
    {
      assert r[i] in r && r[j] in r;
      FilterKeepsFirstOrder(s, p, r[i], r[j]);
    }
  }

  lemma {:induction false} NoDupCardinality<T>(s: seq<T>)
    requires NoDup(s)
    ensures |set x | x in s| == |s|
  {
    if s != [] {
      NoDupCardinality(s[1..]);
      assert (set x | x in s) == {s[0]} + (set x | x in s[1..]);
      forall j | 0 <= j < |s[1..]| ensures s[1..][j] != s[0] {
        assert s[1..][j] == s[j + 1];
      }
    }
  }

  /** `new Set(a).size <= new Set(b).size` whenever every element of `a` occurs in `b`. */
  lemma DistinctCountMonotone<T>(a: seq<T>, b: seq<T>)
    requires forall x :: x in a ==> x in b
    ensures |Distinct(a)| <= |Distinct(b)|
  {
    NoDupCardinality(Distinct(a));
    NoDupCardinality(Distinct(b));
    SubsetCardinality(set x | x in Distinct(a), set x | x in Distinct(b));
  }

  lemma {:induction false} SubsetCardinality<T>(a: set<T>, b: set<T>)
    requires a <= b
    ensures |a| <= |b|
  {
    if a != {} {
      var x :| x in a;
      SubsetCardinality(a - {x}, b - {x});
    }
  }

  /** `s.map(e => key(e) === k ? x : e)` */
  function ReplaceKey<T, K(==)>(s: seq<T>, key: T -> K, k: K, x: T): (r: seq<T>)
    ensures |r| == |s|
    ensures forall i :: 0 <= i < |s| && key(s[i]) == k ==> r[i] == x
    ensures forall i :: 0 <= i < |s| && key(s[i]) != k ==> r[i] == s[i]
  {
    if s == [] then []
    else [if key(s[0]) == k then x else s[0]] + ReplaceKey(s[1..], key, k, x)
  }

  /** `s.filter(e => key(e) !== k)` */
  function RemoveKey<T, K(==)>(s: seq<T>, key: T -> K, k: K): (r: seq<T>)
    ensures |r| <= |s|

    ensures forall x :: x in r ==> x in s && key(x) != k
    ensures forall x :: x in s && key(x) != k ==> x in r
    ensures Subsequence(r, s)
  {
    if s == [] then []
    else
      var rest := RemoveKey(s[1..], key, k);
      assert s == [s[0]] + s[1..];
      if key(s[0]) != k then
        assert ([s[0]] + rest)[1..] == rest;
        [s[0]] + rest
      else rest
  }

  /** `s.filter(e => key(e) === k)` */
  function SelectKey<T, K(==)>(s: seq<T>, key: T -> K, k: K): (r: seq<T>)
    ensures |r| <= |s|

    ensures forall x :: x in r ==> x in s && key(x) == k
    ensures forall x :: x in s && key(x) == k ==> x in r
    ensures Subsequence(r, s)
  {
    if s == [] then []
    else
      var rest := SelectKey(s[1..], key, k);
      assert s == [s[0]] + s[1..];
      if key(s[0]) == k then
        assert ([s[0]] + rest)[1..] == rest;
        [s[0]] + rest
      else rest
  }

  /** `RemoveKey` keeps every copy of an element with another key and no copy of one with key `k`. */
  lemma {:induction false} RemoveKeyMultiplicity<T, K>(s: seq<T>, key: T -> K, k: K, x: T)
    ensures multiset(RemoveKey(s, key, k))[x] == if key(x) != k then multiset(s)[x] else 0
  {
    if s != [] {
      RemoveKeyMultiplicity(s[1..], key, k, x);
      var rest := RemoveKey(s[1..], key, k);
      assert RemoveKey(s, key, k) == if key(s[0]) != k then [s[0]] + rest else rest;
      MultiplicityStep(s, RemoveKey(s, key, k), rest, key(s[0]) != k, x);
    }
  }

  /** `SelectKey` keeps every copy of an element with key `k` and no copy of any other. */
  lemma {:induction false} SelectKeyMultiplicity<T, K>(s: seq<T>, key: T -> K, k: K, x: T)
    ensures multiset(SelectKey(s, key, k))[x] == if key(x) == k then multiset(s)[x] else 0
  {
    if s != [] {
      SelectKeyMultiplicity(s[1..], key, k, x);
      var rest := SelectKey(s[1..], key, k);
      assert SelectKey(s, key, k) == if key(s[0]) == k then [s[0]] + rest else rest;
      MultiplicityStep(s, SelectKey(s, key, k), rest, key(s[0]) == k, x);
    }
  }

  lemma {:induction false} SelectKeySnoc<T, K>(s: seq<T>, key: T -> K, k: K, x: T)
    ensures SelectKey(s + [x], key, k) == SelectKey(s, key, k) + (if key(x) == k then [x] else [])
  {
    if s == [] {
      assert [] + [x] == [x];
      assert [x][1..] == [];
    } else {
      assert (s + [x])[1..] == s[1..] + [x];
      SelectKeySnoc(s[1..], key, k, x);
    }
  }

  lemma {:induction false} RemoveKeySnoc<T, K>(s: seq<T>, key: T -> K, k: K, x: T)
    ensures RemoveKey(s + [x], key, k) == RemoveKey(s, key, k) + (if key(x) != k then [x] else [])
  {
    if s == [] {
      assert [] + [x] == [x];
      assert [x][1..] == [];
    } else {
      assert (s + [x])[1..] == s[1..] + [x];
      RemoveKeySnoc(s[1..], key, k, x);
    }
  }

  lemma {:induction false} ReplaceUnknownKey<T, K>(s: seq<T>, key: T -> K, k: K, x: T)
    requires forall e :: e in s ==> key(e) != k
    ensures ReplaceKey(s, key, k, x) == s
  {
    if s != [] {
      ReplaceUnknownKey(s[1..], key, k, x);
    }
  }

  lemma {:induction false} RemoveUnknownKey<T, K>(s: seq<T>, key: T -> K, k: K)
    requires forall e :: e in s ==> key(e) != k
    ensures RemoveKey(s, key, k) == s
  {
    if s != [] {
      RemoveUnknownKey(s[1..], key, k);
    }
  }

  /** Removing a key erases the effect of replacing the entries with that key by one that has it. */
  lemma {:induction false} RemoveAfterReplace<T, K>(s: seq<T>, key: T -> K, x: T)
    ensures RemoveKey(ReplaceKey(s, key, key(x), x), key, key(x)) == RemoveKey(s, key, key(x))
  {
    if s != [] {
      RemoveAfterReplace(s[1..], key, x);
      assert ReplaceKey(s, key, key(x), x)[1..] == ReplaceKey(s[1..], key, key(x), x);
    }
  }

  /** Sum of the multiplicities in `m` of the keys listed in `keys`. */
  function SumMultiplicities<T>(keys: seq<T>, m: multiset<T>): nat
  {
    if keys == [] then 0 else m[keys[0]] + SumMultiplicities(keys[1..], m)
  }

  lemma {:induction false} SumMultiplicitiesAdd<T>(keys: seq<T>, m: multiset<T>, x: T)
    requires NoDup(keys)
    ensures SumMultiplicities(keys, m + multiset{x}) == SumMultiplicities(keys, m) + (if x in keys then 1 else 0)
  {
    if keys != [] {
      assert NoDup(keys[1..]) by {
        forall i, j | 0 <= i < j < |keys[1..]| ensures keys[1..][i] != keys[1..][j] {
          assert keys[1..][i] == keys[i + 1] && keys[1..][j] == keys[j + 1];
        }
      }
      SumMultiplicitiesAdd(keys[1..], m, x);
      if keys[0] == x {
        forall j | 0 <= j < |keys[1..]| ensures keys[1..][j] != x {
          assert keys[1..][j] == keys[j + 1];
        }
      } else {
        assert x in keys <==> x in keys[1..] by {
          assert keys == [keys[0]] + keys[1..];
        }
      }
    }
  }

  /**
   * Counting each listed key once accounts for every element: when `keys` has no duplicates
   * and covers `xs`, the multiplicities of the keys add up to the length of `xs`.
   */
  lemma {:induction false} MultiplicitiesPartition<T>(xs: seq<T>, keys: seq<T>)
    requires NoDup(keys)
    requires forall x :: x in xs ==> x in keys
    ensures SumMultiplicities(keys, multiset(xs)) == |xs|
  {
    if xs == [] {
      SumMultiplicitiesZero(keys);
    } else {
      var init := xs[..|xs| - 1];
      var last := xs[|xs| - 1];
      assert xs == init + [last];
      assert multiset(xs) == multiset(init) + multiset{last};
      MultiplicitiesPartition(init, keys);
      SumMultiplicitiesAdd(keys, multiset(init), last);
    }
  }

  lemma {:induction false} SumMultiplicitiesZero<T>(keys: seq<T>)
    ensures SumMultiplicities(keys, multiset{}) == 0
  {
    if keys != [] {
      SumMultiplicitiesZero(keys[1..]);
    }
  }

  /** `s.map(key)` */
  /** Taking a prefix and mapping commute: `.slice(0, n).map(f)` is `.map(f).slice(0, n)`. */
  lemma MapKeySlicePrefix<T, K>(s: seq<T>, key: T -> K, n: int)
    ensures SlicePrefix(MapKey(s, key), n) == MapKey(SlicePrefix(s, n), key)
  {
    var m := if n >= |s| then |s| else if n >= 0 then n else if |s| + n > 0 then |s| + n else 0;
    assert SlicePrefix(s, n) == s[..m];
    assert SlicePrefix(MapKey(s, key), n) == MapKey(s, key)[..m];
  }

  function MapKey<T, K>(s: seq<T>, key: T -> K): (r: seq<K>)
    ensures |r| == |s|
    ensures forall i :: 0 <= i < |s| ==> r[i] == key(s[i])
  {
    if s == [] then [] else [key(s[0])] + MapKey(s[1..], key)
  }

  /** The entries selected for a key are exactly as many as that key's occurrences among the mapped keys. */
  lemma {:induction false} SelectKeyCount<T, K>(s: seq<T>, key: T -> K, k: K)
    ensures |SelectKey(s, key, k)| == multiset(MapKey(s, key))[k]
  {
    if s != [] {
      SelectKeyCount(s[1..], key, k);
      assert MapKey(s, key) == [key(s[0])] + MapKey(s[1..], key);
    }
  }

  /** `s.find(e => key(e) === k)`: the first element with key `k`, if any. */
  function FindKey<T, K(==)>(s: seq<T>, key: T -> K, k: K): (r: Option<T>)
    ensures r.Some? ==> exists i :: 0 <= i < |s| && s[i] == r.value && key(s[i]) == k
                                   && forall j :: 0 <= j < i ==> key(s[j]) != k
    ensures r.None? <==> forall i :: 0 <= i < |s| ==> key(s[i]) != k
  {
    if s == [] then None
    else if key(s[0]) == k then Some(s[0])
    else
      var r := FindKey(s[1..], key, k);
      assert r.Some? ==> exists i :: 0 <= i < |s| && s[i] == r.value && key(s[i]) == k
                                   && forall j :: 0 <= j < i ==> key(s[j]) != k by {
        if r.Some? {
          var i :| 0 <= i < |s[1..]| && s[1..][i] == r.value && key(s[1..][i]) == k
                   && forall j :: 0 <= j < i ==> key(s[1..][j]) != k;
          assert forall j :: 0 <= j < i + 1 ==> key(s[j]) != k by {
            forall j | 0 <= j < i + 1 ensures key(s[j]) != k {
              if j > 0 { assert s[j] == s[1..][j - 1]; }
            }
          }
        }
      }
      r
  }

  /** The groups `SelectKey(s, key, k)` for the keys in `keys`, concatenated in that order. */
  function FlattenGroups<T, K(==)>(s: seq<T>, key: T -> K, keys: seq<K>): (r: seq<T>)
    ensures forall x :: x in r ==> x in s && key(x) in keys
  {
    if keys == [] then [] else SelectKey(s, key, keys[0]) + FlattenGroups(s, key, keys[1..])
  }

  lemma {:induction false} FlattenGroupsSnoc<T, K>(s: seq<T>, key: T -> K, keys: seq<K>, x: T)
    requires NoDup(keys)
    ensures multiset(FlattenGroups(s + [x], key, keys))
         == multiset(FlattenGroups(s, key, keys)) + (if key(x) in keys then multiset{x} else multiset{})
  {
    if keys != [] {
      var tail := keys[1..];
      NoDupTail(keys);
      FlattenGroupsSnoc(s, key, tail, x);
      SelectKeySnoc(s, key, keys[0], x);
      assert key(x) in keys <==> key(x) == keys[0] || key(x) in tail by {
        assert keys == [keys[0]] + tail;
      }
      SnocIntoOneOfTwo(SelectKey(s, key, keys[0]), FlattenGroups(s, key, tail),
                       SelectKey(s + [x], key, keys[0]), FlattenGroups(s + [x], key, tail),
                       x, key(x) == keys[0], key(x) in tail);
    }
  }

  /** `x` joins at most one of two parts, so their concatenation gains `x` once or not at all. */
  lemma SnocIntoOneOfTwo<T>(a: seq<T>, b: seq<T>, a': seq<T>, b': seq<T>, x: T, inA: bool, inB: bool)
    requires a' == a + (if inA then [x] else [])
    requires multiset(b') == multiset(b) + (if inB then multiset{x} else multiset{})
    requires !(inA && inB)
    ensures multiset(a' + b') == multiset(a + b) + (if inA || inB then multiset{x} else multiset{})
  {
  }

  /** The tail of a duplicate-free list is duplicate-free and does not hold its head. */
  lemma NoDupTail<T>(s: seq<T>)
    requires NoDup(s) && s != []
    ensures NoDup(s[1..]) && s[0] !in s[1..]
  {
    forall i, j | 0 <= i < j < |s| - 1 ensures s[1..][i] != s[1..][j] {
      assert s[1..][i] == s[i + 1] && s[1..][j] == s[j + 1];
    }
    forall j | 0 <= j < |s| - 1 ensures s[1..][j] != s[0] {
      assert s[1..][j] == s[j + 1];
    }
  }

  /**
   * Grouping by key partitions the list: when the keys are distinct and cover every
   * element's key, the concatenated groups hold every element exactly as often as `s` does.
   */
  lemma {:induction false} GroupsPartition<T, K>(s: seq<T>, key: T -> K, keys: seq<K>)
    requires NoDup(keys)
    requires forall x :: x in s ==> key(x) in keys
    ensures multiset(FlattenGroups(s, key, keys)) == multiset(s)
    ensures |FlattenGroups(s, key, keys)| == |s|
  {
    if s == [] {
      FlattenEmpty(key, keys);
    } else {
      var init := s[..|s| - 1];
      var last := s[|s| - 1];
      assert s == init + [last];
      GroupsPartition(init, key, keys);
      FlattenGroupsSnoc(init, key, keys, last);
    }
    assert |multiset(FlattenGroups(s, key, keys))| == |FlattenGroups(s, key, keys)|;
  }

  lemma {:induction false} FlattenEmpty<T, K>(key: T -> K, keys: seq<K>)
    ensures FlattenGroups([], key, keys) == []
  {
    if keys != [] {
      FlattenEmpty(key, keys[1..]);
    }
  }

  lemma RemoveAtMultiset<T>(t: seq<T>, k: nat)
    requires k < |t|
    ensures multiset(t[..k] + t[k + 1..]) == multiset(t) - multiset{t[k]}
  {
    assert t == t[..k] + [t[k]] + t[k + 1..];
    assert multiset(t) == multiset(t[..k]) + multiset{t[k]} + multiset(t[k + 1..]);
  }

  lemma FilterRemoveAt<T>(t: seq<T>, k: nat, p: T -> bool)
    requires k < |t|
    ensures |Filter(t, p)| == |Filter(t[..k] + t[k + 1..], p)| + (if p(t[k]) then 1 else 0)
  {
    assert t == t[..k] + [t[k]] + t[k + 1..];
    FilterConcat(t[..k] + [t[k]], t[k + 1..], p);
    FilterConcat(t[..k], [t[k]], p);
    FilterConcat(t[..k], t[k + 1..], p);
    assert [t[k]][1..] == [];
  }

  /** Filtering two arrangements of the same elements keeps the same number of them. */
  lemma {:induction false} FilterCountPermutation<T>(s: seq<T>, t: seq<T>, p: T -> bool)
    requires multiset(s) == multiset(t)
    ensures |Filter(s, p)| == |Filter(t, p)|
    decreases |s|
  {
    if s != [] {
      assert s[0] in multiset(t);
      var k :| 0 <= k < |t| && t[k] == s[0];
      var rest := t[..k] + t[k + 1..];
      assert s == [s[0]] + s[1..];
      assert multiset(s[1..]) == multiset(s) - multiset{s[0]};
      RemoveAtMultiset(t, k);
      FilterCountPermutation(s[1..], rest, p);
      FilterRemoveAt(t, k, p);
    }
  }
}
