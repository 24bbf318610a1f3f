/** Generic list facts: concatenation of a list of lists, first-occurrence de-duplication. */
module Seqs {
  import opened Wrappers

  function Flatten<T>(xss: seq<seq<T>>): (r: seq<T>)
    ensures xss == [] ==> r == []
  {
    if xss == [] then [] else xss[0] + Flatten(xss[1..])
  }

  lemma {:induction false} FlattenAppend<T>(xss: seq<seq<T>>, xs: seq<T>)
    ensures Flatten(xss + [xs]) == Flatten(xss) + xs
  {
    if xss == [] {
      assert [xs][1..] == [];
    } else {
      assert (xss + [xs])[1..] == xss[1..] + [xs];
      FlattenAppend(xss[1..], xs);
    }
  }

  /** An element of the concatenation is an element of one of the lists. */
  lemma {:induction false} FlattenMembers<T>(xss: seq<seq<T>>)
    ensures forall x :: x in Flatten(xss) ==> exists k :: 0 <= k < |xss| && x in xss[k]
  {
    if xss != [] {
      FlattenMembers(xss[1..]);
      forall x | x in Flatten(xss) ensures exists k :: 0 <= k < |xss| && x in xss[k] {
        if x !in xss[0] {
          assert x in Flatten(xss[1..]);
          var k :| 0 <= k < |xss[1..]| && x in xss[1..][k];
          assert x in xss[k + 1];
        }
      }
    }
  }

  lemma TakeOneMore<T>(s: seq<T>, i: nat)
    requires i < |s|
    ensures s[..i + 1] == s[..i] + [s[i]]
  {
  }

  /** The elements before index `k`, the `k`-th element and the rest. */
  lemma {:induction false} FlattenSplit<T>(xss: seq<seq<T>>, k: nat)
    requires k < |xss|
    ensures Flatten(xss) == Flatten(xss[..k]) + xss[k] + Flatten(xss[k + 1..])
  {
    if k > 0 {
      FlattenSplit(xss[1..], k - 1);
      assert xss[1..][..k - 1] == xss[1..k] && xss[1..][k - 1] == xss[k] && xss[1..][k..] == xss[k + 1..];
      assert xss[..k][0] == xss[0] && xss[..k][1..] == xss[1..k];
    } else {
      assert xss[..0] == [] && xss[1..] == xss[k + 1..];
    }
  }

  /** `r` can be obtained from `s` by deleting elements. */
  predicate IsSubsequence<T(==)>(r: seq<T>, s: seq<T>)
  {
    if r == [] then true
    else if s == [] then false
    else if r[0] == s[0] then IsSubsequence(r[1..], s[1..])
    else IsSubsequence(r, s[1..])
  }

  /** The first element of `s` whose key is `k`, if any. */
  function FirstWithKey<T, K(==)>(s: seq<T>, key: T -> K, k: K): (r: Option<T>)
    ensures r.Some? ==> r.value in s && key(r.value) == k
    ensures r.None? ==> forall x :: x in s ==> key(x) != k
  {
    if s == [] then None
    else if key(s[0]) == k then Some(s[0])
    else FirstWithKey(s[1..], key, k)
  }

  /** The index of the first element of `s` whose key is `k`, or `|s|` when there is none. */
  function FirstIndex<T, K(==)>(s: seq<T>, key: T -> K, k: K): (r: nat)
    ensures r <= |s| && (r < |s| ==> key(s[r]) == k)
  {
    if s == [] then 0
    else if key(s[0]) == k then 0
    else 1 + FirstIndex(s[1..], key, k)
  }

  /** The keys of `s`, in order. */
  function Keys<T, K>(s: seq<T>, key: T -> K): (r: seq<K>)
    ensures |r| == |s|
    ensures forall i :: 0 <= i < |s| ==> r[i] == key(s[i])
  {
    seq(|s|, i requires 0 <= i < |s| => key(s[i]))
  }

  /** All elements of `s` have pairwise distinct keys. */
  predicate DistinctKeys<T, K(==)>(s: seq<T>, key: T -> K)
  {
    forall i, j :: 0 <= i < j < |s| ==> key(s[i]) != key(s[j])
  }

  /**
   * Walk `items` once, keeping an element when its key has not been seen yet:
   * the order-preserving de-duplication of a Python loop over a `set` of seen keys.
   */
  function UniqBy<T, K(==)>(items: seq<T>, key: T -> K, seen: set<K>): seq<T>
  {
    if items == [] then []
    else if key(items[0]) in seen then UniqBy(items[1..], key, seen)
    else [items[0]] + UniqBy(items[1..], key, seen + {key(items[0])})
  }

  lemma {:induction false} UniqByIsSubsequence<T, K>(items: seq<T>, key: T -> K, seen: set<K>)
    ensures IsSubsequence(UniqBy(items, key, seen), items)
  {
    if items != [] {
      UniqByIsSubsequence(items[1..], key, seen + {key(items[0])});
      UniqByIsSubsequence(items[1..], key, seen);
      if key(items[0]) in seen {
        SubsequenceOfTail(UniqBy(items, key, seen), items);
      }
    }
  }

  lemma {:induction false} SubsequenceOfTail<T>(r: seq<T>, s: seq<T>)
    requires s != [] && IsSubsequence(r, s[1..])
    ensures IsSubsequence(r, s)
    decreases |s|, 0
  {
    if r != [] && r[0] == s[0] {
      SubsequenceDropHead(r, s[1..]);
    }
  }

  lemma {:induction false} SubsequenceDropHead<T>(r: seq<T>, t: seq<T>)
    requires r != [] && IsSubsequence(r, t)
    ensures IsSubsequence(r[1..], t)
    decreases |t|, 1
  {
    if r[0] == t[0] {
      SubsequenceOfTail(r[1..], t);
    } else {
      SubsequenceDropHead(r, t[1..]);
      SubsequenceOfTail(r[1..], t);
    }
  }

  lemma {:induction false} SubsequenceOfSuffix<T>(r: seq<T>, s: seq<T>, n: nat)
    requires n <= |s| && IsSubsequence(r, s[n..])
    ensures IsSubsequence(r, s)
    decreases n
  {
    if n > 0 {
      assert s[1..][n - 1..] == s[n..];
      SubsequenceOfSuffix(r, s[1..], n - 1);
      SubsequenceOfTail(r, s);
    }
  }

  /** A subsequence is never longer than the sequence it comes from. */
  lemma {:induction false} SubsequenceLength<T>(r: seq<T>, s: seq<T>)
    requires IsSubsequence(r, s)
    ensures |r| <= |s|
    decreases |s|
  {
    if r != [] {
      if r[0] == s[0] {
        SubsequenceLength(r[1..], s[1..]);
      } else {
        SubsequenceLength(r, s[1..]);
      }
    }
  }

  /** Kept elements come from `items` and carry keys not seen before the walk. */
  lemma {:induction false} UniqByMembers<T, K>(items: seq<T>, key: T -> K, seen: set<K>)
    ensures forall y :: y in UniqBy(items, key, seen) ==> y in items && key(y) !in seen
  {
    if items != [] {
      UniqByMembers(items[1..], key, seen);
      UniqByMembers(items[1..], key, seen + {key(items[0])});
    }
  }

  /** No two kept elements share a key. */
  lemma {:induction false} UniqByDistinct<T, K>(items: seq<T>, key: T -> K, seen: set<K>)
    ensures DistinctKeys(UniqBy(items, key, seen), key)
  {
    if items != [] && key(items[0]) !in seen {
      var x := items[0];
      var rest := UniqBy(items[1..], key, seen + {key(x)});
      UniqByDistinct(items[1..], key, seen + {key(x)});
      UniqByMembers(items[1..], key, seen + {key(x)});
      var r := [x] + rest;
      forall i, j | 0 <= i < j < |r| ensures key(r[i]) != key(r[j]) {
        assert r[j] == rest[j - 1];
        if i > 0 {
          assert r[i] == rest[i - 1];
        } else {
          assert r[j] in rest;
        }
      }
    } else if items != [] {
      UniqByDistinct(items[1..], key, seen);
    }
  }

  /** Every key in `items` is either already seen or represented by a kept element. */
  lemma {:induction false} UniqByCovers<T, K>(items: seq<T>, key: T -> K, seen: set<K>)
    ensures forall x :: x in items ==> key(x) in seen || exists y :: y in UniqBy(items, key, seen) && key(y) == key(x)
  {
    if items != [] {
      var x0 := items[0];
      UniqByCovers(items[1..], key, seen);
      UniqByCovers(items[1..], key, seen + {key(x0)});
      forall x | x in items && key(x) !in seen
        ensures exists y :: y in UniqBy(items, key, seen) && key(y) == key(x)
      {
        if key(x0) !in seen {
          var r := UniqBy(items, key, seen);
          assert x0 in r;
          if key(x) != key(x0) {
            assert x in items[1..];
            var y :| y in UniqBy(items[1..], key, seen + {key(x0)}) && key(y) == key(x);
            assert y in r;
          }
        } else {
          assert x in items[1..];
        }
      }
    }
  }

  /** Each kept element is the first one in `items` with its key. */
  lemma {:induction false} UniqByKeepsFirst<T, K>(items: seq<T>, key: T -> K, seen: set<K>)
    ensures forall y :: y in UniqBy(items, key, seen) ==> FirstWithKey(items, key, key(y)) == Some(y)
  {
    if items != [] {
      var x := items[0];
      var tail := items[1..];
      UniqByKeepsFirst(tail, key, seen);
      UniqByKeepsFirst(tail, key, seen + {key(x)});
      UniqByMembers(tail, key, seen + {key(x)});
      UniqByMembers(tail, key, seen);
      forall y | y in UniqBy(items, key, seen) ensures FirstWithKey(items, key, key(y)) == Some(y) {
        if key(x) in seen {
          assert y in UniqBy(tail, key, seen);
        } else if y != x {
          assert y in UniqBy(tail, key, seen + {key(x)});
        }
      }
    }
  }

  /** The elements of `r` come in the order in which their keys first occur in `items`. */
  predicate InFirstOrder<T, K(==)>(r: seq<T>, items: seq<T>, key: T -> K)
  {
    forall i, j :: 0 <= i < j < |r| ==> FirstIndex(items, key, key(r[i])) < FirstIndex(items, key, key(r[j]))
  }

  /**
   * The kept elements come in the order in which their keys first occur in `items`:
   * with `UniqByKeepsFirst`, the output is the first element of each new key, in input order.
   */
  lemma {:induction false} UniqByOrder<T, K>(items: seq<T>, key: T -> K, seen: set<K>)
    ensures InFirstOrder(UniqBy(items, key, seen), items, key)
  {
    if items != [] {
      var x, tail := items[0], items[1..];
      var next := if key(x) in seen then seen else seen + {key(x)};
      var rest := UniqBy(tail, key, next);
      UniqByOrder(tail, key, next);
      UniqByMembers(tail, key, next);
      forall y | y in rest ensures FirstIndex(items, key, key(y)) == 1 + FirstIndex(tail, key, key(y)) {
        assert key(y) != key(x);
      }
      if key(x) in seen {
        assert UniqBy(items, key, seen) == rest;
        forall i, j | 0 <= i < j < |rest| ensures FirstIndex(items, key, key(rest[i])) < FirstIndex(items, key, key(rest[j])) {
          assert rest[i] in rest && rest[j] in rest;
        }
      } else {
        var r := [x] + rest;
        assert UniqBy(items, key, seen) == r;
        forall i, j | 0 <= i < j < |r| ensures FirstIndex(items, key, key(r[i])) < FirstIndex(items, key, key(r[j])) {
          assert r[j] == rest[j - 1] && r[j] in rest;
          if i > 0 {
            assert r[i] == rest[i - 1] && r[i] in rest;
          } else {
            assert FirstIndex(items, key, key(r[i])) == 0;
          }
        }
      }
    }
  }

  /** The identity: the key of a sequence whose elements are their own keys. */
  function Id<K>(x: K): K
  {
    x
  }

  /** Looking a key up among the keys of `s` finds the same position as looking it up in `s`. */
  lemma {:induction false} FirstIndexOfKeys<T, K>(s: seq<T>, key: T -> K, k: K)
    ensures FirstIndex(Keys(s, key), Id, k) == FirstIndex(s, key, k)
  {
    if s != [] {
      assert Keys(s, key)[1..] == Keys(s[1..], key);
      FirstIndexOfKeys(s[1..], key, k);
    }
  }
}
