/** Sequence helpers shared by the list rewrites and the aggregations: the model of
    JavaScript's `filter`, of de-duplication through a `Set`, of summing and of
    `Math.max` over a list. */
module Seqs {

  /** The elements of `s` that satisfy `p`, in their original order (`Array.prototype.filter`). */
  function Filter<T>(p: T -> bool, s: seq<T>): (r: seq<T>)
    ensures |r| <= |s|
    ensures forall i | 0 <= i < |r| :: p(r[i])
  {
    if s == [] then []
    else Filter(p, s[..|s| - 1]) + (if p(s[|s| - 1]) then [s[|s| - 1]] else [])
  }

  /** The filter keeps exactly the elements that pass. */
  lemma {:induction false} FilterMembers<T>(p: T -> bool, s: seq<T>)
    ensures forall x | x in Filter(p, s) :: x in s && p(x)
    ensures forall x | x in s && p(x) :: x in Filter(p, s)
  {
    if s != [] {
      var s', y := s[..|s| - 1], s[|s| - 1];
      FilterMembers(p, s');
      assert s == s' + [y];
    }
  }

  /** The filter keeps every copy of a passing element and no copy of any other. */
  lemma {:induction false} FilterCount<T>(p: T -> bool, s: seq<T>)
    ensures forall x :: multiset(Filter(p, s))[x] == if p(x) then multiset(s)[x] else 0
  {
    if s != [] {
      var s', y := s[..|s| - 1], s[|s| - 1];
      FilterCount(p, s');
      assert s == s' + [y];
      assert multiset(s) == multiset(s') + multiset{y};
      assert multiset(Filter(p, s)) == multiset(Filter(p, s')) + multiset(if p(y) then [y] else []);
    }
  }

  lemma FilterSnoc<T>(p: T -> bool, s: seq<T>, x: T)
    ensures Filter(p, s + [x]) == Filter(p, s) + (if p(x) then [x] else [])
  {
    assert (s + [x])[..|s|] == s;
  }

  lemma FilterPrefix<T>(p: T -> bool, s: seq<T>, i: nat)
    requires i < |s|
    ensures Filter(p, s[..i + 1]) == Filter(p, s[..i]) + (if p(s[i]) then [s[i]] else [])
  {
    assert s[..i + 1] == s[..i] + [s[i]];
    FilterSnoc(p, s[..i], s[i]);
  }

  lemma {:induction false} FilterConcat<T>(p: T -> bool, a: seq<T>, b: seq<T>)
    ensures Filter(p, a + b) == Filter(p, a) + Filter(p, b)
    decreases |b|
  {
    if b == [] {
      assert a + b == a;
    } else {
      var b', y := b[..|b| - 1], b[|b| - 1];
      assert b == b' + [y];
      assert a + b == (a + b') + [y];
      FilterSnoc(p, a + b', y);
      FilterConcat(p, a, b');
      FilterSnoc(p, b', y);
    }
  }

  lemma FilterSplit<T>(p: T -> bool, s: seq<T>, i: nat)
    requires i <= |s|
    ensures Filter(p, s) == Filter(p, s[..i]) + Filter(p, s[i..])
  {
    assert s == s[..i] + s[i..];
    FilterConcat(p, s[..i], s[i..]);
  }

  /** A filter keeps nothing when no element passes. */
  lemma {:induction false} FilterNone<T>(p: T -> bool, s: seq<T>)
    requires forall i | 0 <= i < |s| :: !p(s[i])
    ensures Filter(p, s) == []
  {
    if s != [] {
      FilterNone(p, s[..|s| - 1]);
    }
  }

  /** A filter keeps everything when every element passes. */
  lemma {:induction false} FilterAll<T>(p: T -> bool, s: seq<T>)
    requires forall x | x in s :: p(x)
    ensures Filter(p, s) == s
  {
    if s != [] {
      FilterAll(p, s[..|s| - 1]);
      assert s == s[..|s| - 1] + [s[|s| - 1]];
    }
  }

  /** Filtering by a weaker predicate keeps at least as many elements. */
  lemma {:induction false} FilterMono<T>(p: T -> bool, q: T -> bool, s: seq<T>)
    requires forall x | x in s :: p(x) ==> q(x)
    ensures |Filter(p, s)| <= |Filter(q, s)|
  {
    if s != [] {
      FilterMono(p, q, s[..|s| - 1]);
    }
  }

  function Not<T>(p: T -> bool): T -> bool { x => !p(x) }

  /** Every element is kept by exactly one of `p` and its negation. */
  lemma {:induction false} FilterComplement<T>(p: T -> bool, s: seq<T>)
    ensures |Filter(p, s)| + |Filter(Not(p), s)| == |s|
  {
    if s != [] {
      FilterComplement(p, s[..|s| - 1]);
    }
  }

  /** `Array.prototype.map`. */
  function Map<T, U>(f: T -> U, s: seq<T>): (r: seq<U>)
    ensures |r| == |s| && forall i | 0 <= i < |s| :: r[i] == f(s[i])
  {
    seq(|s|, i requires 0 <= i < |s| => f(s[i]))
  }

  /** The function value that tests whether `f` maps an element to `k`. */
  function KeyIs<T, K(==)>(f: T -> K, k: K): T -> bool { x => f(x) == k }

  /** How many elements of `s` have each key under `f`. */
  function CountsOf<T, K(==)>(f: T -> K, s: seq<T>): K -> nat { k => |Filter(KeyIs(f, k), s)| }

  predicate Distinct<T(==)>(s: seq<T>) {
    forall i, j | 0 <= i < j < |s| :: s[i] != s[j]
  }

  lemma DistinctSnoc<T>(s: seq<T>, x: T)
    requires Distinct(s) && x !in s
    ensures Distinct(s + [x])
  {
  }

  /** A sequence is duplicate-free exactly when no element occurs twice in its multiset. */
  lemma {:induction false} DistinctMultiset<T>(s: seq<T>)
    ensures Distinct(s) <==> forall x | x in s :: multiset(s)[x] == 1
  {
    if s != [] {
      var s', y := s[..|s| - 1], s[|s| - 1];
      assert s == s' + [y];
      DistinctMultiset(s');
      if Distinct(s) {
        forall i | 0 <= i < |s'| ensures s'[i] != y {
          assert s[i] == s'[i];
        }
        forall x | x in s ensures multiset(s)[x] == 1 {
          assert multiset(s)[x] == multiset(s')[x] + (if x == y then 1 else 0);
        }
      } else {
        var i, j :| 0 <= i < j < |s| && s[i] == s[j];
        if j < |s'| {
          assert s'[i] == s'[j];
          var z :| z in s' && multiset(s')[z] != 1;
          assert multiset(s)[z] == multiset(s')[z] + (if z == y then 1 else 0);
        } else {
          assert s'[i] == y;
          assert multiset(s)[y] == multiset(s')[y] + 1;
        }
      }
    }
  }

  /** Reordering keeps a sequence duplicate-free. */
  lemma DistinctPerm<T>(a: seq<T>, b: seq<T>)
    requires multiset(a) == multiset(b) && Distinct(a)
    ensures Distinct(b)
  {
    DistinctMultiset(a);
    forall x | x in b ensures multiset(b)[x] == 1 {
      assert x in multiset(b);
    }
    DistinctMultiset(b);
  }

  /** Index of the first occurrence of `x` in `s`. */
  function IndexOf<T(==)>(s: seq<T>, x: T): (i: nat)
    requires x in s
    ensures i < |s| && s[i] == x && x !in s[..i]
  {
    if s[0] == x then 0 else 1 + IndexOf(s[1..], x)
  }

  lemma {:induction false} IndexOfSnoc<T>(s: seq<T>, x: T, y: T)
    requires y in s
    ensures IndexOf(s + [x], y) == IndexOf(s, y)
  {
    if s[0] != y {
      assert (s + [x])[1..] == s[1..] + [x];
      IndexOfSnoc(s[1..], x, y);
    }
  }

  /** The first occurrence of every element, in the order the first occurrences appear:
      `Array.from(new Set(s))`. */
  function Dedup<T(==)>(s: seq<T>): (r: seq<T>)
    ensures Distinct(r)
    ensures forall x | x in r :: x in s
    ensures forall x | x in s :: x in r
  {
    if s == [] then []
    else
      var d := Dedup(s[..|s| - 1]);
      if s[|s| - 1] in d then d else d + [s[|s| - 1]]
  }

  lemma DedupSnoc<T>(s: seq<T>, x: T)
    ensures Dedup(s + [x]) == if x in Dedup(s) then Dedup(s) else Dedup(s) + [x]
  {
    assert (s + [x])[..|s|] == s;
  }

  /** De-duplication keeps the elements in the order of their first occurrence. */
  lemma {:induction false} DedupFirstOccurrenceOrder<T>(s: seq<T>)
    ensures forall i, j | 0 <= i < j < |Dedup(s)| :: IndexOf(s, Dedup(s)[i]) < IndexOf(s, Dedup(s)[j])
  {
    if s != [] {
      var s', y := s[..|s| - 1], s[|s| - 1];
      assert s == s' + [y];
      DedupFirstOccurrenceOrder(s');
      var d, r := Dedup(s'), Dedup(s);
      forall i, j | 0 <= i < j < |r| ensures IndexOf(s, r[i]) < IndexOf(s, r[j]) {
        assert r[i] in d;
        IndexOfSnoc(s', y, r[i]);
        if j < |d| {
          IndexOfSnoc(s', y, r[j]);
        } else {
          assert r[j] == y && y !in s';
          assert IndexOf(s, y) == |s'|;
        }
      }
    }
  }

  /** De-duplicating a duplicate-free sequence changes nothing. */
  lemma {:induction false} DedupDistinct<T>(s: seq<T>)
    requires Distinct(s)
    ensures Dedup(s) == s
  {
    if s != [] {
      var s', y := s[..|s| - 1], s[|s| - 1];
      assert s == s' + [y];
      forall i | 0 <= i < |s'| ensures s'[i] != y {
        assert s[i] == s'[i];
      }
      DedupDistinct(s');
    }
  }

  /** The elements of `s` whose position is marked in `mask`. */
  function Select<T>(mask: seq<bool>, s: seq<T>): seq<T>
    requires |mask| == |s|
  {
    if s == [] then []
    else Select(mask[..|s| - 1], s[..|s| - 1]) + (if mask[|s| - 1] then [s[|s| - 1]] else [])
  }

  /** `a` is obtained from `b` by dropping some elements and keeping the order of the rest. */
  ghost predicate IsSubsequence<T>(a: seq<T>, b: seq<T>) {
    exists mask: seq<bool> :: |mask| == |b| && Select(mask, b) == a
  }

  lemma {:induction false} FilterMask<T>(p: T -> bool, s: seq<T>) returns (mask: seq<bool>)
    ensures |mask| == |s| && Select(mask, s) == Filter(p, s)
  {
    if s == [] {
      mask := [];
    } else {
      var m' := FilterMask(p, s[..|s| - 1]);
      mask := m' + [p(s[|s| - 1])];
      assert mask[..|s| - 1] == m';
    }
  }

  /** A filter drops elements and keeps the order of the rest. */
  lemma FilterIsSubsequence<T>(p: T -> bool, s: seq<T>)
    ensures IsSubsequence(Filter(p, s), s)
  {
    var mask := FilterMask(p, s);
  }

  lemma SelfIsSubsequence<T>(s: seq<T>)
    ensures IsSubsequence(s, s)
  {
    FilterIsSubsequence((x: T) => true, s);
    FilterAll((x: T) => true, s);
  }

  /** The sum of `w` over the elements of `s`. */
  function SumOf<T>(w: T -> nat, s: seq<T>): nat {
    if s == [] then 0 else SumOf(w, s[..|s| - 1]) + w(s[|s| - 1])
  }

  lemma SumOfSnoc<T>(w: T -> nat, s: seq<T>, x: T)
    ensures SumOf(w, s + [x]) == SumOf(w, s) + w(x)
  {
    assert (s + [x])[..|s|] == s;
  }

  lemma {:induction false} SumOfConcat<T>(w: T -> nat, a: seq<T>, b: seq<T>)
    ensures SumOf(w, a + b) == SumOf(w, a) + SumOf(w, b)
    decreases |b|
  {
    if b == [] {
      assert a + b == a;
    } else {
      var b', y := b[..|b| - 1], b[|b| - 1];
      assert b == b' + [y];
      assert a + b == (a + b') + [y];
      SumOfSnoc(w, a + b', y);
      SumOfConcat(w, a, b');
    }
  }

  /** A sum does not depend on the order of its terms. */
  lemma {:induction false} SumOfPerm<T>(w: T -> nat, a: seq<T>, b: seq<T>)
    requires multiset(a) == multiset(b)
    ensures SumOf(w, a) == SumOf(w, b)
    decreases |a|
  {
    if a == [] {
      assert |b| == |multiset(b)| == 0;
    } else {
      var a', y := a[..|a| - 1], a[|a| - 1];
      assert a == a' + [y];
      assert y in multiset(b);
      var i :| 0 <= i < |b| && b[i] == y;
      var b' := b[..i] + b[i + 1..];
      assert b == b[..i] + [y] + b[i + 1..];
      assert multiset(b) == multiset(b') + multiset{y};
      assert multiset(a) == multiset(a') + multiset{y};
      forall z ensures multiset(a')[z] == multiset(b')[z] {
        assert multiset(a)[z] == multiset(b)[z];
      }
      assert multiset(a') == multiset(b');
      SumOfPerm(w, a', b');
      SumOfConcat(w, b[..i] + [y], b[i + 1..]);
      SumOfConcat(w, b[..i], [y]);
      SumOfConcat(w, b[..i], b[i + 1..]);
      assert SumOf(w, [y]) == w(y) by { assert [y][..0] == []; }
    }
  }

  /** Sums of two weights that agree on every element are equal. */
  /** Two sums agree when their terms agree position by position. */
  lemma {:induction false} SumOfZip<T, U>(w1: T -> nat, s1: seq<T>, w2: U -> nat, s2: seq<U>)
    requires |s1| == |s2|
    requires forall i | 0 <= i < |s1| :: w1(s1[i]) == w2(s2[i])
    ensures SumOf(w1, s1) == SumOf(w2, s2)
  {
    if s1 != [] {
      SumOfZip(w1, s1[..|s1| - 1], w2, s2[..|s2| - 1]);
    }
  }

  lemma {:induction false} SumOfAgree<T>(w1: T -> nat, w2: T -> nat, s: seq<T>)
    requires forall x | x in s :: w1(x) == w2(x)
    ensures SumOf(w1, s) == SumOf(w2, s)
  {
    if s != [] {
      SumOfAgree(w1, w2, s[..|s| - 1]);
    }
  }

  /** A sum of pointwise sums is the sum of the sums. */
  lemma {:induction false} SumOfAdd<T>(w: T -> nat, w1: T -> nat, w2: T -> nat, s: seq<T>)
    requires forall x | x in s :: w(x) == w1(x) + w2(x)
    ensures SumOf(w, s) == SumOf(w1, s) + SumOf(w2, s)
  {
    if s != [] {
      SumOfAdd(w, w1, w2, s[..|s| - 1]);
    }
  }

  function Indicator<K(==)>(k0: K): K -> nat { k => if k == k0 then 1 else 0 }

  /** A key occurring once in a duplicate-free list is counted once by its indicator. */
  lemma {:induction false} SumOfIndicator<K>(k0: K, keys: seq<K>)
    requires Distinct(keys)
    ensures SumOf(Indicator(k0), keys) == if k0 in keys then 1 else 0
  {
    if keys != [] {
      var keys', y := keys[..|keys| - 1], keys[|keys| - 1];
      assert keys == keys' + [y];
      SumOfIndicator(k0, keys');
      forall i | 0 <= i < |keys'| ensures keys'[i] != y {
        assert keys[i] == keys'[i];
      }
    }
  }

  /** Tallying the elements of `s` under a duplicate-free list of keys that covers every
      element's key accounts for each element exactly once. */
  lemma {:induction false} PartitionCount<T, K>(f: T -> K, s: seq<T>, keys: seq<K>)
    requires Distinct(keys)
    requires forall x | x in s :: f(x) in keys
    ensures SumOf(CountsOf(f, s), keys) == |s|
  {
    if s == [] {
      SumOfAgree(CountsOf(f, s), (k: K) => 0, keys);
      SumOfZero(keys);
    } else {
      var s', y := s[..|s| - 1], s[|s| - 1];
      assert s == s' + [y];
      PartitionCount(f, s', keys);
      forall k | k in keys ensures CountsOf(f, s)(k) == CountsOf(f, s')(k) + Indicator(f(y))(k) {
        FilterSnoc(KeyIs(f, k), s', y);
      }
      SumOfAdd(CountsOf(f, s), CountsOf(f, s'), Indicator(f(y)), keys);
      SumOfIndicator(f(y), keys);
    }
  }

  lemma {:induction false} SumOfZero<K>(keys: seq<K>)
    ensures SumOf((k: K) => 0, keys) == 0
  {
    if keys != [] {
      SumOfZero(keys[..|keys| - 1]);
    }
  }

  /** `Math.max(0, ...s.map(w))`. */
  function MaxOf<T>(w: T -> nat, s: seq<T>): (r: nat)
    ensures forall x | x in s :: w(x) <= r
    ensures s == [] ==> r == 0
    ensures s != [] ==> exists i | 0 <= i < |s| :: w(s[i]) == r
  {
    if s == [] then 0
    else
      var m := MaxOf(w, s[..|s| - 1]);
      assert forall x | x in s :: x in s[..|s| - 1] || x == s[|s| - 1];
      if w(s[|s| - 1]) > m then w(s[|s| - 1]) else m
  }

  /** `n` copies of `x`. */
  function Repeat<T>(x: T, n: nat): (r: seq<T>)
    ensures |r| == n && forall y | y in r :: y == x
  {
    if n == 0 then [] else Repeat(x, n - 1) + [x]
  }

  lemma {:induction false} FilterRepeat<T>(p: T -> bool, x: T, n: nat)
    ensures |Filter(p, Repeat(x, n))| == if p(x) then n else 0
  {
    if n > 0 {
      FilterRepeat(p, x, n - 1);
      FilterSnoc(p, Repeat(x, n - 1), x);
    }
  }
}
