/** String order and `Array.prototype.sort`: a stable sort by a string key under the
    lexicographic order JavaScript uses to compare strings. */
module Sorting {
  import opened Seqs

  /** `a <= b` on strings: lexicographic, character by character, a prefix first. */
  predicate LexLe(a: string, b: string) {
    a == [] || (b != [] && (a[0] < b[0] || (a[0] == b[0] && LexLe(a[1..], b[1..]))))
  }

  lemma {:induction false} LexLeRefl(a: string)
    ensures LexLe(a, a)
  {
    if a != [] {
      LexLeRefl(a[1..]);
    }
  }

  lemma {:induction false} LexLeTotal(a: string, b: string)
    ensures LexLe(a, b) || LexLe(b, a)
  {
    if a != [] && b != [] && a[0] == b[0] {
      LexLeTotal(a[1..], b[1..]);
    }
  }

  lemma {:induction false} LexLeAntisym(a: string, b: string)
    requires LexLe(a, b) && LexLe(b, a)
    ensures a == b
  {
    if a != [] && b != [] {
      LexLeAntisym(a[1..], b[1..]);
      assert a == [a[0]] + a[1..] && b == [b[0]] + b[1..];
    }
  }

  lemma {:induction false} LexLeTrans(a: string, b: string, c: string)
    requires LexLe(a, b) && LexLe(b, c)
    ensures LexLe(a, c)
  {
    if a != [] && b != [] && c != [] && a[0] == b[0] && b[0] == c[0] {
      LexLeTrans(a[1..], b[1..], c[1..]);
    }
  }

  /** `s` is in ascending order of `key`. */
  predicate SortedBy<T>(key: T -> string, s: seq<T>) {
    forall i, j | 0 <= i < j < |s| :: LexLe(key(s[i]), key(s[j]))
  }

  /** Where a stable sort puts a new last element `x`: after every element whose key is at most
      `x`'s, so that only elements with a strictly greater key follow it. */
  function InsertPos<T>(key: T -> string, s: seq<T>, x: T): (p: nat)
    ensures p <= |s|
    ensures forall i | p <= i < |s| :: !LexLe(key(s[i]), key(x))
    ensures 0 < p ==> LexLe(key(s[p - 1]), key(x))
  {
    if s == [] || LexLe(key(s[|s| - 1]), key(x)) then |s|
    else InsertPos(key, s[..|s| - 1], x)
  }

  function Insert<T>(key: T -> string, s: seq<T>, x: T): seq<T> {
    var p := InsertPos(key, s, x);
    s[..p] + [x] + s[p..]
  }

  /** The stable sort of `s` by `key`, built by inserting the elements in input order. */
  function SortBy<T>(key: T -> string, s: seq<T>): seq<T> {
    if s == [] then [] else Insert(key, SortBy(key, s[..|s| - 1]), s[|s| - 1])
  }

  lemma InsertPerm<T>(key: T -> string, s: seq<T>, x: T)
    ensures multiset(Insert(key, s, x)) == multiset(s) + multiset{x}
  {
    var p := InsertPos(key, s, x);
    assert s == s[..p] + s[p..];
  }

  lemma InsertSorted<T>(key: T -> string, s: seq<T>, x: T)
    requires SortedBy(key, s)
    ensures SortedBy(key, Insert(key, s, x))
  {
    var p := InsertPos(key, s, x);
    var r := Insert(key, s, x);
    assert forall i | 0 <= i < p :: LexLe(key(s[i]), key(x)) by {
      forall i | 0 <= i < p ensures LexLe(key(s[i]), key(x)) {
        if i < p - 1 {
          LexLeTrans(key(s[i]), key(s[p - 1]), key(x));
        }
      }
    }
    assert forall i | p <= i < |s| :: LexLe(key(x), key(s[i])) by {
      forall i | p <= i < |s| ensures LexLe(key(x), key(s[i])) {
        LexLeTotal(key(x), key(s[i]));
      }
    }
    forall i, j | 0 <= i < j < |r| ensures LexLe(key(r[i]), key(r[j])) {
      if i < p && j > p {
        LexLeTrans(key(r[i]), key(x), key(r[j]));
      }
    }
  }

  /** Filtering an insertion: the filtered prefix, then `x` if it passes, then the filtered rest. */
  lemma FilterInsert<T>(f: T -> bool, key: T -> string, s: seq<T>, x: T)
    ensures Filter(f, Insert(key, s, x))
         == Filter(f, s[..InsertPos(key, s, x)]) + (if f(x) then [x] else [])
            + Filter(f, s[InsertPos(key, s, x)..])
  {
    var p := InsertPos(key, s, x);
    var a, b := s[..p], s[p..];
    assert Insert(key, s, x) == (a + [x]) + b;
    FilterSnoc(f, a, x);
    FilterConcat(f, a + [x], b);
  }

  /** Inserting `x` moves no element past another with the same key. */
  lemma InsertStable<T>(key: T -> string, s: seq<T>, x: T, k: string)
    ensures Filter(KeyIs(key, k), Insert(key, s, x))
         == Filter(KeyIs(key, k), s) + (if key(x) == k then [x] else [])
  {
    if key(x) == k {
      PassedKeysDiffer(key, s, x);
    }
    FilterInsertAppends(KeyIs(key, k), key, s, x);
  }

  /** When `x` is filtered out or no element it passes is kept, filtering the insertion is
      filtering `s` and then appending `x` if it is kept. */
  lemma FilterInsertAppends<T>(f: T -> bool, key: T -> string, s: seq<T>, x: T)
    requires f(x) ==> Filter(f, s[InsertPos(key, s, x)..]) == []
    ensures Filter(f, Insert(key, s, x)) == Filter(f, s) + (if f(x) then [x] else [])
  {
    var p := InsertPos(key, s, x);
    var a, b := Filter(f, s[..p]), Filter(f, s[p..]);
    FilterInsert(f, key, s, x);
    FilterSplit(f, s, p);
    if f(x) {
      assert a + [x] + b == (a + b) + [x];
    } else {
      assert a + [] + b == (a + b) + [];
    }
  }

  /** The elements a stable insertion passes over all have a key other than the new one's. */
  lemma PassedKeysDiffer<T>(key: T -> string, s: seq<T>, x: T)
    ensures Filter(KeyIs(key, key(x)), s[InsertPos(key, s, x)..]) == []
  {
    var p := InsertPos(key, s, x);
    var b := s[p..];
    forall j | 0 <= j < |b| ensures !KeyIs(key, key(x))(b[j]) {
      assert b[j] == s[p + j];
      LexLeRefl(key(x));
    }
    FilterNone(KeyIs(key, key(x)), b);
  }

  /** `SortBy` returns a permutation of its input ... */
  lemma {:induction false} SortByPerm<T>(key: T -> string, s: seq<T>)
    ensures multiset(SortBy(key, s)) == multiset(s)
    ensures |SortBy(key, s)| == |s|
  {
    if s != [] {
      var s', x := s[..|s| - 1], s[|s| - 1];
      SortByPerm(key, s');
      InsertPerm(key, SortBy(key, s'), x);
      assert s == s' + [x];
      assert |SortBy(key, s)| == |multiset(SortBy(key, s))|;
    }
  }

  /** ... in ascending order of the key ... */
  lemma {:induction false} SortBySorted<T>(key: T -> string, s: seq<T>)
    ensures SortedBy(key, SortBy(key, s))
  {
    if s != [] {
      SortBySorted(key, s[..|s| - 1]);
      InsertSorted(key, SortBy(key, s[..|s| - 1]), s[|s| - 1]);
    }
  }

  /** ... keeping elements with equal keys in input order. Together with the two lemmas above
      this determines the result completely. */
  lemma {:induction false} SortByStable<T>(key: T -> string, s: seq<T>, k: string)
    ensures Filter(KeyIs(key, k), SortBy(key, s)) == Filter(KeyIs(key, k), s)
  {
    if s != [] {
      var s', x := s[..|s| - 1], s[|s| - 1];
      var f := KeyIs(key, k);
      var tail := if f(x) then [x] else [];
      assert s == s' + [x];
      calc {
        Filter(f, SortBy(key, s));
        { InsertStable(key, SortBy(key, s'), x, k); }
        Filter(f, SortBy(key, s')) + tail;
        { SortByStable(key, s', k); }
        Filter(f, s') + tail;
        { FilterSnoc(f, s', x); }
        Filter(f, s);
      }
    }
  }

  /** The identity key, for sorting strings themselves. */
  function Self(s: string): string { s }

  /** A sorted list without duplicates is strictly ascending. */
  lemma SortedDistinctStrict(s: seq<string>)
    requires SortedBy(Self, s) && Distinct(s)
    ensures forall i, j | 0 <= i < j < |s| :: LexLe(s[i], s[j]) && s[i] != s[j]
  {
  }
}
