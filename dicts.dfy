/** The dictionaries the views build in loops: JavaScript objects and `Map`s from string keys
    to lists filled by `push`, and objects from string keys to counters. Keys are kept in
    insertion order, the order `Object.keys`, `Object.values` and `Map` iteration use for the
    non-numeric keys found here. */
module Dicts {
  import opened Seqs

  /** A dictionary from keys to the lists pushed under them. */
  datatype Buckets<T> = Buckets(keys: seq<string>, lists: map<string, seq<T>>)
  {
    /** Keys are listed once each, exactly the keys present, and a key is created only by a push. */
    predicate Valid() {
      Distinct(keys)
      && (forall k | k in keys :: k in lists && lists[k] != [])
      && (forall k | k in lists :: k in keys)
    }

    /** `map.get(k) || []`: the list under `k`, empty for a missing key. */
    function Get(k: string): seq<T> {
      if k in lists then lists[k] else []
    }

    /** `if (!map.has(k)) map.set(k, []); map.get(k).push(x)`. */
    function Push(k: string, x: T): (r: Buckets<T>)
      requires Valid()
      ensures r.Valid()
      ensures r.Get(k) == Get(k) + [x]
      ensures forall k' | k' != k :: r.Get(k') == Get(k')
      ensures r.keys == if k in keys then keys else keys + [k]
    {
      if k in lists then Buckets(keys, lists[k := lists[k] + [x]])
      else
        DistinctSnoc(keys, k);
        Buckets(keys + [k], lists[k := [x]])
    }
  }

  function NoBuckets<T>(): (r: Buckets<T>)
    ensures r.Valid() && r.keys == []
    ensures forall k :: r.Get(k) == []
  {
    Buckets([], map[])
  }

  /** The size of each bucket, as a function value for sums and maxima. */
  function SizeOf<T>(b: Buckets<T>): string -> nat {
    k => |b.Get(k)|
  }

  /** Pushing every element under its key `f(x)`, in order, leaves under each key exactly the
      elements with that key, in input order. */
  lemma PushKeyed<T>(b: Buckets<T>, f: T -> string, s: seq<T>, x: T)
    requires b.Valid()
    requires forall k :: b.Get(k) == Filter(KeyIs(f, k), s)
    ensures forall k :: b.Push(f(x), x).Get(k) == Filter(KeyIs(f, k), s + [x])
  {
    forall k ensures b.Push(f(x), x).Get(k) == Filter(KeyIs(f, k), s + [x]) {
      FilterSnoc(KeyIs(f, k), s, x);
    }
  }

  /** `b` holds exactly the elements of `s`, each under its key `f(x)`, in input order. */
  ghost predicate Groups<T>(b: Buckets<T>, f: T -> string, s: seq<T>) {
    b.Valid() && (forall k :: b.Get(k) == Filter(KeyIs(f, k), s)) && (forall x | x in s :: f(x) in b.keys)
  }

  /** One turn of a loop that pushes the elements of `s` that pass `p`: the element is pushed
      exactly when it passes. */
  lemma GroupStep<T>(b: Buckets<T>, f: T -> string, p: T -> bool, s: seq<T>, i: nat)
    requires i < |s| && Groups(b, f, Filter(p, s[..i]))
    ensures p(s[i]) ==> Groups(b.Push(f(s[i]), s[i]), f, Filter(p, s[..i + 1]))
    ensures !p(s[i]) ==> Groups(b, f, Filter(p, s[..i + 1]))
  {
    FilterPrefix(p, s, i);
    if p(s[i]) {
      GroupPush(b, f, Filter(p, s[..i]), s[i]);
    } else {
      assert Filter(p, s[..i]) + [] == Filter(p, s[..i]);
    }
  }

  lemma GroupPush<T>(b: Buckets<T>, f: T -> string, s: seq<T>, x: T)
    requires Groups(b, f, s)
    ensures Groups(b.Push(f(x), x), f, s + [x])
  {
    var b' := b.Push(f(x), x);
    PushKeyed(b, f, s, x);
    forall y | y in s + [x] ensures f(y) in b'.keys {
      if y != x {
        assert y in s;
      }
    }
  }

  /** When the keys are exactly the keys of the elements pushed, the bucket sizes add up to
      the number of elements. */
  lemma SizesAddUp<T>(b: Buckets<T>, f: T -> string, s: seq<T>)
    requires b.Valid()
    requires forall k :: b.Get(k) == Filter(KeyIs(f, k), s)
    requires forall x | x in s :: f(x) in b.keys
    ensures SumOf(SizeOf(b), b.keys) == |s|
  {
    SumOfAgree(SizeOf(b), CountsOf(f, s), b.keys);
    PartitionCount(f, s, b.keys);
  }

  /** A dictionary from keys to counters, as filled by `obj[k] = (obj[k] || 0) + 1`. */
  datatype Tally = Tally(keys: seq<string>, counts: map<string, nat>)
  {
    predicate Valid() {
      Distinct(keys)
      && (forall k | k in keys :: k in counts && counts[k] > 0)
      && (forall k | k in counts :: k in keys)
    }

    /** `obj[k] || 0`. */
    function Get(k: string): nat {
      if k in counts then counts[k] else 0
    }

    function Inc(k: string): (r: Tally)
      requires Valid()
      ensures r.Valid()
      ensures r.Get(k) == Get(k) + 1
      ensures forall k' | k' != k :: r.Get(k') == Get(k')
      ensures r.keys == if k in keys then keys else keys + [k]
    {
      if k in counts then Tally(keys, counts[k := counts[k] + 1])
      else
        DistinctSnoc(keys, k);
        Tally(keys + [k], counts[k := 1])
    }
  }

  /** Incrementing the counter of each element's key, in order, leaves under each key the number
      of elements with that key. */
  lemma IncKeyed<T>(t: Tally, f: T -> string, s: seq<T>, x: T)
    requires t.Valid()
    requires forall k :: t.Get(k) == |Filter(KeyIs(f, k), s)|
    ensures forall k :: t.Inc(f(x)).Get(k) == |Filter(KeyIs(f, k), s + [x])|
  {
    forall k ensures t.Inc(f(x)).Get(k) == |Filter(KeyIs(f, k), s + [x])| {
      FilterSnoc(KeyIs(f, k), s, x);
    }
  }

  function NoCounts(): (r: Tally)
    ensures r.Valid() && r.keys == []
    ensures forall k :: r.Get(k) == 0
  {
    Tally([], map[])
  }

  function CountOf(t: Tally): string -> nat {
    k => t.Get(k)
  }

  /** The counters add up to the number of increments when each counter holds the number of
      elements with its key. */
  lemma CountsAddUp<T>(t: Tally, f: T -> string, s: seq<T>)
    requires t.Valid()
    requires forall k :: t.Get(k) == |Filter(KeyIs(f, k), s)|
    requires forall x | x in s :: f(x) in t.keys
    ensures SumOf(CountOf(t), t.keys) == |s|
  {
    SumOfAgree(CountOf(t), CountsOf(f, s), t.keys);
    PartitionCount(f, s, t.keys);
  }

  /** `t` counts, for every key, the elements of `s` with that key, and knows every such key. */
  ghost predicate Tallies<T>(t: Tally, f: T -> string, s: seq<T>) {
    t.Valid()
    && (forall k :: t.Get(k) == |Filter(KeyIs(f, k), s)|)
    && (forall x | x in s :: f(x) in t.keys)
  }

  /** Counting one more element keeps the tally exact. */
  lemma TallyStep<T>(t: Tally, f: T -> string, s: seq<T>, x: T)
    requires Tallies(t, f, s)
    ensures Tallies(t.Inc(f(x)), f, s + [x])
  {
    IncKeyed(t, f, s, x);
  }
}
