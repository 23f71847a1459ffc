/** The progress arithmetic shared by the job card, the carousel and the overall circle:
    `not-needed` todos do not count, `checked` todos are done, and progress is the rounded
    percentage of countable todos that are done, 0 when nothing counts. */
module Progress {
  import opened Seqs
  import opened Model

  predicate IsCountable(t: TodoItem) { t.status != NotNeeded }

  predicate IsDone(t: TodoItem) { t.status == Checked }

  function Countable(todos: seq<TodoItem>): nat { |Filter(IsCountable, todos)| }

  function Completed(todos: seq<TodoItem>): nat { |Filter(IsDone, todos)| }

  /** Done todos are countable, so there are never more done than countable todos. */
  lemma CompletedLeCountable(todos: seq<TodoItem>)
    ensures Completed(todos) <= Countable(todos) <= |todos|
  {
    FilterMono(IsDone, IsCountable, todos);
  }

  /** `Math.round(c / t * 100)`, or 0 when `t` is 0, computed exactly: `Math.round` rounds
      halves up, so the result is the floor of `100 c / t + 1/2`. */
  function RoundPercent(c: nat, t: nat): (r: nat)
    requires c <= t
    ensures r <= 100
    ensures t == 0 ==> r == 0
    ensures t > 0 ==> 2 * t * r <= 200 * c + t < 2 * t * r + 2 * t
    ensures t > 0 ==> (r == 100 <==> 200 * (t - c) <= t)
    ensures c == 0 ==> r == 0
  {
    if t == 0 then 0
    else
      var d := 2 * t;
      var r := (200 * c + t) / d;
      DivBounds(200 * c + t, d);
      MulCancel(d, r, 101);
      assert r == 100 <==> 200 * (t - c) <= t by {
        MulCancel(d, 99, r);
        MulCancel(d, r, 100);
      }
      assert c == 0 ==> r == 0 by {
        MulCancel(d, r, 1);
      }
      r
  }

  lemma DivBounds(n: nat, d: nat)
    requires 0 < d
    ensures d * (n / d) <= n < d * (n / d) + d
  {
  }

  /** Multiplying by a positive number preserves strict order both ways. */
  lemma MulCancel(d: nat, a: int, b: int)
    requires 0 < d
    ensures d * a < d * b <==> a < b
  {
    if a < b {
      assert d * b - d * a == d * (b - a);
    } else {
      assert d * a - d * b == d * (a - b);
    }
  }

  /** The rounding constraint has only one solution: any `r` meeting it is `RoundPercent`. */
  lemma RoundPercentUnique(c: nat, t: nat, r: int)
    requires c <= t && 0 < t
    requires 2 * t * r <= 200 * c + t < 2 * t * r + 2 * t
    ensures r == RoundPercent(c, t)
  {
    var q := RoundPercent(c, t);
    MulCancel(2 * t, r, q + 1);
    MulCancel(2 * t, q, r + 1);
    assert (2 * t) * (q + 1) == 2 * t * q + 2 * t;
    assert (2 * t) * (r + 1) == 2 * t * r + 2 * t;
  }

  /** All countable todos done gives 100. */
  lemma RoundPercentFull(t: nat)
    requires 0 < t
    ensures RoundPercent(t, t) == 100
  {
  }

  /** The progress of a list of todos. */
  function TodoProgress(todos: seq<TodoItem>): (p: nat)
    ensures p <= 100
  {
    CompletedLeCountable(todos);
    RoundPercent(Completed(todos), Countable(todos))
  }

  /** Progress is 100 when every countable todo is checked and at least one is, and 0 when
      none is checked or none counts. */
  lemma TodoProgressExtremes(todos: seq<TodoItem>)
    ensures 0 < Countable(todos) == Completed(todos) ==> TodoProgress(todos) == 100
    ensures Completed(todos) == 0 ==> TodoProgress(todos) == 0
  {
  }

  /** Two lists of todos with the same counts have the same progress, whatever their order. */
  lemma TodoProgressIgnoresOrder(a: seq<TodoItem>, b: seq<TodoItem>)
    requires multiset(a) == multiset(b)
    ensures TodoProgress(a) == TodoProgress(b)
  {
    FilterPermCount(IsDone, a, b);
    FilterPermCount(IsCountable, a, b);
  }

  lemma {:induction false} FilterPermCount<T>(p: T -> bool, a: seq<T>, b: seq<T>)
    requires multiset(a) == multiset(b)
    ensures |Filter(p, a)| == |Filter(p, b)|
  {
    FilterAsSum(p, a);
    FilterAsSum(p, b);
    SumOfPerm(Passes(p), a, b);
  }

  function Passes<T>(p: T -> bool): T -> nat { x => if p(x) then 1 else 0 }

  lemma {:induction false} FilterAsSum<T>(p: T -> bool, s: seq<T>)
    ensures |Filter(p, s)| == SumOf(Passes(p), s)
  {
    if s != [] {
      var s', x := s[..|s| - 1], s[|s| - 1];
      assert s == s' + [x];
      FilterAsSum(p, s');
      FilterSnoc(p, s', x);
      SumOfSnoc(Passes(p), s', x);
    }
  }

  /** The colour band of a progress value: 100 exactly, then thresholds 75, 50 and 25. */
  datatype Band = Green | Blue | Yellow | Orange | Red

  function BandOf(p: int): (b: Band)
    ensures b == Green <==> p == 100
    ensures b == Blue <==> p >= 75 && p != 100
    ensures b == Yellow <==> 50 <= p < 75
    ensures b == Orange <==> 25 <= p < 50
    ensures b == Red <==> p < 25
  {
    if p == 100 then Green
    else if p >= 75 then Blue
    else if p >= 50 then Yellow
    else if p >= 25 then Orange
    else Red
  }

  function Rank(b: Band): nat {
    match b
    case Red => 0
    case Orange => 1
    case Yellow => 2
    case Blue => 3
    case Green => 4
  }

  /** On the values progress can take, more progress never gives a lower band. */
  lemma BandMonotone(p: int, q: int)
    requires 0 <= p <= q <= 100
    ensures Rank(BandOf(p)) <= Rank(BandOf(q))
  {
  }

  /** The Tailwind colour name of a band. */
  function BandColour(b: Band): string {
    match b
    case Green => "green"
    case Blue => "blue"
    case Yellow => "yellow"
    case Orange => "orange"
    case Red => "red"
  }

  /** Different bands have different colours. */
  lemma BandColourInjective(b: Band, b': Band)
    requires BandColour(b) == BandColour(b')
    ensures b == b'
  {
  }
}
