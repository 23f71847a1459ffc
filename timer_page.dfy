/** The stopwatch page: the `formatTime` display of elapsed milliseconds, and the selection
    state machine over (elapsed time, running, selected job, selected todo). The interval that
    advances the elapsed time from the wall clock is not part of this model. */
module TimerPage {
  import opened Text
  import opened Model

  /** Elapsed time split into display units. */
  datatype Clock = Clock(hours: nat, minutes: nat, seconds: nat, centis: nat)

  lemma {:induction false} MulAtLeast(d: nat, k: nat)
    requires k >= 1
    ensures d * k >= d
  {
    if k > 1 {
      MulAtLeast(d, k - 1);
      assert d * k == d * (k - 1) + d;
    }
  }

  /** Euclidean division is determined by its quotient and remainder bounds. */
  lemma DivModUnique(x: nat, d: nat, q: nat, r: nat)
    requires 0 <= r < d && x == d * q + r
    ensures x / d == q && x % d == r
  {
    var q', r' := x / d, x % d;
    assert x == d * q' + r' && 0 <= r' < d;
    if q' < q {
      assert d * q == d * q' + d * (q - q');
      MulAtLeast(d, q - q');
    } else if q' > q {
      assert d * q' == d * q + d * (q' - q);
      MulAtLeast(d, q' - q);
    }
  }

  /** Elapsed time taken apart into whole hours, minutes, seconds and hundredths, together with
      the milliseconds below a hundredth. */
  lemma Decompose(ms: nat)
    ensures ms % 3600000 / 60000 < 60 && ms % 60000 / 1000 < 60 && ms % 1000 / 10 < 100
    ensures ms == ms / 3600000 * 3600000 + ms % 3600000 / 60000 * 60000
                  + ms % 60000 / 1000 * 1000 + ms % 1000 / 10 * 10 + ms % 10
  {
    var h, m := ms / 3600000, ms % 3600000 / 60000;
    var r1 := ms % 3600000;
    var r2 := r1 % 60000;
    var r3 := r2 % 1000;
    assert r1 == m * 60000 + r2;
    assert r2 == (r2 / 1000) * 1000 + r3;
    assert r3 == (r3 / 10) * 10 + r3 % 10;
    DivModUnique(ms, 60000, 60 * h + m, r2);
    var s := r2 / 1000;
    DivModUnique(ms, 1000, 3600 * h + 60 * m + s, r3);
    DivModUnique(ms, 10, 360000 * h + 6000 * m + 100 * s + r3 / 10, r3 % 10);
  }

  /** The four `Math.floor` divisions of `formatTime`. Together the units give back the elapsed
      time truncated to whole hundredths of a second. */
  function SplitTime(ms: nat): (c: Clock)
    ensures c.minutes < 60 && c.seconds < 60 && c.centis < 100
    ensures c.hours * 3600000 + c.minutes * 60000 + c.seconds * 1000 + c.centis * 10 == ms - ms % 10
  {
    Decompose(ms);
    Clock(ms / 3600000, (ms % 3600000) / 60000, (ms % 60000) / 1000, (ms % 1000) / 10)
  }

  /** `HH:MM:SS.CC`, every unit padded to two digits; hours grow past two digits. */
  function FormatTime(ms: nat): (r: string)
    ensures |r| >= 11
  {
    var c := SplitTime(ms);
    TwoDigits(c.hours) + ":" + TwoDigits(c.minutes) + ":" + TwoDigits(c.seconds) + "." + TwoDigits(c.centis)
  }

  /** Reads a display back: at least two hour digits, then `:MM:SS.CC`. */
  function ReadClock(r: string): Option<Clock> {
    if |r| < 11 then None
    else
      var h, t := r[..|r| - 9], r[|r| - 9..];
      if t[0] == ':' && t[3] == ':' && t[6] == '.'
         && AllDigits(h) && AllDigits(t[1..3]) && AllDigits(t[4..6]) && AllDigits(t[7..])
      then Some(Clock(ParseDecimal(h), ParseDecimal(t[1..3]), ParseDecimal(t[4..6]), ParseDecimal(t[7..])))
      else None
  }

  /** The display can be read back into exactly the units it was made from. */
  lemma ReadFormatTime(ms: nat)
    ensures ReadClock(FormatTime(ms)) == Some(SplitTime(ms))
  {
    var c := SplitTime(ms);
    ReadParts(TwoDigits(c.hours), TwoDigits(c.minutes), TwoDigits(c.seconds), TwoDigits(c.centis));
  }

  /** Any four digit runs joined as a display are read back as the numbers they spell. */
  lemma ReadParts(hh: string, mm: string, ss: string, cc: string)
    requires |hh| >= 2 && |mm| == 2 && |ss| == 2 && |cc| == 2
    requires AllDigits(hh) && AllDigits(mm) && AllDigits(ss) && AllDigits(cc)
    ensures ReadClock(hh + ":" + mm + ":" + ss + "." + cc)
         == Some(Clock(ParseDecimal(hh), ParseDecimal(mm), ParseDecimal(ss), ParseDecimal(cc)))
  {
    var t := ":" + mm + ":" + ss + "." + cc;
    assert hh + ":" + mm + ":" + ss + "." + cc == hh + t;
    assert (hh + t)[..|hh|] == hh && (hh + t)[|hh|..] == t;
    TailParts(mm, ss, cc);
  }

  lemma TailParts(mm: string, ss: string, cc: string)
    requires |mm| == 2 && |ss| == 2 && |cc| == 2
    ensures var t := ":" + mm + ":" + ss + "." + cc;
      |t| == 9 && t[0] == ':' && t[3] == ':' && t[6] == '.' && t[1..3] == mm && t[4..6] == ss && t[7..] == cc
  {
    var t := ":" + mm + ":" + ss + "." + cc;
    assert t[1..3] == mm by { assert t[1] == mm[0] && t[2] == mm[1]; }
    assert t[4..6] == ss by { assert t[4] == ss[0] && t[5] == ss[1]; }
    assert t[7..] == cc by { assert t[7] == cc[0] && t[8] == cc[1]; }
  }

  /** The units determine the elapsed time up to its last digit of milliseconds. */
  lemma SplitTimeTenths(a: nat, b: nat)
    ensures SplitTime(a) == SplitTime(b) <==> a / 10 == b / 10
  {
    var ca, cb := SplitTime(a), SplitTime(b);
    DivModUnique(a, 10, a / 10, a % 10);
    DivModUnique(b, 10, b / 10, b % 10);
    if a / 10 == b / 10 {
      Decompose(a);
      Decompose(b);
      var h, m, s, cs := ca.hours, ca.minutes, ca.seconds, ca.centis;
      var h', m', s', cs' := cb.hours, cb.minutes, cb.seconds, cb.centis;
      DivModUnique(a / 10, 360000, h, m * 6000 + s * 100 + cs);
      DivModUnique(b / 10, 360000, h', m' * 6000 + s' * 100 + cs');
      DivModUnique(m * 6000 + s * 100 + cs, 6000, m, s * 100 + cs);
      DivModUnique(m' * 6000 + s' * 100 + cs', 6000, m', s' * 100 + cs');
      DivModUnique(s * 100 + cs, 100, s, cs);
      DivModUnique(s' * 100 + cs', 100, s', cs');
    }
  }

  /** Two elapsed times show the same display exactly when they agree in whole hundredths. */
  lemma FormatTimeTenths(a: nat, b: nat)
    ensures FormatTime(a) == FormatTime(b) <==> a / 10 == b / 10
  {
    SplitTimeTenths(a, b);
    if FormatTime(a) == FormatTime(b) {
      ReadFormatTime(a);
      ReadFormatTime(b);
    }
  }

  /** The notice `handleStartPause` raises. */
  datatype Notice = SelectFirst | Started | Paused

  /** The page's timer state. */
  class Stopwatch {
    var elapsedTime: nat
    var isRunning: bool
    var selectedJobId: Option<string>
    var selectedTodoId: Option<string>

    /** Both a job and a todo are selected (non-empty ids). */
    predicate CanRun()
      reads this
    {
      Truthy(selectedJobId) && Truthy(selectedTodoId)
    }

    /** The timer only runs with a job and a todo selected. */
    predicate Valid()
      reads this
    {
      isRunning ==> CanRun()
    }

    constructor()
      ensures Valid()
      ensures elapsedTime == 0 && !isRunning && selectedJobId == None && selectedTodoId == None
    {
      elapsedTime, isRunning, selectedJobId, selectedTodoId := 0, false, None, None;
    }

    /** Start or pause: nothing changes without a selection; otherwise the running flag flips. */
    method StartPause() returns (notice: Notice)
      requires Valid()
      modifies this
      ensures Valid()
      ensures notice == SelectFirst <==> !CanRun()
      ensures notice == Started ==> !old(isRunning) && isRunning
      ensures notice == Paused ==> old(isRunning) && !isRunning
      ensures isRunning == if CanRun() then !old(isRunning) else old(isRunning)
      ensures unchanged(`elapsedTime, `selectedJobId, `selectedTodoId)
    {
      if !(Truthy(selectedJobId) && Truthy(selectedTodoId)) {
        return SelectFirst;
      }
      notice := if !isRunning then Started else Paused;
      isRunning := !isRunning;
    }

    method Reset()
      requires Valid()
      modifies this
      ensures Valid()
      ensures !isRunning && elapsedTime == 0
      ensures unchanged(`selectedJobId, `selectedTodoId)
    {
      isRunning := false;
      elapsedTime := 0;
    }

    /** Choosing a job clears the todo choice, stops the timer and zeroes it. */
    method JobSelect(jobId: string)
      requires Valid()
      modifies this
      ensures Valid() && !CanRun()
      ensures selectedJobId == Some(jobId) && selectedTodoId == None
      ensures !isRunning && elapsedTime == 0
    {
      selectedJobId := Some(jobId);
      selectedTodoId := None;
      isRunning := false;
      elapsedTime := 0;
    }

    /** Choosing a todo keeps the job choice, stops the timer and zeroes it. */
    method TodoSelect(todoId: string)
      requires Valid()
      modifies this
      ensures Valid()
      ensures selectedTodoId == Some(todoId)
      ensures !isRunning && elapsedTime == 0
      ensures unchanged(`selectedJobId)
    {
      selectedTodoId := Some(todoId);
      isRunning := false;
      elapsedTime := 0;
    }
  }
}
