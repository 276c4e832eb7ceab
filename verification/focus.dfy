/** The focus timer of components/FocusModal.tsx: a 25-minute countdown with a
    start/pause button, and its `MM:SS` display. The one-second interval and
    the completion beep are not modelled; one `Tick` is one run of the timer
    effect, which either lets a second pass or stops a finished timer. */
module Focus {
  import opened Types
  import opened Strings

  /** `FOCUS_TIME`: 25 minutes, in seconds. */
  const FocusTime: nat := 25 * 60

  /** The modal's state: seconds left, whether the countdown runs, and whether
      it was ever started. */
  datatype Timer = Timer(timeLeft: nat, active: bool, started: bool)

  /** `isComplete`. */
  predicate IsComplete(s: Timer) {
    s.timeLeft == 0 && s.started
  }

  /** What every reachable state satisfies: the time left never exceeds the
      session, and a timer never started is still full and paused. */
  predicate Valid(s: Timer) {
    && s.timeLeft <= FocusTime
    && (!s.started ==> !s.active && s.timeLeft == FocusTime)
  }

  /** The state when the modal opens. */
  function Initial(): (r: Timer)
    ensures Valid(r) && !IsComplete(r)
    ensures r.timeLeft == 1500 && !r.active && !r.started
  {
    Timer(FocusTime, false, false)
  }

  /** One run of the timer effect: a running timer with time left loses a
      second; a started timer at zero is stopped; otherwise nothing changes. */
  function Tick(s: Timer): (r: Timer)
    ensures Valid(s) ==> Valid(r)
    ensures s.timeLeft - 1 <= r.timeLeft <= s.timeLeft
    ensures r.started == s.started
    ensures IsComplete(s) ==> IsComplete(r) && !r.active
    ensures !s.active ==> r.timeLeft == s.timeLeft && !r.active
  {
    if s.active && s.timeLeft > 0 then s.(timeLeft := s.timeLeft - 1)
    else if s.timeLeft == 0 && s.started then s.(active := false)
    else s
  }

  /** `toggleTimer`: marks the timer started and flips running and paused. */
  function Toggle(s: Timer): (r: Timer)
    ensures Valid(s) ==> Valid(r)
    ensures r.started && r.active != s.active && r.timeLeft == s.timeLeft
  {
    Timer(s.timeLeft, !s.active, true)
  }

  /** `n` runs of the timer effect. */
  function Run(s: Timer, n: nat): (r: Timer)
    ensures Valid(s) ==> Valid(r)
    ensures r.timeLeft <= s.timeLeft && r.started == s.started
    decreases n
  {
    if n == 0 then s else Run(Tick(s), n - 1)
  }

  /** A timer is left alone by the effect exactly when it has nothing to do:
      it is paused, or running with time left is impossible and a finished
      timer is already stopped. */
  lemma TickFixedPoints(s: Timer)
    ensures Tick(s) == s <==> !(s.active && s.timeLeft > 0) && !(IsComplete(s) && s.active)
  {
  }

  /** A running timer counts down one second per tick. */
  lemma {:induction false} Countdown(s: Timer, k: nat)
    requires s.active && k <= s.timeLeft
    ensures Run(s, k) == s.(timeLeft := s.timeLeft - k)
    decreases k
  {
    if k > 0 {
      Countdown(Tick(s), k - 1);
    }
  }

  /** A started, running timer reaches zero after its remaining seconds and is
      stopped by the next run of the effect: it ends complete and paused. */
  lemma RunsToCompletion(s: Timer)
    requires s.active && s.started
    ensures Run(s, s.timeLeft) == s.(timeLeft := 0)
    ensures Run(s, s.timeLeft + 1) == Timer(0, false, true)
    ensures IsComplete(Run(s, s.timeLeft + 1))
  {
    Countdown(s, s.timeLeft);
    RunAfter(s, s.timeLeft);
  }

  /** One more tick after `n`. */
  lemma {:induction false} RunAfter(s: Timer, n: nat)
    ensures Run(s, n + 1) == Tick(Run(s, n))
    decreases n
  {
    if n > 0 {
      RunAfter(Tick(s), n - 1);
    }
  }

  /** Pressing start on a fresh modal runs the full 25 minutes and ends
      complete. */
  lemma FullSession()
    ensures Run(Toggle(Initial()), FocusTime) == Timer(0, true, true)
    ensures Run(Toggle(Initial()), FocusTime + 1) == Timer(0, false, true)
  {
    RunsToCompletion(Toggle(Initial()));
  }

  /** A paused timer keeps its time however often the effect runs. */
  lemma {:induction false} PausedHolds(s: Timer, n: nat)
    requires !s.active
    ensures Run(s, n) == s
    decreases n
  {
    if n > 0 {
      PausedHolds(Tick(s), n - 1);
    }
  }

  // ---- the MM:SS display ----

  /** `padStart(width, fill)`. */
  function PadStart(s: string, width: nat, fill: char): (r: string)
    ensures |s| >= width ==> r == s
    ensures |s| < width ==> |r| == width
    ensures |r| >= |s| && r[|r| - |s|..] == s
    ensures forall i | 0 <= i < |r| - |s| :: r[i] == fill
  {
    if |s| >= width then s else seq(width - |s|, _ => fill) + s
  }

  /** `formatTime`: whole minutes and remaining seconds, each shown with at
      least two digits. */
  function FormatTime(seconds: nat): (r: string)
    ensures |r| >= 5 && r[|r| - 3] == ':'
    ensures seconds < 6000 ==> |r| == 5
  {
    PadStart(Decimal(seconds / 60), 2, '0') + ":" + PadStart(Decimal(seconds % 60), 2, '0')
  }

  /** Reading a display back: minutes before the colon, two digits of seconds
      after it. */
  function ParseTime(s: string): (r: Option<nat>)
    ensures r.Some? ==> |s| >= 4 && s[|s| - 3] == ':'
  {
    if |s| >= 4 && s[|s| - 3] == ':' && AllDigits(s[..|s| - 3]) && AllDigits(s[|s| - 2..]) then
      Some(ParseDecimal(s[..|s| - 3]) * 60 + ParseDecimal(s[|s| - 2..]))
    else None
  }

  lemma {:induction false} ZerosAreZero(k: nat)
    ensures AllDigits(seq(k, _ => '0')) && ParseDecimal(seq(k, _ => '0')) == 0
  {
    if k > 0 {
      var z := seq(k, _ => '0');
      assert z[..k - 1] == seq(k - 1, _ => '0');
      ZerosAreZero(k - 1);
    }
  }

  /** Padding with zeros keeps the digits' value. */
  lemma PaddedDecimal(n: nat)
    ensures AllDigits(PadStart(Decimal(n), 2, '0'))
    ensures ParseDecimal(PadStart(Decimal(n), 2, '0')) == n
  {
    var d := Decimal(n);
    ParseDecimalOfDecimal(n);
    if |d| < 2 {
      var z := seq(2 - |d|, _ => '0');
      ZerosAreZero(2 - |d|);
      ParseDecimalConcat(z, d);
    }
  }

  /** Minutes and two digits of seconds around a colon read back as their
      values. */
  lemma ParseTimeOf(m: string, sec: string)
    requires AllDigits(m) && AllDigits(sec) && |m| >= 1 && |sec| == 2
    ensures ParseTime(m + ":" + sec) == Some(ParseDecimal(m) * 60 + ParseDecimal(sec))
  {
    var s := m + ":" + sec;
    assert s[..|s| - 3] == m;
    assert s[|s| - 2..] == sec;
  }

  /** The display reads back as the number of seconds: minutes times sixty
      plus the seconds, the seconds being below sixty. */
  lemma FormatRoundTrip(seconds: nat)
    ensures ParseTime(FormatTime(seconds)) == Some(seconds)
  {
    var m := PadStart(Decimal(seconds / 60), 2, '0');
    var sec := PadStart(Decimal(seconds % 60), 2, '0');
    PaddedDecimal(seconds / 60);
    PaddedDecimal(seconds % 60);
    ParseTimeOf(m, sec);
  }

  /** The start of a session shows `25:00`. */
  lemma FullSessionShows()
    ensures FormatTime(FocusTime) == "25:00"
  {
    assert Decimal(25) == "25";
    assert Decimal(0) == "0";
  }

  /** Two `MM:SS` strings compare by minutes, then by seconds. */
  lemma ClockStringOrder(ma: string, sa: string, mb: string, sb: string)
    requires AllDigits(ma) && AllDigits(mb) && AllDigits(sa) && AllDigits(sb)
    requires |ma| == |mb| && |sa| == |sb|
    ensures LexLess(ma + ":" + sa, mb + ":" + sb) <==>
      ParseDecimal(ma) < ParseDecimal(mb) || (ParseDecimal(ma) == ParseDecimal(mb) && ParseDecimal(sa) < ParseDecimal(sb))
  {
    assert ma + ":" + sa == ma + (":" + sa);
    assert mb + ":" + sb == mb + (":" + sb);
    LexConcat(ma, ":" + sa, mb, ":" + sb);
    LexConcat(":", sa, ":", sb);
    LexLessDigits(ma, mb);
    LexLessDigits(mb, ma);
    LexLessDigits(sa, sb);
    LexTotal(ma, mb);
  }

  /** Seconds compare by whole minutes, then by the remaining seconds. */
  lemma MinutesThenSeconds(a: nat, b: nat)
    ensures a < b <==> a / 60 < b / 60 || (a / 60 == b / 60 && a % 60 < b % 60)
  {
    assert a == a / 60 * 60 + a % 60;
    assert b == b / 60 * 60 + b % 60;
    if a / 60 < b / 60 {
      assert a / 60 * 60 + 60 <= b / 60 * 60;
    } else if a / 60 > b / 60 {
      assert b / 60 * 60 + 60 <= a / 60 * 60;
    }
  }

  /** Under 100 minutes a display is two digits of minutes and two digits of
      seconds around the colon. */
  lemma DisplayParts(a: nat) returns (m: string, sec: string)
    requires a < 6000
    ensures FormatTime(a) == m + ":" + sec
    ensures AllDigits(m) && AllDigits(sec) && |m| == 2 && |sec| == 2
    ensures ParseDecimal(m) == a / 60 && ParseDecimal(sec) == a % 60
  {
    m := PadStart(Decimal(a / 60), 2, '0');
    sec := PadStart(Decimal(a % 60), 2, '0');
    PaddedDecimal(a / 60);
    PaddedDecimal(a % 60);
  }

  /** Under 100 minutes, displays compare as strings the way the times compare
      as numbers. */
  lemma FormatKeepsOrder(a: nat, b: nat)
    requires a < 6000 && b < 6000
    ensures LexLess(FormatTime(a), FormatTime(b)) <==> a < b
  {
    var ma, sa := DisplayParts(a);
    var mb, sb := DisplayParts(b);
    ClockStringOrder(ma, sa, mb, sb);
    MinutesThenSeconds(a, b);
  }
}
