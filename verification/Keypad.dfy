/** The keypad: one thread turns key presses into Down and Up reports, a second one reports Up when presses stop. */
module Keypad {
  import opened Basics

  type uint16 = x: int | 0 <= x < 0x1_0000

  /** Presses of a held key arrive at most this far apart. */
  const REPEAT_FILTER_MS := 200

  /** What the input device is told; "detected" marks an Up by the second thread. */
  datatype Report = Down(key: uint16, at: nat) | Up(key: uint16, at: nat, detected: bool)

  /** Where the second thread stands while it does not hold the lock. */
  datatype Detector = Entering | Waiting | Signalled | Sleeping

  datatype Pad = Pad(key: uint16, up: bool, timer: uint32, reports: seq<Report>)

  /** The difference of two clock readings kept in 32-bit words. */
  function Elapsed(now: nat, timer: uint32): uint32 {
    Wrap32(Wrap32(now) - timer)
  }

  /**
   * A press: the same key only renews the time; another one ends the old key and starts the new; key 0 just ends it.
   */
  function Press(p: Pad, key: uint16, at: nat, stamp: nat): Pad {
    if key == p.key then (if key == 0 then p else p.(timer := Wrap32(stamp)))
    else
      var reports := if p.key == 0 then p.reports else p.reports + [Up(p.key, at, false)];
      if key == 0 then Pad(0, true, p.timer, reports)
      else Pad(key, false, Wrap32(stamp), reports + [Down(key, at)])
  }

  /** The second thread, at clock reading now: it ends a key not pressed for the filter time. */
  function Detect(p: Pad, now: nat, at: nat): Pad {
    if p.key != 0 && Elapsed(now, p.timer) >= REPEAT_FILTER_MS
    then Pad(0, true, p.timer, p.reports + [Up(p.key, at, true)])
    else p
  }

  /** Where the second thread goes from a stretch under the lock. */
  function DetectorNext(d: Detector, p: Pad, now: nat): Detector {
    if d == Entering && p.key == 0 then Waiting
    else if p.key != 0 && Elapsed(now, p.timer) < REPEAT_FILTER_MS then Sleeping
    else Entering
  }

  class Keypad {
    var lastKeyCode: uint16
    var lastKeyUp: bool
    var lastKeyTimerMs: uint32
    /** The reports the input device has had. */
    var reports: seq<Report>

    ghost predicate Valid()
      reads this
    {
      lastKeyUp <==> lastKeyCode == 0
    }

    ghost function State(): Pad
      reads this
    {
      Pad(lastKeyCode, lastKeyUp, lastKeyTimerMs, reports)
    }

    constructor ()
      ensures Valid() && State() == Pad(0, true, 0, [])
    {
      lastKeyCode, lastKeyUp, lastKeyTimerMs, reports := 0, true, 0, [];
    }

    /** Runs under the lock, reporting at time "at" and reading the clock afterwards; true means it signals. */
    method AddLastKeycode(key: uint16, at: nat, stamp: nat) returns (signals: bool)
      requires Valid()
      modifies this
      ensures Valid() && State() == Press(old(State()), key, at, stamp)
      ensures signals == (key != 0)
    {
      signals := false;
      if !lastKeyUp {
        if lastKeyCode == 0 {
          assert false;
        } else if key == lastKeyCode {
          lastKeyTimerMs := Wrap32(stamp);
          signals := true;
        } else {
          reports := reports + [Up(lastKeyCode, at, false)];
          lastKeyCode := 0;
          lastKeyUp := true;
        }
      }
      if key != lastKeyCode {
        lastKeyCode := key;
        lastKeyUp := false;
        reports := reports + [Down(key, at)];
        lastKeyTimerMs := Wrap32(stamp);
        signals := true;
      }
    }

    /** The second thread from taking the lock to giving it up: to wait, to sleep, or on its way out. */
    method OnLastKeyUp(d: Detector, now: nat, at: nat) returns (d': Detector)
      requires Valid()
      modifies this
      ensures Valid()
      ensures State() == if d == Entering && old(lastKeyUp) then old(State()) else Detect(old(State()), now, at)
      ensures d' == DetectorNext(d, old(State()), now)
    {
      if d == Entering && lastKeyUp {
        return Waiting;
      }
      if d == Sleeping && lastKeyUp {
        return Entering;
      }
      if lastKeyUp {
        return Entering;
      }
      if lastKeyCode == 0 {
        d' := Entering;
        assert false;
        return;
      }
      var elapsed := Elapsed(now, lastKeyTimerMs);
      if elapsed < REPEAT_FILTER_MS {
        return Sleeping;
      }
      reports := reports + [Up(lastKeyCode, at, true)];
      lastKeyCode := 0;
      lastKeyUp := true;
      d' := Entering;
    }
  }

  // ---------- two-thread runs ----------

  /**
   * One stretch under the lock: a press (reported at "at", clock read at "stamp") or the second thread's (clock read
   * first).
   */
  datatype Step =
    | Pressed(key: uint16, at: nat, stamp: nat)
    | Detected(now: nat, at: nat)

  datatype Sys = Sys(pad: Pad, detector: Detector, clock: nat)

  const INIT := Sys(Pad(0, true, 0, []), Entering, 0)

  /** Any thread may come next and a wait may end unsignalled; only the clock never steps back. */
  predicate Enabled(s: Sys, step: Step) {
    match step
    case Pressed(_, at, stamp) => s.clock <= at <= stamp
    case Detected(now, at) => s.clock <= now <= at
  }

  function Next(s: Sys, step: Step): Sys {
    match step
    case Pressed(key, at, stamp) =>
      Sys(Press(s.pad, key, at, stamp), if key != 0 && s.detector == Waiting then Signalled else s.detector, stamp)
    case Detected(now, at) =>
      Sys(Detect(s.pad, now, at), DetectorNext(s.detector, s.pad, now), at)
  }

  function Run(steps: seq<Step>): Sys {
    if steps == [] then INIT else Next(Run(steps[..|steps| - 1]), steps[|steps| - 1])
  }

  predicate Schedule(steps: seq<Step>) {
    forall i :: 0 <= i < |steps| ==> Enabled(Run(steps[..i]), steps[i])
  }

  predicate InTurn(reports: seq<Report>, i: nat)
    requires i < |reports|
  {
    if i % 2 == 0 then reports[i].Down? && reports[i].key != 0
    else reports[i].Up? && reports[i].key == reports[i - 1].key
  }

  /** Reports go Down, Up of that key, Down, Up of that key, ... */
  predicate Alternating(reports: seq<Report>) {
    forall i: nat | i < |reports| :: InTurn(reports, i)
  }

  /** The stored key is the one reported Down and not yet Up. */
  predicate Open(p: Pad) {
    && (p.key == 0 <==> |p.reports| % 2 == 0)
    && (p.key != 0 ==> p.reports[|p.reports| - 1].key == p.key)
  }

  predicate Inv(s: Sys) {
    && (s.pad.up <==> s.pad.key == 0)
    && Alternating(s.pad.reports) && Open(s.pad)
    && (s.detector == Waiting ==> s.pad.key == 0)
  }

  /**
   * In every two-thread schedule: strict alternation, "last key up" exactly when the stored key is 0, and the
   * second thread never waits unsignalled while a key is down.
   */
  lemma {:induction false} ReportsAlternate(steps: seq<Step>)
    requires Schedule(steps)
    ensures Inv(Run(steps))
  {
    if steps != [] {
      var n := |steps| - 1;
      SchedulePrefix(steps, n);
      ReportsAlternate(steps[..n]);
      StepAlternates(Run(steps[..n]), steps[n]);
    }
  }

  lemma {:induction false} SchedulePrefix(steps: seq<Step>, n: nat)
    requires Schedule(steps) && n <= |steps|
    ensures Schedule(steps[..n])
  {
  }

  lemma {:induction false} StepAlternates(s: Sys, step: Step)
    requires Inv(s)
    ensures Inv(Next(s, step))
  {
    var p, q := s.pad, Next(s, step).pad;
    match step
    case Pressed(key, at, stamp) =>
      var ended := if p.key == 0 then p.reports else p.reports + [Up(p.key, at, false)];
      if key != p.key && p.key != 0 {
        AlternatingMore(p.reports, Up(p.key, at, false));
      }
      if key != p.key && key != 0 {
        AlternatingMore(ended, Down(key, at));
      }
    case Detected(now, at) =>
      if q != p {
        AlternatingMore(p.reports, Up(p.key, at, true));
      }
  }

  lemma {:induction false} AlternatingMore(reports: seq<Report>, r: Report)
    requires Alternating(reports) && InTurn(reports + [r], |reports|)
    ensures Alternating(reports + [r])
  {
    forall i: nat | i < |reports| ensures InTurn(reports + [r], i) {
      assert InTurn(reports, i);
    }
  }

  predicate PressesBy(steps: seq<Step>, time: nat) {
    forall i :: 0 <= i < |steps| && steps[i].Pressed? ==> steps[i].at <= time
  }

  /** The stored time is a clock reading taken after all presses. */
  predicate Stamped(steps: seq<Step>, s: Sys, stamp: nat) {
    && stamp <= s.clock && PressesBy(steps, s.clock)
    && (s.pad.key != 0 ==> s.pad.timer == Wrap32(stamp) && PressesBy(steps, stamp))
  }

  lemma {:induction false} LatestPressIsStamped(steps: seq<Step>) returns (stamp: nat)
    requires Schedule(steps)
    ensures Stamped(steps, Run(steps), stamp)
  {
    stamp := 0;
    if steps != [] {
      var n := |steps| - 1;
      SchedulePrefix(steps, n);
      stamp := LatestPressIsStamped(steps[..n]);
      stamp := StepIsStamped(steps[..n], Run(steps[..n]), steps[n], stamp);
      assert steps[..n] + [steps[n]] == steps;
    }
  }

  lemma {:induction false} StepIsStamped(steps: seq<Step>, s: Sys, step: Step, stamp: nat) returns (stamp': nat)
    requires Stamped(steps, s, stamp) && Enabled(s, step)
    ensures Stamped(steps + [step], Next(s, step), stamp')
  {
    stamp' := if step.Pressed? && step.key != 0 then step.stamp else stamp;
  }

  lemma {:induction false} DetectedAfterPresses(steps: seq<Step>, s: Sys, step: Step, stamp: nat)
    requires Stamped(steps, s, stamp) && step.Detected? && Enabled(s, step)
    requires Next(s, step).pad != s.pad
    ensures Next(s, step).pad.reports == s.pad.reports + [Up(s.pad.key, step.at, true)]
    ensures step.at >= REPEAT_FILTER_MS && PressesBy(steps, step.at - REPEAT_FILTER_MS)
  {
  }

  /** An Up by the second thread comes at least the filter time after every earlier press, so after the key's latest. */
  lemma {:induction false} DetectedUpIsLate(steps: seq<Step>, step: Step, i: nat)
    requires Schedule(steps) && step.Detected? && Enabled(Run(steps), step)
    requires Next(Run(steps), step).pad != Run(steps).pad
    requires i < |steps| && steps[i].Pressed?
    ensures var before := Run(steps).pad;
            Next(Run(steps), step).pad.reports == before.reports + [Up(before.key, step.at, true)]
    ensures steps[i].at + REPEAT_FILTER_MS <= step.at
  {
    var stamp := LatestPressIsStamped(steps);
    DetectedAfterPresses(steps, Run(steps), step, stamp);
  }

  /** The clock reading of the last press, whatever its key. */
  function LastStamp(steps: seq<Step>): nat {
    if steps == [] then 0
    else
      var last := steps[|steps| - 1];
      if last.Pressed? then last.stamp else LastStamp(steps[..|steps| - 1])
  }

  /** While a key is down, the stored time is the clock reading of the last press. */
  lemma {:induction false} TimerIsLastStamp(steps: seq<Step>)
    requires Schedule(steps)
    ensures var s := Run(steps);
            LastStamp(steps) <= s.clock && (s.pad.key != 0 ==> s.pad.timer == Wrap32(LastStamp(steps)))
  {
    if steps != [] {
      var n := |steps| - 1;
      SchedulePrefix(steps, n);
      TimerIsLastStamp(steps[..n]);
      assert Enabled(Run(steps[..n]), steps[n]);
    }
  }

  /** Where 32-bit words show the time as long enough. */
  predicate LooksOver(passed: nat) {
    passed % TWO_TO_THE_32 >= REPEAT_FILTER_MS
  }

  lemma {:induction false} ElapsedIs(now: nat, stamp: nat)
    requires stamp <= now
    ensures Elapsed(now, Wrap32(stamp)) == (now - stamp) % TWO_TO_THE_32
  {
    var a, b := now / TWO_TO_THE_32, stamp / TWO_TO_THE_32;
    assert Wrap32(now) - Wrap32(stamp) == now - stamp - (a - b) * TWO_TO_THE_32;
    SameRemainder(now - stamp, Wrap32(now) - Wrap32(stamp), a - b);
  }

  lemma {:induction false} SameRemainder(x: int, y: int, k: int)
    requires y == x - k * TWO_TO_THE_32
    ensures y % TWO_TO_THE_32 == x % TWO_TO_THE_32
  {}

  /**
   * After any schedule, a look of the second thread reports the Up exactly if a key is down and the time since the last
   * press, as 32-bit words show it, is at least the filter time; otherwise it changes nothing.
   */
  lemma {:induction false} DetectorReportsExactly(steps: seq<Step>, now: nat, at: nat)
    requires Schedule(steps) && Enabled(Run(steps), Detected(now, at))
    ensures var before, after := Run(steps).pad, Next(Run(steps), Detected(now, at)).pad;
            && LastStamp(steps) <= now
            && (after.reports == before.reports + [Up(before.key, at, true)] <==>
                before.key != 0 && LooksOver(now - LastStamp(steps)))
            && (after != before ==> after.reports == before.reports + [Up(before.key, at, true)])
  {
    TimerIsLastStamp(steps);
    ElapsedIs(now, LastStamp(steps));
  }

  /** So a look that comes late is right exactly if it is not in the first 200 ms after a multiple of 2^32 ms. */
  lemma {:induction false} LooksOverExactly(passed: nat)
    ensures (LooksOver(passed) <==> passed >= REPEAT_FILTER_MS) <==>
            forall k: nat :: k > 0 ==> !(k * TWO_TO_THE_32 <= passed < k * TWO_TO_THE_32 + REPEAT_FILTER_MS)
  {
    var k, r := passed / TWO_TO_THE_32, passed % TWO_TO_THE_32;
    assert passed == k * TWO_TO_THE_32 + r;
    if k > 0 && r < REPEAT_FILTER_MS {
      assert k * TWO_TO_THE_32 <= passed < k * TWO_TO_THE_32 + REPEAT_FILTER_MS;
    }
    forall j: nat | j > 0 && j * TWO_TO_THE_32 <= passed < j * TWO_TO_THE_32 + REPEAT_FILTER_MS
      ensures r < REPEAT_FILTER_MS && passed >= REPEAT_FILTER_MS
    {
      SameRemainder(passed, passed - j * TWO_TO_THE_32, j);
    }
  }

  /** A press, and a look almost fifty days later that takes the key for just pressed. */
  lemma {:induction false} LookIsMissed()
    ensures var press := [Pressed(5, 0, 0)];
            var look := Detected(TWO_TO_THE_32 + 199, TWO_TO_THE_32 + 199);
            && Schedule(press) && Enabled(Run(press), look)
            && Next(Run(press), look).pad == Run(press).pad && Run(press).pad.key == 5
  {
    var press := [Pressed(5, 0, 0)];
    assert press[..0] == [] && Run(press[..0]) == INIT;
  }

  // ---------- the reports of a run, from presses and looks alone ----------

  /** The key held down: the last one pressed, unless a look found it not pressed for the filter time. */
  function KeyDown(steps: seq<Step>): uint16
    decreases |steps|, 0
  {
    if steps == [] then 0
    else
      var before, last := steps[..|steps| - 1], steps[|steps| - 1];
      match last
      case Pressed(key, _, _) => key
      case Detected(now, _) => if LookEnds(before, now) then 0 else KeyDown(before)
  }

  predicate LookEnds(before: seq<Step>, now: nat)
    decreases |before|, 1
  {
    KeyDown(before) != 0 && LastStamp(before) <= now && LooksOver(now - LastStamp(before))
  }

  /** A press ends the key that was down, if it is another one, and starts its own, unless that is 0 or down already. */
  function PressReports(down: uint16, key: uint16, at: nat): seq<Report> {
    (if down != 0 && down != key then [Up(down, at, false)] else [])
    + (if key != 0 && down != key then [Down(key, at)] else [])
  }

  function Expected(steps: seq<Step>): seq<Report> {
    if steps == [] then []
    else
      var before, last := steps[..|steps| - 1], steps[|steps| - 1];
      match last
      case Pressed(key, at, _) => Expected(before) + PressReports(KeyDown(before), key, at)
      case Detected(now, at) => Expected(before) + if LookEnds(before, now) then [Up(KeyDown(before), at, true)] else []
  }

  /**
   * After every schedule the stored key is the one held down, and the reports are exactly those of the presses and the
   * looks: no press is lost, none is reported twice, and each names its own key.
   */
  lemma {:induction false} ReportsExactly(steps: seq<Step>)
    requires Schedule(steps)
    ensures Run(steps).pad.key == KeyDown(steps) && Run(steps).pad.reports == Expected(steps)
  {
    if steps != [] {
      var n := |steps| - 1;
      var before := steps[..n];
      SchedulePrefix(steps, n);
      ReportsExactly(before);
      assert Enabled(Run(before), steps[n]);
      match steps[n]
      case Pressed(key, at, stamp) => PressIsExpected(Run(before).pad, key, at, stamp);
      case Detected(now, at) => LookIsExpected(before, now, at);
    }
  }

  /**
   * Where the second thread stands after a schedule: after a look it waits only if no key is down, sleeps exactly if
   * one is and was pressed too lately, and else begins again; a key pressed while it waits signals it.
   */
  lemma {:induction false} DetectorIsExpected(steps: seq<Step>)
    requires Schedule(steps) && steps != []
    ensures var before, last := steps[..|steps| - 1], steps[|steps| - 1];
            var d := Run(before).detector;
            Run(steps).detector == match last
              case Pressed(key, _, _) => if d == Waiting && key != 0 then Signalled else d
              case Detected(now, _) =>
                if KeyDown(before) == 0 then (if d == Entering then Waiting else Entering)
                else if LookEnds(before, now) then Entering else Sleeping
  {
    var n := |steps| - 1;
    SchedulePrefix(steps, n);
    ReportsExactly(steps[..n]);
    TimerIsLastStamp(steps[..n]);
    assert Enabled(Run(steps[..n]), steps[n]);
    if steps[n].Detected? {
      ElapsedIs(steps[n].now, LastStamp(steps[..n]));
    }
  }

  lemma {:induction false} PressIsExpected(p: Pad, key: uint16, at: nat, stamp: nat)
    ensures Press(p, key, at, stamp).key == key
    ensures Press(p, key, at, stamp).reports == p.reports + PressReports(p.key, key, at)
  {
    assert p.reports + [Up(p.key, at, false)] + [Down(key, at)] ==
           p.reports + ([Up(p.key, at, false)] + [Down(key, at)]);
  }

  lemma {:induction false} LookIsExpected(before: seq<Step>, now: nat, at: nat)
    requires Schedule(before) && Enabled(Run(before), Detected(now, at)) && Run(before).pad.key == KeyDown(before)
    ensures var p := Run(before).pad;
            var q := Detect(p, now, at);
            if LookEnds(before, now) then q.key == 0 && q.reports == p.reports + [Up(p.key, at, true)] else q == p
  {
    TimerIsLastStamp(before);
    ElapsedIs(now, LastStamp(before));
  }
}
