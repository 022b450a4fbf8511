/**
  The gesture screen: drawing a path over the 3x3 grid, the two-draw setup
  protocol, the unlock attempt, and the secret seven-tap reset on the centre
  cell. Hit-testing is done before the model: the handlers receive the cell
  under the pointer, or `None`. The delayed `reset` calls happen at the end
  of the handler that schedules them, and the transient `error` flag each
  handler raises is reported as its result.
*/
module Gesture {
  import opened Wrappers
  import opened Lists
  import opened Encryption

  /** A pattern needs at least this many cells, for setup and for unlock. */
  const MIN_CELLS := 4
  /** The centre cell carries the secret reset taps. */
  const CENTER_CELL: Cell := 4
  /** Taps needed to fire the reset. */
  const RESET_TAPS := 7
  /** A longer gap between taps restarts the count. */
  const TAP_GAP_MS := 3000

  /** What ending an interaction did. */
  datatype EndResult =
    | Ignored                         // not drawing: no-op
    | StoppedEmpty                    // nothing drawn: drawing stops
    | TooShort                        // setup draw under four cells: error, reset
    | FirstRecorded                   // first setup draw stored, confirmation asked
    | Confirmed(pattern: seq<Cell>)   // redraw matches: `onSetGesture(pattern)`
    | Mismatch                        // redraw differs: error, back to the first draw
    | UnlockTooShort                  // unlock draw under four cells: reset, no attempt
    | UnlockAttempt(pattern: seq<Cell>) // `onUnlock(pattern)`, error shown, reset
  {
    /** The pattern handed to the app, if any. */
    predicate HandsOver() {
      Confirmed? || UnlockAttempt?
    }
    /** The handler raised the `error` flag. */
    predicate FlagsError() {
      TooShort? || Mismatch? || UnlockAttempt?
    }
  }

  /** The decision `handleInteractionEnd` takes from the screen's state. */
  function EndOutcome(hasGesture: bool, isDrawing: bool, path: seq<Cell>, confirming: bool, firstPattern: seq<Cell>): (r: EndResult)
    ensures r.Ignored? <==> !isDrawing
    ensures r.StoppedEmpty? <==> isDrawing && path == []
    ensures r.TooShort? || r.UnlockTooShort? <==> isDrawing && 0 < |path| < MIN_CELLS
    ensures r.HandsOver() ==> r.pattern == path && |path| >= MIN_CELLS
    ensures r.FirstRecorded? || r.Confirmed? || r.Mismatch? || r.TooShort? ==> !hasGesture
  {
    if !isDrawing then Ignored
    else if path == [] then StoppedEmpty
    else if !hasGesture then
      if |path| < MIN_CELLS then TooShort
      else if !confirming then FirstRecorded
      else if firstPattern == path then Confirmed(path)
      else Mismatch
    else if |path| < MIN_CELLS then UnlockTooShort
    else UnlockAttempt(path)
  }

  /**
    The gesture is set exactly when, during setup confirmation, the redraw
    equals the first draw cell by cell, order included; the pattern set is
    that draw.
  */
  lemma SetOnlyOnExactRedraw(hasGesture: bool, isDrawing: bool, path: seq<Cell>, confirming: bool, firstPattern: seq<Cell>)
    requires !confirming || |firstPattern| >= MIN_CELLS
    ensures var r := EndOutcome(hasGesture, isDrawing, path, confirming, firstPattern);
            r.Confirmed? <==> isDrawing && !hasGesture && confirming && path == firstPattern
    ensures var r := EndOutcome(hasGesture, isDrawing, path, confirming, firstPattern);
            r.Confirmed? ==> r.pattern == firstPattern
  {
  }

  /** Every pattern handed to the app is the drawn path and has at least four cells. */
  lemma HandedPatternsHaveFourCells(hasGesture: bool, isDrawing: bool, path: seq<Cell>, confirming: bool, firstPattern: seq<Cell>)
    ensures var r := EndOutcome(hasGesture, isDrawing, path, confirming, firstPattern);
            r.HandsOver() ==> r.pattern == path && |r.pattern| >= MIN_CELLS
    ensures var r := EndOutcome(hasGesture, isDrawing, path, confirming, firstPattern);
            r.HandsOver() <==> isDrawing && |path| >= MIN_CELLS && (hasGesture || (confirming && path == firstPattern))
  {
  }

  /** A first setup draw never sets the gesture, and an unlock attempt happens only when a gesture exists. */
  lemma SetupAndUnlockAreSeparate(hasGesture: bool, isDrawing: bool, path: seq<Cell>, confirming: bool, firstPattern: seq<Cell>)
    ensures !confirming ==> !EndOutcome(hasGesture, isDrawing, path, confirming, firstPattern).Confirmed?
    ensures EndOutcome(hasGesture, isDrawing, path, confirming, firstPattern).UnlockAttempt? ==> hasGesture
    ensures EndOutcome(hasGesture, isDrawing, path, confirming, firstPattern).Confirmed? ==> !hasGesture
  {
  }

  /** One tap on the centre cell: the new counter, and whether the reset fired. */
  datatype Tap = Tap(clicks: int, fired: bool)

  /**
    `handleCenterDotClick` with the reset timer run at once. The firing test
    reads the counter as it was before the tap, so it ignores a restart the
    same tap causes.
  */
  function TapStep(clicks: int, lastClickTime: int, now: int): (t: Tap)
    ensures t.fired <==> clicks + 1 >= RESET_TAPS
    ensures t.fired ==> t.clicks == 0
    ensures !t.fired && now - lastClickTime > TAP_GAP_MS ==> t.clicks == 1
    ensures !t.fired && now - lastClickTime <= TAP_GAP_MS ==> t.clicks == clicks + 1
    ensures 0 <= clicks < RESET_TAPS ==> 0 <= t.clicks < RESET_TAPS
  {
    var counted := if now - lastClickTime > TAP_GAP_MS then 1 else clicks + 1;
    if clicks + 1 >= RESET_TAPS then Tap(0, true) else Tap(counted, false)
  }

  /** A series of taps at the given times; `fired` says whether any of them fired the reset. */
  function Taps(clicks: int, lastClickTime: int, times: seq<int>): (t: Tap)
    ensures 0 <= clicks < RESET_TAPS ==> 0 <= t.clicks < RESET_TAPS
    ensures t.fired ==> times != []
    decreases |times|
  {
    if times == [] then Tap(clicks, false)
    else
      var first := TapStep(clicks, lastClickTime, times[0]);
      var rest := Taps(first.clicks, times[0], times[1..]);
      Tap(rest.clicks, first.fired || rest.fired)
  }

  /** Each tap comes within the allowed gap of the one before. */
  predicate Quick(times: seq<int>) {
    forall i :: 1 <= i < |times| ==> times[i] - times[i - 1] <= TAP_GAP_MS
  }

  /** Up to six quick taps after a pause just count up from one, and none of them fires. */
  lemma {:induction false} QuickTapsCount(clicks: int, lastClickTime: int, times: seq<int>)
    requires 0 <= clicks && clicks + |times| < RESET_TAPS
    requires Quick(times)
    requires times != [] ==> clicks == 0 && times[0] - lastClickTime > TAP_GAP_MS
    ensures Taps(clicks, lastClickTime, times) == Tap(if times == [] then clicks else |times|, false)
    decreases |times|
  {
    if times != [] {
      var first := TapStep(clicks, lastClickTime, times[0]);
      assert first == Tap(1, false);
      QuickTapsFrom(1, times[0], times[1..]);
    }
  }

  /** Quick taps on top of a counter below seven just add one each. */
  lemma {:induction false} QuickTapsFrom(clicks: int, lastClickTime: int, times: seq<int>)
    requires 0 <= clicks && clicks + |times| < RESET_TAPS
    requires Quick([lastClickTime] + times)
    ensures Taps(clicks, lastClickTime, times) == Tap(clicks + |times|, false)
    decreases |times|
  {
    if times != [] {
      var s := [lastClickTime] + times;
      assert s[1] - s[0] <= TAP_GAP_MS;
      assert s[1] == times[0] && s[0] == lastClickTime;
      assert TapStep(clicks, lastClickTime, times[0]) == Tap(clicks + 1, false);
      assert Quick([times[0]] + times[1..]) by {
        forall i | 1 <= i < |[times[0]] + times[1..]|
          ensures ([times[0]] + times[1..])[i] - ([times[0]] + times[1..])[i - 1] <= TAP_GAP_MS
        {
          assert ([times[0]] + times[1..]) == times;
          assert ([lastClickTime] + times)[i + 1] == times[i];
          assert ([lastClickTime] + times)[i] == times[i - 1];
        }
      }
      QuickTapsFrom(clicks + 1, times[0], times[1..]);
    }
  }

  /** Seven quick taps after a pause fire the reset on the seventh, and the counter is back at zero. */
  lemma SeventhQuickTapFires(lastClickTime: int, times: seq<int>)
    requires |times| == RESET_TAPS && Quick(times)
    requires times[0] - lastClickTime > TAP_GAP_MS
    ensures !Taps(0, lastClickTime, times[..6]).fired
    ensures Taps(0, lastClickTime, times) == Tap(0, true)
  {
    QuickTapsCount(0, lastClickTime, times[..6]);
    TapsSplit(0, lastClickTime, times[..6], times[6..]);
    assert times[..6] + times[6..] == times;
    assert Taps(6, times[5], times[6..]) == Tap(0, true);
  }

  /** A series of taps is the second part run after the first. */
  lemma {:induction false} TapsSplit(clicks: int, lastClickTime: int, a: seq<int>, b: seq<int>)
    requires a != []
    ensures var ta := Taps(clicks, lastClickTime, a);
            var tb := Taps(ta.clicks, a[|a| - 1], b);
            Taps(clicks, lastClickTime, a + b) == Tap(tb.clicks, ta.fired || tb.fired)
    decreases |a|
  {
    assert (a + b)[0] == a[0];
    assert (a + b)[1..] == a[1..] + b;
    if |a| > 1 {
      var first := TapStep(clicks, lastClickTime, a[0]);
      TapsSplit(first.clicks, a[0], a[1..], b);
      assert a[1..][|a[1..]| - 1] == a[|a| - 1];
    } else {
      assert a[1..] == [];
      assert a[1..] + b == b;
    }
  }

  /**
    The firing test uses the counter from before the tap: a counter left at
    six fires on the next tap whatever the pause, even one long enough that
    the count itself restarts at one.
  */
  lemma StaleCounterFiresAfterPause(lastClickTime: int, now: int)
    ensures TapStep(RESET_TAPS - 1, lastClickTime, now) == Tap(0, true)
  {
  }

  class GestureUnlockScreen {
    /** Whether a gesture hash is stored (the `hasGesture` prop). */
    var hasGesture: bool
    var path: seq<Cell>
    var isDrawing: bool
    var error: bool
    var confirming: bool
    var firstPattern: seq<Cell>
    var centerDotClicks: int
    var lastClickTime: int

    /** No cell twice in a path; a pattern awaiting confirmation is a valid setup draw. */
    ghost predicate Valid()
      reads this
    {
      && Distinct(path)
      && (confirming ==> |firstPattern| >= MIN_CELLS && Distinct(firstPattern))
      && centerDotClicks >= 0
    }

    /** The state `reset` leaves: no path, not drawing, no error. */
    predicate IsReset()
      reads this
    {
      path == [] && !isDrawing && !error
    }

    constructor (hasGesture: bool)
      ensures Valid() && IsReset()
      ensures this.hasGesture == hasGesture && !confirming && firstPattern == []
      ensures centerDotClicks == 0 && lastClickTime == 0
    {
      this.hasGesture := hasGesture;
      path := [];
      isDrawing := false;
      error := false;
      confirming := false;
      firstPattern := [];
      centerDotClicks := 0;
      lastClickTime := 0;
    }

    /** A new `hasGesture` prop value from the app. */
    method SetHasGesture(hasGesture: bool)
      requires Valid()
      modifies this
      ensures Valid()
      ensures this.hasGesture == hasGesture
      ensures path == old(path) && isDrawing == old(isDrawing) && error == old(error)
      ensures confirming == old(confirming) && firstPattern == old(firstPattern)
      ensures centerDotClicks == old(centerDotClicks) && lastClickTime == old(lastClickTime)
    {
      this.hasGesture := hasGesture;
    }

    /** `reset`: clears the path and the error, stops drawing. */
    method Reset()
      requires Valid()
      modifies this
      ensures Valid() && IsReset()
      ensures hasGesture == old(hasGesture) && confirming == old(confirming) && firstPattern == old(firstPattern)
      ensures centerDotClicks == old(centerDotClicks) && lastClickTime == old(lastClickTime)
    {
      path := [];
      isDrawing := false;
      error := false;
    }

    /** `handleInteractionStart`: drawing starts; a hit on a cell restarts the path there. */
    method InteractionStart(hit: Option<Cell>)
      requires Valid()
      modifies this
      ensures Valid()
      ensures isDrawing
      ensures path == if hit.Some? then [hit.value] else old(path)
      ensures hasGesture == old(hasGesture) && error == old(error)
      ensures confirming == old(confirming) && firstPattern == old(firstPattern)
      ensures centerDotClicks == old(centerDotClicks) && lastClickTime == old(lastClickTime)
    {
      isDrawing := true;
      if hit.Some? {
        path := [hit.value];
      }
    }

    /** `handleInteractionMove`: while drawing, a hit on a cell not yet in the path appends it. */
    method InteractionMove(hit: Option<Cell>)
      requires Valid()
      modifies this
      ensures Valid()
      ensures path == if old(isDrawing) && hit.Some? && hit.value !in old(path) then old(path) + [hit.value] else old(path)
      ensures old(path) <= path
      ensures hasGesture == old(hasGesture) && isDrawing == old(isDrawing) && error == old(error)
      ensures confirming == old(confirming) && firstPattern == old(firstPattern)
      ensures centerDotClicks == old(centerDotClicks) && lastClickTime == old(lastClickTime)
    {
      if !isDrawing {
        return;
      }
      if hit.Some? && hit.value !in path {
        path := path + [hit.value];
      }
    }

    /**
      `handleInteractionEnd`, with the scheduled `reset` run at once. The
      result is `EndOutcome` of the state before the call; the new state:
      a too-short setup draw keeps the confirmation state, the first draw is
      stored for confirmation, a mismatch returns to the first draw, and a
      successful confirmation leaves the screen as it is.
    */
    method InteractionEnd() returns (r: EndResult)
      requires Valid()
      modifies this
      ensures Valid()
      ensures r == EndOutcome(old(hasGesture), old(isDrawing), old(path), old(confirming), old(firstPattern))
      ensures r.Ignored? || r.Confirmed? ==>
                path == old(path) && isDrawing == old(isDrawing) && error == old(error)
      ensures r.StoppedEmpty? ==> path == old(path) && !isDrawing && error == old(error)
      ensures !(r.Ignored? || r.Confirmed? || r.StoppedEmpty?) ==> IsReset()
      ensures r.FirstRecorded? ==> confirming && firstPattern == old(path)
      ensures r.Mismatch? ==> !confirming && firstPattern == []
      ensures !(r.FirstRecorded? || r.Mismatch?) ==> confirming == old(confirming) && firstPattern == old(firstPattern)
      ensures hasGesture == old(hasGesture)
      ensures centerDotClicks == old(centerDotClicks) && lastClickTime == old(lastClickTime)
    {
      if !isDrawing {
        return Ignored;
      }
      if |path| > 0 {
        if !hasGesture {
          if |path| < MIN_CELLS {
            error := true;
            Reset();
            return TooShort;
          }
          if !confirming {
            firstPattern := path;
            confirming := true;
            Reset();
            return FirstRecorded;
          } else {
            if firstPattern == path {
              return Confirmed(path);
            } else {
              error := true;
              confirming := false;
              firstPattern := [];
              Reset();
              return Mismatch;
            }
          }
        } else {
          if |path| < MIN_CELLS {
            Reset();
            return UnlockTooShort;
          }
          var attempted := path;
          error := true;
          Reset();
          return UnlockAttempt(attempted);
        }
      } else {
        isDrawing := false;
        return StoppedEmpty;
      }
    }

    /**
      `handleCenterDotClick`, with the reset timer run at once: the counter
      and whether `onResetGesture` fired are `TapStep` of the state before.
    */
    method CenterDotClick(now: int) returns (resetFired: bool)
      requires Valid()
      modifies this
      ensures Valid()
      ensures Tap(centerDotClicks, resetFired) == TapStep(old(centerDotClicks), old(lastClickTime), now)
      ensures lastClickTime == now
      ensures hasGesture == old(hasGesture) && path == old(path) && isDrawing == old(isDrawing) && error == old(error)
      ensures confirming == old(confirming) && firstPattern == old(firstPattern)
    {
      var timeDiff := now - lastClickTime;
      var clicksBefore := centerDotClicks;
      if timeDiff > TAP_GAP_MS {
        centerDotClicks := 1;
      } else {
        centerDotClicks := centerDotClicks + 1;
      }
      lastClickTime := now;
      resetFired := false;
      if clicksBefore + 1 >= RESET_TAPS {
        centerDotClicks := 0;
        resetFired := true;
      }
    }
  }
}
