/**
 * The scrollback log of the game's log widget (`Logger` in
 * src/ui_components/logger.rs): a deque of lines to which `Logger::send_log`
 * appends with a cap of 250 (other writers may use a higher cap), and a
 * cached "window", the slice of the log that is drawn, whose bottom edge sits
 * `logScroll` lines behind the newest entry.
 */
module ScrollbackLog {
  import opened Options
  import opened BoundedFifo

  /** The capacity `Logger::new` gives the history. */
  const HistorySize: nat := 250

  /** `usize::saturating_sub`. */
  function SaturatingSub(a: nat, b: nat): (r: nat)
    ensures a >= b ==> r + b == a
    ensures a < b ==> r == 0
  {
    if a >= b then a - b else 0
  }

  /**
   * The window `update_window` computes: the scroll offset is clamped to the
   * log's length, the window ends that many entries before the newest one and
   * holds at most `size` entries.
   */
  function Visible(log: seq<string>, scroll: nat, size: nat): (w: seq<string>)
    ensures |w| == Min(size, |log| - Min(scroll, |log|))
    ensures forall i :: 0 <= i < |w| ==> w[i] == log[|log| - Min(scroll, |log|) - |w| + i]
  {
    var end := SaturatingSub(|log|, Min(scroll, |log|));
    var start := SaturatingSub(end, size);
    log[start..end]
  }

  /** Refreshing twice gives the same offset and window as refreshing once. */
  lemma RefreshIdempotent(log: seq<string>, scroll: nat, size: nat)
    ensures Min(Min(scroll, |log|), |log|) == Min(scroll, |log|)
    ensures Visible(log, Min(scroll, |log|), size) == Visible(log, scroll, size)
  {
  }

  /** A window height of 0 shows nothing, whatever the log and the offset. */
  lemma ZeroHeightShowsNothing(log: seq<string>, scroll: nat)
    ensures Visible(log, scroll, 0) == []
  {
  }

  /** At offset 0 with a non-zero height, the window's last line is the newest entry. */
  lemma PinnedShowsNewest(log: seq<string>, size: nat)
    requires log != [] && size > 0
    ensures Visible(log, 0, size) != []
    ensures Visible(log, 0, size)[|Visible(log, 0, size)| - 1] == log[|log| - 1]
  {
  }

  /**
   * The offset counts lines back from the newest entry, so an append (without
   * eviction) followed by a refresh shows the window one line newer than before:
   * a view scrolled back into history is not held in place.
   */
  lemma AppendSlidesWindow(log: seq<string>, m: string, scroll: nat, size: nat)
    requires scroll >= 1
    ensures Visible(log + [m], scroll, size) == Visible(log, scroll - 1, size)
  {
  }

  /**
   * The same slide at the cap: the append evicts the oldest entry, so the window
   * one line newer is shown as before, except that it loses its first line when
   * it reached back to the oldest entry.
   */
  lemma EvictingAppendSlidesWindow(log: seq<string>, cap: nat, m: string, scroll: nat, size: nat)
    requires |log| >= cap && log != [] && scroll >= 1
    ensures var w := Visible(log, scroll - 1, size);
      Visible(Push(log, cap, m), scroll, size) ==
        if w != [] && |w| == |log| - Min(scroll - 1, |log|) then w[1..] else w
  {
    var next := Push(log, cap, m);
    assert next == log[1..] + [m];
    var w := Visible(log, scroll - 1, size);
    var a := Visible(next, scroll, size);
    var b := if w != [] && |w| == |log| - Min(scroll - 1, |log|) then w[1..] else w;
    assert |a| == |b|;
    forall i | 0 <= i < |a|
      ensures a[i] == b[i]
    {
      assert a[i] == next[|next| - Min(scroll, |next|) - |a| + i];
    }
  }

  /**
   * `scroll_down` moves only while the offset is below the window's length, so on a
   * refreshed window it is enabled exactly when the offset is below the window
   * height and below half the log.
   */
  lemma ScrollDownEnabled(log: seq<string>, scroll: nat, size: nat)
    requires scroll <= |log|
    ensures scroll < |Visible(log, scroll, size)| <==> scroll < size && 2 * scroll < |log|
  {
  }

  /**
   * On a window refreshed with height 0, `scroll_down` cannot move. A cached window
   * from an earlier, larger height can still let it move once.
   */
  lemma ZeroHeightBlocksScrollDown(log: seq<string>, scroll: nat)
    ensures !(scroll < |Visible(log, scroll, 0)|)
  {
    ZeroHeightShowsNothing(log, scroll);
  }

  class Logger {
    var log: seq<string>
    const historySize: nat
    var windowSize: nat
    var window: seq<string>
    var logScroll: nat

    /** What every method keeps: the offset and the cached window never exceed the log. */
    ghost predicate Valid()
      reads this
    {
      logScroll <= |log| && |window| <= |log|
    }

    /** The window is the slice the current log, offset and height give. */
    ghost predicate Fresh()
      reads this
    {
      window == Visible(log, logScroll, windowSize)
    }

    constructor ()
      ensures Valid() && Fresh()
      ensures log == [] && window == [] && logScroll == 0 && windowSize == 0
      ensures historySize == HistorySize
    {
      log := [];
      historySize := HistorySize;
      windowSize := 0;
      window := [];
      logScroll := 0;
    }

    /**
     * Appends a message (FIFO, capped at `historySize`); `None` appends nothing.
     * The follow check at the end reassigns the value `logScroll` already has, so
     * the offset, the window and its height never change here.
     */
    method SendLog(message: Option<string>)
      modifies this
      ensures log == (if message.Some? then Push(old(log), historySize, message.value) else old(log))
      ensures logScroll == old(logScroll) && window == old(window) && windowSize == old(windowSize)
      ensures old(|log|) <= Max(historySize, 1) ==> |log| <= Max(historySize, 1)
      ensures old(Valid()) ==> Valid()
    {
      if message.Some? {
        ghost var before := log;
        if |log| >= historySize {
          log := PopFront(log);
        }
        log := log + [message.value];
        assert log == Push(before, historySize, message.value);
      }
      var maxScroll := SaturatingSub(|window|, windowSize);
      if logScroll == maxScroll {
        logScroll := SaturatingSub(|window|, windowSize);
      }
    }

    method SetWindowSize(lineNumber: nat)
      modifies this
      ensures windowSize == lineNumber
      ensures log == old(log) && window == old(window) && logScroll == old(logScroll)
      ensures old(Valid()) ==> Valid()
    {
      windowSize := lineNumber;
    }

    /** Moves the window one line further back into history, while the offset is below the window's length. */
    method ScrollDown()
      modifies this
      ensures log == old(log) && windowSize == old(windowSize)
      ensures if old(logScroll) < |old(window)|
              then logScroll == Min(old(logScroll) + 1, |log|) && Fresh()
              else logScroll == old(logScroll) && window == old(window)
      ensures old(Valid()) && old(logScroll) < |old(window)| ==> logScroll == old(logScroll) + 1
      ensures old(Valid()) ==> Valid()
    {
      if logScroll < |window| {
        logScroll := logScroll + 1;
        UpdateWindow();
      }
    }

    /** Moves the window one line towards the newest entry, stopping at offset 0. */
    method ScrollUp()
      modifies this
      ensures log == old(log) && windowSize == old(windowSize)
      ensures if old(logScroll) > 0
              then logScroll == Min(old(logScroll) - 1, |log|) && Fresh()
              else logScroll == old(logScroll) && window == old(window)
      ensures old(Valid()) && old(logScroll) > 0 ==> logScroll == old(logScroll) - 1
      ensures old(Valid()) ==> Valid()
    {
      if logScroll > 0 {
        logScroll := logScroll - 1;
        UpdateWindow();
      }
    }

    /**
     * Clamps the offset to the log's length and rebuilds the window from the log,
     * one entry at a time from `start` to `end`.
     */
    method UpdateWindow()
      modifies this
      ensures log == old(log) && windowSize == old(windowSize)
      ensures logScroll == Min(old(logScroll), |log|)
      ensures Fresh() && Valid()
      ensures |window| <= windowSize
    {
      var total := |log|;
      logScroll := Min(logScroll, total);
      var end := SaturatingSub(total, logScroll);
      var start := SaturatingSub(end, windowSize);
      var w: seq<string> := [];
      var i := start;
      while i < end
        invariant start <= i <= end
        invariant w == log[start..i]
      {
        w := w + [log[i]];
        i := i + 1;
      }
      window := w;
    }

    /** The window as last computed: not recomputed, so a send since the last refresh is not in it. */
    function GetWindow(): (w: seq<string>)
      reads this
      ensures w == window
      ensures Valid() ==> |w| <= |log|
    {
      window
    }
  }

  /** Refreshing twice leaves the offset and the window a single refresh gives. */
  method UpdateWindowTwice(l: Logger)
    modifies l
    ensures l.log == old(l.log) && l.windowSize == old(l.windowSize)
    ensures l.logScroll == Min(old(l.logScroll), |l.log|)
    ensures l.window == Visible(l.log, Min(old(l.logScroll), |l.log|), l.windowSize)
  {
    l.UpdateWindow();
    l.UpdateWindow();
  }

  /**
   * `scroll_down` followed by `scroll_up` on a refreshed window restores the offset
   * and the window whenever `scroll_down` moved.
   */
  method ScrollDownThenUp(l: Logger)
    requires l.Valid() && l.Fresh()
    requires l.logScroll < |l.window|
    modifies l
    ensures l.log == old(l.log) && l.windowSize == old(l.windowSize)
    ensures l.logScroll == old(l.logScroll) && l.window == old(l.window)
  {
    l.ScrollDown();
    l.ScrollUp();
  }
}
