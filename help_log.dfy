/**
 * The older line logger of src/uihelp/logger.rs: a FIFO deque whose capacity is
 * settable and starts at 0, with no window.
 */
module HelpLog {
  import opened Options
  import opened BoundedFifo

  class Logger {
    var log: seq<string>
    var maxSize: nat

    constructor ()
      ensures log == [] && maxSize == 0
    {
      log := [];
      maxSize := 0;
    }

    /**
     * Appends a message, first evicting the oldest entry when the log already holds
     * `maxSize` entries or more; `None` appends nothing.
     */
    method SendLog(message: Option<string>)
      modifies this
      ensures log == (if message.Some? then Push(old(log), maxSize, message.value) else old(log))
      ensures maxSize == old(maxSize)
      ensures old(|log|) <= Max(maxSize, 1) ==> |log| <= Max(maxSize, 1)
    {
      if message.Some? {
        ghost var before := log;
        if |log| >= maxSize {
          log := PopFront(log);
        }
        log := log + [message.value];
        assert log == Push(before, maxSize, message.value);
      }
    }

    /** Sets the capacity only: a log already longer than the new capacity is not trimmed. */
    method SetMaxLines(lineNumber: nat)
      modifies this
      ensures maxSize == lineNumber && log == old(log)
    {
      maxSize := lineNumber;
    }
  }

  /** With the default capacity 0, a send into a log of at most one line leaves exactly that message. */
  lemma DefaultCapacityKeepsLast(log: seq<string>, m: string)
    requires |log| <= 1
    ensures Push(log, 0, m) == [m]
  {
  }

  /**
   * After lowering the capacity below the log's length, every send is one in, one
   * out: the log keeps its length and stays above the new capacity.
   */
  lemma LoweredCapacityKeepsLength(log: seq<string>, cap: nat, m: string)
    requires cap < |log|
    ensures |Push(log, cap, m)| == |log|
    ensures Push(log, cap, m) == log[1..] + [m]
  {
  }
}
