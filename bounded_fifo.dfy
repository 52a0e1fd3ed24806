/**
 * The bounded first-in-first-out append that all three log buffers of the program
 * perform on a `VecDeque<String>`: when the deque already holds at least `cap`
 * entries, `pop_front` drops the oldest one (doing nothing on an empty deque),
 * then `push_back` adds the new message at the newest end.
 */
module BoundedFifo {

  function Max(a: nat, b: nat): nat { if a >= b then a else b }

  function Min(a: nat, b: nat): nat { if a <= b then a else b }

  /** `VecDeque::pop_front` with its result discarded: no effect on an empty deque. */
  function PopFront(log: seq<string>): (r: seq<string>)
    ensures log == [] ==> r == []
    ensures log != [] ==> [log[0]] + r == log
  {
    if log == [] then [] else log[1..]
  }

  /**
   * One `send_log(Some(m))` on a deque capped at `cap`. The new message is the
   * newest entry, the entries before it are the newest entries of the old log in
   * their original order, and at most the single oldest entry is evicted.
   */
  function Push(log: seq<string>, cap: nat, m: string): (r: seq<string>)
    ensures 0 < |r| <= |log| + 1 && r[|r| - 1] == m
    ensures r[..|r| - 1] == log[|log| - (|r| - 1)..]
    ensures |log| < cap ==> |r| == |log| + 1
    ensures |log| >= cap && log != [] ==> |r| == |log|
    ensures |log| <= Max(cap, 1) ==> |r| <= Max(cap, 1)
  {
    (if |log| >= cap then PopFront(log) else log) + [m]
  }

  /** The last `Min(|s|, n)` entries of `s`: what a log of capacity `n` can still hold of `s`. */
  function Newest(s: seq<string>, n: nat): (r: seq<string>)
    ensures |r| == Min(|s|, n)
  {
    s[|s| - Min(|s|, n)..]
  }

  /** The log after sending the messages `ms` one by one, oldest first. */
  function SendAll(log: seq<string>, cap: nat, ms: seq<string>): (r: seq<string>)
    decreases |ms|
  {
    if ms == [] then log else SendAll(Push(log, cap, ms[0]), cap, ms[1..])
  }

  /** Keeping the newest entries of a long-enough suffix is keeping the newest entries of the whole. */
  lemma NewestOfSuffix(s: seq<string>, k: nat, u: seq<string>, n: nat)
    requires k <= |s| && |s| - k >= Min(|s|, n)
    ensures Newest(s[k..] + u, n) == Newest(s + u, n)
  {
  }

  /** Moving the first pending message onto the log does not change the concatenation. */
  lemma AppendFirst(log: seq<string>, ms: seq<string>)
    requires ms != []
    ensures (log + [ms[0]]) + ms[1..] == log + ms
  {
  }

  /** One send keeps a suffix of the old log followed by the message. */
  lemma PushIsSuffix(log: seq<string>, cap: nat, m: string)
    ensures Push(log, cap, m) == (log + [m])[|log| + 1 - |Push(log, cap, m)|..]
  {
  }

  /**
   * Strict FIFO eviction: starting from a log within the effective capacity
   * `Max(cap, 1)`, any run of sends leaves exactly the newest `Max(cap, 1)` lines
   * of everything logged so far, in order (a capacity of 0 still keeps one line,
   * because the new message is pushed after the eviction).
   */
  lemma {:induction false} SendAllKeepsNewest(log: seq<string>, cap: nat, ms: seq<string>)
    requires |log| <= Max(cap, 1)
    ensures SendAll(log, cap, ms) == Newest(log + ms, Max(cap, 1))
    decreases |ms|
  {
    var c := Max(cap, 1);
    if ms == [] {
      assert log + ms == log;
    } else {
      var next := Push(log, cap, ms[0]);
      assert SendAll(log, cap, ms) == SendAll(next, cap, ms[1..]);
      assert |next| <= c;
      SendAllKeepsNewest(next, cap, ms[1..]);
      var s := log + [ms[0]];
      PushIsSuffix(log, cap, ms[0]);
      if |log| >= cap && log != [] {
        assert |log| == c && |next| == c;
      } else {
        assert |next| == |s|;
      }
      AppendFirst(log, ms);
      NewestOfSuffix(s, |s| - |next|, ms[1..], c);
    }
  }

  /** After more than `cap` sends into an empty log, the oldest survivor is the `(count - cap + 1)`-th message. */
  lemma OldestSurvivor(cap: nat, ms: seq<string>)
    requires 1 <= cap < |ms|
    ensures |SendAll([], cap, ms)| == cap
    ensures SendAll([], cap, ms)[0] == ms[|ms| - cap]
  {
    SendAllKeepsNewest([], cap, ms);
    assert [] + ms == ms;
  }

  /** With capacity 0 every send replaces the whole log by the new message. */
  lemma ZeroCapacityKeepsLast(ms: seq<string>)
    requires ms != []
    ensures SendAll([], 0, ms) == [ms[|ms| - 1]]
  {
    SendAllKeepsNewest([], 0, ms);
    assert [] + ms == ms;
  }
}
