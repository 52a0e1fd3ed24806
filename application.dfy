/**
 * The parts of `App` in src/app.rs that are logic rather than terminal plumbing:
 * its own append into the logger's deque, `quit`, and the key-to-event rule of
 * `handle_key_events`.
 */
module Application {
  import opened Options
  import opened BoundedFifo
  import ScrollbackLog

  /** The cap `App::send_log` applies to the logger's deque. */
  const AppLogCap: nat := 1000

  class App {
    var running: bool
    const logger: ScrollbackLog.Logger

    /** The logger's own invariant, and the cap of `App::send_log`. */
    ghost predicate Valid()
      reads this, logger
    {
      logger.Valid() && |logger.log| <= AppLogCap
    }

    constructor ()
      ensures Valid() && running && fresh(logger)
      ensures logger.log == [] && logger.window == [] && logger.logScroll == 0
      ensures logger.windowSize == 0 && logger.historySize == ScrollbackLog.HistorySize
    {
      running := true;
      logger := new ScrollbackLog.Logger();
    }

    /**
     * Appends to the logger's deque directly, with a cap of 1000 instead of the
     * logger's 250; nothing else of the logger changes.
     */
    method SendLog(message: Option<string>)
      modifies logger
      ensures logger.log == (if message.Some? then Push(old(logger.log), AppLogCap, message.value) else old(logger.log))
      ensures logger.logScroll == old(logger.logScroll) && logger.window == old(logger.window)
      ensures logger.windowSize == old(logger.windowSize)
      ensures running == old(running)
      ensures old(Valid()) ==> Valid()
    {
      if message.Some? {
        ghost var before := logger.log;
        var maxSize: nat := AppLogCap;
        if |logger.log| >= maxSize {
          logger.log := PopFront(logger.log);
        }
        logger.log := logger.log + [message.value];
        assert logger.log == Push(before, AppLogCap, message.value);
      }
    }

    method Quit()
      modifies this
      ensures !running
      ensures unchanged(logger)
    {
      running := false;
    }
  }

  /**
   * Through `App::send_log` the deque grows past the logger's 250, and the logger's
   * own send then keeps that length rather than trimming back to 250.
   */
  lemma AppPathOutgrowsHistory(log: seq<string>, m: string, n: string)
    requires ScrollbackLog.HistorySize <= |log| < AppLogCap
    ensures |Push(log, AppLogCap, m)| == |log| + 1
    ensures |Push(Push(log, AppLogCap, m), ScrollbackLog.HistorySize, n)| == |log| + 1
  {
  }

  datatype KeyCode = Esc | Tab | Char(c: char) | OtherKey

  datatype Modifier = Shift | Control | Alt | Super | Hyper | Meta

  /** `KeyModifiers::CONTROL`: Control and nothing else. */
  const CONTROL: set<Modifier> := {Control}

  datatype ReloadAmount = One | Two | Three | Four | Five

  datatype AppEvent =
    | Quit
    | ShowData
    | ShowLog
    | ShowInventory
    | ShowPlayer
    | FocusShotgun
    | ScrollUp
    | ScrollDown
    | ChangeFocus
    | ChangeFocusBack
    | Reload(amount: ReloadAmount)
    | Shoot

  /** Position of an amount in One .. Five. */
  function Rank(a: ReloadAmount): nat
  {
    match a
    case One => 1
    case Two => 2
    case Three => 3
    case Four => 4
    case Five => 5
  }

  /** The shells to load for a round count: rounds 1 to 5 pick their own amount, any other (0 included) picks Five. */
  function ReloadFor(roundCount: nat): (a: ReloadAmount)
    ensures 1 <= roundCount <= 5 ==> Rank(a) == roundCount
    ensures a == Five <==> !(1 <= roundCount <= 4)
  {
    match roundCount
    case 1 => One
    case 2 => Two
    case 3 => Three
    case 4 => Four
    case 5 => Five
    case _ => Five
  }

  /**
   * The event `handle_key_events` sends for a key, or None when it sends nothing;
   * the arms are tried in source order, and `logFocused` is whether the Log widget
   * has the focus.
   */
  function HandleKey(code: KeyCode, modifiers: set<Modifier>, logFocused: bool, roundCount: nat): (e: Option<AppEvent>)
    ensures e == Some(Quit) <==> code == Esc || code == Char('q') || (code == Char('c') && modifiers == CONTROL)
    ensures e == Some(ShowData) <==> code == Char('d') || code == Char('D')
    ensures e == Some(ShowLog) <==> code == Char('l') || code == Char('L')
    ensures e == Some(ShowPlayer) <==> code == Char('p') || code == Char('P')
    ensures e == Some(FocusShotgun) <==> code == Char('s') || code == Char('S')
    ensures e != Some(ShowInventory)
    ensures e == Some(ScrollUp) <==> code == Char('k') && logFocused
    ensures e == Some(ScrollDown) <==> code == Char('j') && logFocused
    ensures e == Some(ChangeFocusBack) <==> code == Tab && modifiers == CONTROL
    ensures e == Some(ChangeFocus) <==> code == Tab && modifiers != CONTROL
    ensures e == Some(Shoot) <==> code == Char(' ')
    ensures (e.Some? && e.value.Reload?) <==> code == Char('r') || code == Char('R')
    ensures e.Some? && e.value.Reload? ==> e.value.amount == ReloadFor(roundCount)
  {
    if code == Esc || code == Char('q') then Some(Quit)
    else if code == Char('c') && modifiers == CONTROL then Some(Quit)
    else if code == Char('d') || code == Char('D') then Some(ShowData)
    else if code == Char('l') || code == Char('L') then Some(ShowLog)
    else if code == Char('p') || code == Char('P') then Some(ShowPlayer)
    else if code == Char('s') || code == Char('S') then Some(FocusShotgun)
    else if code == Char('k') && logFocused then Some(ScrollUp)
    else if code == Char('j') && logFocused then Some(ScrollDown)
    else if code == Tab && modifiers == CONTROL then Some(ChangeFocusBack)
    else if code == Tab then Some(ChangeFocus)
    else if code == Char('r') || code == Char('R') then Some(Reload(ReloadFor(roundCount)))
    else if code == Char(' ') then Some(Shoot)
    else None
  }

  /** The keys `handle_key_events` ignores: a plain 'c', 'k' and 'j' without Log focus, 'i', and every unbound key. */
  lemma UnboundKeys(code: KeyCode, modifiers: set<Modifier>, logFocused: bool, roundCount: nat)
    ensures HandleKey(code, modifiers, logFocused, roundCount) == None <==>
      code == OtherKey ||
      (&& code.Char?
       && code.c !in {'q', 'd', 'D', 'l', 'L', 'p', 'P', 's', 'S', 'r', 'R', ' '}
       && (code.c == 'c' ==> modifiers != CONTROL)
       && (code.c == 'k' || code.c == 'j' ==> !logFocused))
  {
  }

  /** Modifiers matter only for 'c' and Tab; the Log focus only for 'k' and 'j'; the round count only for Reload. */
  lemma DispatchIndependence(code: KeyCode, m1: set<Modifier>, m2: set<Modifier>, f1: bool, f2: bool, n1: nat, n2: nat)
    ensures code != Char('c') && code != Tab ==> HandleKey(code, m1, f1, n1) == HandleKey(code, m2, f1, n1)
    ensures code != Char('k') && code != Char('j') ==> HandleKey(code, m1, f1, n1) == HandleKey(code, m1, f2, n1)
    ensures code != Char('r') && code != Char('R') ==> HandleKey(code, m1, f1, n1) == HandleKey(code, m1, f1, n2)
  {
  }
}
