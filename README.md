# Scrollback log of cli-roulette, in Dafny

This project models the logging core of cli-roulette, a terminal shotgun-roulette game written in Rust:

- `ScrollbackLog` — the log widget's `Logger` (src/ui_components/logger.rs). It is a deque of lines; `Logger::send_log` caps its own appends at 250, evicting the oldest line first. It also caches a `window`: the slice of the log that is drawn, ending `log_scroll` lines behind the newest entry and at most `window_size` lines long.
- `HelpLog` — the older `Logger` of src/uihelp/logger.rs. It is a FIFO deque whose capacity can be set and starts at 0.
- `Application` — three pieces of `App` (src/app.rs): `send_log`, which appends to the same deque with its own cap of 1000; `quit`; and the rule by which `handle_key_events` turns a key into an application event.
- `BoundedFifo` — the eviction step the three `send_log`s share: pop the front when the deque holds at least `cap` entries, then push the message at the back. It is defined once, as `Push`. Each `send_log` method is proved to compute `Push` of its old log.

`Logger` and `App` are Dafny classes whose methods update their fields in place. The key rule is a pure function returning `Option<AppEvent>`. It takes the Log widget's focus and the match's `round_count` as inputs.

Behaviour the proofs pin down:

- There is no auto-follow. The "follow" block at the end of `Logger::send_log` compares `log_scroll` with `window.len().saturating_sub(window_size)` and then assigns it that same value. So `send_log` never changes `log_scroll`, `window` or `window_size`.
- The scroll offset counts lines back from the newest entry. An append without eviction followed by a refresh therefore moves a scrolled-back view one line newer (`AppendSlidesWindow`). At the cap the view also moves one line newer, and it loses its first line when it reached back to the evicted entry (`EvictingAppendSlidesWindow`). A view scrolled into history is not held in place.
- `scroll_down` is the call that moves the view back into history: it increments `log_scroll`. `scroll_up` moves the view towards the newest entry. `scroll_down` is guarded by `log_scroll < window.len()`, not by the log's length. On a refreshed window it can only move while the offset is below both the window height and half the log (`ScrollDownEnabled`). On a refreshed window with height 0 it never moves (`ZeroHeightBlocksScrollDown`). `set_window_size(0)` alone leaves the old window cached, so `scroll_down` can still move once.
- A capacity of 0 in the help logger still keeps the most recent message. The new message is pushed after the eviction, and popping an empty deque does nothing.
- `App::send_log` writes to the logger's deque with a cap of 1000. The logger's 250 is therefore not an invariant of the program. `Logger::send_log` on a longer log evicts one line and adds one, so the length stays the same.

## Model

| member | source | states |
|---|---|---|
| `BoundedFifo.Push` | src/ui_components/logger.rs:26-31 | one send: the message becomes the newest entry; the entries before it are the newest entries of the old log, in order; the length grows by one below the cap, and stays the same at or above it; a log within `max(cap, 1)` stays within it |
| `BoundedFifo.SendAllKeepsNewest` | src/ui_components/logger.rs:26-31 | strict FIFO: from a log within `max(cap, 1)`, any run of sends leaves exactly the newest `max(cap, 1)` lines of everything logged, in order |
| `BoundedFifo.OldestSurvivor` | src/ui_components/logger.rs:27-30 | after `count > cap` sends into an empty log, the log holds `cap` lines and its oldest line is the `(count - cap + 1)`-th message |
| `BoundedFifo.ZeroCapacityKeepsLast` | src/uihelp/logger.rs:10-23 | with the default capacity 0, any non-empty run of sends into an empty log leaves exactly the last message |
| `ScrollbackLog.Visible` | src/ui_components/logger.rs:73-87 | the window ends `min(log_scroll, len)` lines before the newest entry and holds `min(window_size, end)` lines, each equal to the log entry at its position |
| `ScrollbackLog.RefreshIdempotent` | src/ui_components/logger.rs:73-87 | clamping the offset is idempotent and does not change the window, so refreshing twice equals refreshing once |
| `ScrollbackLog.ZeroHeightShowsNothing` | src/ui_components/logger.rs:78-86 | a window height of 0 gives an empty window for every log and offset |
| `ScrollbackLog.PinnedShowsNewest` | src/ui_components/logger.rs:78-86 | at offset 0, with a non-empty log and a non-zero height, the window is non-empty and ends with the newest entry |
| `ScrollbackLog.AppendSlidesWindow` | src/ui_components/logger.rs:73-87 | for an offset of at least 1, refreshing after an append without eviction gives the window of the old log at offset minus one |
| `ScrollbackLog.EvictingAppendSlidesWindow` | src/ui_components/logger.rs:73-87 | for an offset of at least 1, refreshing after an evicting append at the cap gives the old log's window at offset minus one, without its first line when that window reached the oldest entry |
| `ScrollbackLog.ScrollDownEnabled` | src/ui_components/logger.rs:58-63 | on a refreshed window, the `scroll_down` guard holds iff the offset is below the window height and below half the log length |
| `ScrollbackLog.ZeroHeightBlocksScrollDown` | src/ui_components/logger.rs:58-63 | on a window refreshed with height 0, the `scroll_down` guard is false for every log and offset |
| `ScrollbackLog.Logger.constructor` | src/ui_components/logger.rs:15-23 | new logger: empty log, empty window, offset 0, height 0, capacity 250 |
| `ScrollbackLog.Logger.SendLog` | src/ui_components/logger.rs:25-52 | `None` changes nothing; `Some(m)` makes the log `Push(old log, 250, m)`; offset, window and height are unchanged; a log within 250 stays within 250; `Valid` is kept |
| `ScrollbackLog.Logger.SetWindowSize` | src/ui_components/logger.rs:54-56 | changes only the window height |
| `ScrollbackLog.Logger.ScrollDown` | src/ui_components/logger.rs:58-63 | when the offset is below the window's length, increments it and refreshes the window; otherwise changes nothing; the log and the height are untouched |
| `ScrollbackLog.Logger.ScrollUp` | src/ui_components/logger.rs:65-70 | when the offset is positive, decrements it and refreshes the window; otherwise changes nothing; the log and the height are untouched |
| `ScrollbackLog.Logger.UpdateWindow` | src/ui_components/logger.rs:73-87 | clamps the offset to the log length and rebuilds the window as `Visible(log, offset, height)`; afterwards offset and window are within the log and the window is at most the height; the log and the height are untouched |
| `ScrollbackLog.Logger.GetWindow` | src/ui_components/logger.rs:89-91 | returns the stored window as last computed, without recomputing it |
| `ScrollbackLog.UpdateWindowTwice` | src/ui_components/logger.rs:73-87 | calling `update_window` twice leaves the log and height untouched and gives the clamped offset and the window that a single call gives |
| `ScrollbackLog.ScrollDownThenUp` | src/ui_components/logger.rs:58-70 | on a refreshed window where `scroll_down` can move, `scroll_down` followed by `scroll_up` restores the offset and the window |
| `HelpLog.Logger.constructor` | src/uihelp/logger.rs:10-15 | new logger: empty log, capacity 0 |
| `HelpLog.Logger.SendLog` | src/uihelp/logger.rs:17-24 | `None` changes nothing; `Some(m)` makes the log `Push(old log, max_size, m)`; a log within `max(max_size, 1)` stays within it; the capacity is unchanged |
| `HelpLog.Logger.SetMaxLines` | src/uihelp/logger.rs:26-28 | sets the capacity and leaves the log as it is, even when it is longer |
| `HelpLog.DefaultCapacityKeepsLast` | src/uihelp/logger.rs:17-24 | with capacity 0, a send into a log of at most one line leaves exactly `[m]` |
| `HelpLog.LoweredCapacityKeepsLength` | src/uihelp/logger.rs:17-28 | with a log longer than the capacity, a send drops the oldest line and appends `m`, so the length is unchanged |
| `Application.App.constructor` | src/app.rs:44-55 | a new app is running, and its logger is a new empty logger |
| `Application.App.SendLog` | src/app.rs:63-71 | `None` changes nothing; `Some(m)` makes the logger's log `Push(old log, 1000, m)`; the logger's offset, window and height and `running` are unchanged; a log within 1000 stays within 1000 |
| `Application.App.Quit` | src/app.rs:269-271 | sets `running` to false and leaves the logger unchanged |
| `Application.AppPathOutgrowsHistory` | src/app.rs:63-71 | from a log of 250 to 999 lines, `App::send_log` grows it past 250, and a following `Logger::send_log` keeps that length |
| `Application.ReloadFor` | src/app.rs:218-226 | round counts 1 to 5 give One to Five in order; every other count, 0 included, gives Five |
| `Application.HandleKey` | src/app.rs:203-233 | for each event, the exact keys that produce it: Quit for Esc, 'q' or 'c' with exactly CONTROL; ScrollUp and ScrollDown for 'k' and 'j' only with Log focus; ChangeFocusBack for Tab with exactly CONTROL and ChangeFocus for any other Tab; Reload carries `ReloadFor(round_count)`; ShowInventory is never sent |
| `Application.UnboundKeys` | src/app.rs:203-233 | no event is sent exactly for unbound keys, a 'c' without exactly CONTROL, and 'k' or 'j' without Log focus |
| `Application.DispatchIndependence` | src/app.rs:203-233 | modifiers matter only for 'c' and Tab, the Log focus only for 'k' and 'j', the round count only for 'r' and 'R' |

## Left out

- `App::run` (src/app.rs:74-200) is left out. It is the async event loop and terminal control over ratatui, crossterm and the event channel, which is I/O. Its per-frame order is set window height, then `update_window`, then render.
- The window height `area.height as f32 / 1.45` (src/app.rs:83) is left out because it is floating-point arithmetic. The height is an arbitrary `nat` argument of `SetWindowSize`.
- The widget show/hide/focus handling, the shotgun reload and shoot handling and `render_ui` (src/app.rs) are left out. They call `WidgetData`, `Data` and `ui`, and those are not part of this model.
- `handle_mouse_events` (src/app.rs:235-255) is left out. It only appends fixed strings to the logger with `Logger::send_log`, which is modelled, and sends `ScrollUp` on a wheel scroll.
- `tick` (src/app.rs:266) is left out because its body is empty and it does nothing.
- `WidgetData::is_focused(Log)` is a boolean argument of `HandleKey`, and `MatchData::round_count` is a `nat` argument. Sending an event on the channel is modelled as returning it.
- `AppEvent`, `ReloadAmount` and the key types cover only what src/app.rs uses. `KeyCode` keeps Esc, Tab and characters distinct; every other key is one `OtherKey` value. `ReloadAmount::as_usize` is not part of this model; `Rank` only orders the amounts.
- The `ScrollUp`/`ScrollDown` handlers in `App::run` have commented-out bodies, so scrolling is modelled only on `Logger`.
- Rust's `usize` is modelled as `nat`. No operation here can overflow: `log_scroll += 1` runs only below the window's length.
- The `Logger` methods do not require `Valid()`: the Rust fields `log` and `log_scroll` are public and the methods demand nothing. The methods state instead that a valid logger stays valid, and `UpdateWindow` makes any logger valid.
- `String` is modelled as Dafny's `string`; the messages' contents play no part.
