# Krote-Timer timer list, modelled in Dafny

Krote-Timer is a one-screen React Native app. It shows a list of timers that
count up. Each timer can be started, paused, reset and deleted, and each gets a
colour typed into a text field. This project models the screen's controller:
the `Timer` record, the ordered list of timers, the pending colour text, the
four button handlers, the once-a-second interval callback, and `formatTime`,
which turns elapsed seconds into the `MM:SS` text shown on each row.

Files:

- `timers.dfy` (module `Timers`) holds the `Timer` datatype and the list
  transformations as pure functions over `seq<Timer>`: `Add` appends, `MapTimers`
  maps (used by `Toggle`, `Reset` and `Tick`), and `Delete` filters. It also
  holds the lemmas about them.
- `time_format.dfy` (module `TimeFormat`) holds `NatToDecimal` (`String(n)`),
  `PadStart2` (`padStart(2, '0')`), `FormatTime`, and `DecimalValue`, which
  reads a digit string back as a number so the output can be checked.
- `timer_list.dfy` (module `TimerApp`) holds the class `TimerList`. Its fields
  are `timers` and `colorInput`, and each handler method assigns the result of
  one transformation. Two client methods replay whole scenarios using only the
  method contracts.

Ids are not unique. A new timer's id is the list length plus one, so after a
delete, the next add can reuse an id that is still in the list. Toggle, reset
and delete select rows by `id` equality, so they act on every row with that
id. `DuplicateIdAfterDelete` and `TimerApp.DuplicateIdScenario` show this
with add, add, delete 1, add. The model keeps this behaviour as the code has
it.

How ids and delete behave in the code:

- `deleteTimer` keeps only the rows whose id differs (App.tsx:45), so it
  removes every row with that id. `Delete` does the same.
- A new id is the length plus one (App.tsx:18). Ids are guaranteed unique
  while only adds, toggles, resets and ticks have happened
  (`IdsArePositionsPreserved`, `AddAllIds`). After deleting any row but the
  last, the next add repeats an id (`DuplicateIdAfterDelete`).

Two composition helpers in `timers.dfy` carry no contract of their own:
`Ticks` applies `Tick` n times, for `TicksSeconds`, and `AddAll` runs one add
per colour input from the empty list, for `AddAllIds`.

## Model

| member | source | states |
|---|---|---|
| `Timers.Add` | App.tsx:16-23 | the list grows by exactly one; the old rows are kept as a prefix, in order; the new last row has id old length + 1, 0 seconds and is paused; its colour is the input when the input is non-empty and `#f5fcff` when it is empty |
| `Timers.MapTimers` | App.tsx:30 | applying a per-row function keeps the length and puts `f(ts[i])` at every position `i` |
| `Timers.Toggle` | App.tsx:28-33 | same length and order; every row keeps its id, seconds and colour; rows with the given id have `isRunning` flipped; all other rows are unchanged |
| `Timers.Reset` | App.tsx:37-40 | same length and order; every row keeps its id and colour; rows with the given id end at 0 seconds and paused; all other rows are unchanged |
| `Timers.Delete` | App.tsx:44-45 | the list never grows, and no remaining row has the id |
| `Timers.DeleteKeepsOthers` | App.tsx:45 | every row whose id differs is kept exactly as often as it occurred, and rows with the id are kept zero times |
| `Timers.DeleteIsSubsequence` | App.tsx:45 | the rows that are kept appear in the input in the same order |
| `Timers.Tick` | App.tsx:49-53 | same length and order; ids, colours and flags are kept; running rows gain exactly one second; paused rows are unchanged; no row loses time |
| `Timers.ToggleTwice` | App.tsx:28-33 | toggling the same id twice gives back the original list |
| `Timers.ToggleAbsent` | App.tsx:30-31 | toggling an id no row has leaves the list unchanged |
| `Timers.ResetIdempotent` | App.tsx:37-40 | resetting twice gives the same list as resetting once |
| `Timers.ResetAbsent` | App.tsx:39 | resetting an id no row has leaves the list unchanged |
| `Timers.DeleteAbsent` | App.tsx:45 | deleting an id no row has leaves the list unchanged |
| `Timers.DeleteIdempotent` | App.tsx:45 | deleting twice gives the same list as deleting once |
| `Timers.DeleteAppend` | App.tsx:45 | delete distributes over concatenation, so the surviving rows keep their relative order |
| `Timers.DeleteSingle` | App.tsx:45 | on one row, delete keeps the row exactly when its id differs |
| `Timers.DeleteLength` | App.tsx:45 | the length drops by the number of rows carrying the id, and stays the same exactly when no row carries it |
| `Timers.CountIdBound` | App.tsx:45 | at most every row carries the id, and none does exactly when the id is absent |
| `Timers.TicksSeconds` | App.tsx:49-55 | after n callbacks every row keeps its id, colour and flag; running rows have gained exactly n seconds and paused rows none |
| `Timers.IdsArePositionsPreserved` | App.tsx:18 | add, toggle, reset and tick each keep "every id equals its 1-based position" |
| `Timers.IdsArePositionsUnique` | App.tsx:18 | ids that equal their positions are pairwise distinct |
| `Timers.AddAllIds` | App.tsx:16-23 | n adds from the empty list give n rows numbered 1..n, all distinct |
| `Timers.DuplicateIdAfterDelete` | App.tsx:18 | add, add, delete 1, add leaves two rows that both have id 2; toggling id 2 starts both |
| `Timers.AddAddDeleteScenario` | App.tsx:16-25 | add "#ff0000", add "", delete 1 leaves one row with id 2 and the default colour |
| `TimeFormat.Digit` | App.tsx:101 | the character of a decimal digit is a digit and reads back as that digit |
| `TimeFormat.NatToDecimal` | App.tsx:101 | `String(n)` is a non-empty digit string with no leading zero that reads back as n; it has one digit exactly below 10, and at most two exactly below 100 |
| `TimeFormat.PadStart2` | App.tsx:101 | `padStart(2, '0')` gives at least two characters; the input is kept, unchanged, as the suffix, and only '0' is added in front |
| `TimeFormat.LeadingZero` | App.tsx:101 | a leading '0' does not change the value of a digit string |
| `TimeFormat.PadStart2Value` | App.tsx:101 | padding keeps a digit string a digit string with the same value |
| `TimeFormat.ClockParts` | App.tsx:101 | `m + ":" + s` with a two-character `s` splits back into `m`, ':' and `s` |
| `TimeFormat.MinuteBounds` | App.tsx:99-100 | the minutes are below 100 exactly when the time is below 6000 seconds; the remainder is below 60 |
| `TimeFormat.FormatTime` | App.tsx:98-102 | no ensures of its own: the minutes and the remaining seconds, each padded, joined by ':'; its properties are carried by `FormatTimeParts`, `ReadClockFormatTime` and `FormatTimeInjective` |
| `TimeFormat.FormatTimeParts` | App.tsx:98-102 | the text before the ':' reads as seconds / 60; the last two characters read as seconds % 60; the string is exactly five characters long exactly when the time is below 6000 seconds |
| `TimeFormat.ReadClockFormatTime` | App.tsx:98-102 | reading the display string back as minutes times 60 plus seconds gives the elapsed time |
| `TimeFormat.ReadClockOf` | App.tsx:101 | a string with ':' third from the end, whose parts read as the minutes and remaining seconds of a time, reads back as that time |
| `TimeFormat.FormatTimeInjective` | App.tsx:98-102 | different elapsed times are shown as different strings |
| `TimeFormat.FormatTimeZero` | App.tsx:98-102 | 0 seconds shows "00:00" |
| `TimeFormat.FormatTimeThree` | App.tsx:98-102 | 3 seconds shows "00:03" |
| `TimeFormat.FormatTimeSixtyFive` | App.tsx:98-102 | 65 seconds shows "01:05" |
| `TimeFormat.FormatTimeOneHour` | App.tsx:98-102 | 3600 seconds shows "60:00" |
| `TimeFormat.FormatTimeHundredMinutes` | App.tsx:98-102 | 6000 seconds shows "100:00": padding never truncates |
| `TimerApp.TimerList.constructor` | App.tsx:12-13 | the screen starts with no timers and an empty colour field |
| `TimerApp.TimerList.SetColorInput` | App.tsx:88 | typing replaces the colour text and leaves the timers alone |
| `TimerApp.TimerList.AddTimer` | App.tsx:16-25 | the list becomes `Add` of the old list and old colour text; the colour field is then empty |
| `TimerApp.TimerList.ToggleTimer` | App.tsx:28-34 | the list becomes `Toggle` of the old list; the colour text is unchanged |
| `TimerApp.TimerList.ResetTimer` | App.tsx:37-41 | the list becomes `Reset` of the old list; the colour text is unchanged |
| `TimerApp.TimerList.DeleteTimer` | App.tsx:44-46 | the list becomes `Delete` of the old list; the colour text is unchanged |
| `TimerApp.TimerList.TickTimers` | App.tsx:49-54 | the list becomes `Tick` of the old list; the colour text is unchanged |
| `TimerApp.StartAndTickScenario` | App.tsx:16-54 | add with an empty field, start timer 1, three callbacks: the row shows "00:03", is running and has the default colour |
| `TimerApp.DuplicateIdScenario` | App.tsx:16-46 | add, add, delete 1, add gives ids [2, 2]; starting timer 2 then starts both rows |

## Left out

- Rendering is not modelled: `renderTimer`, the `FlatList`, the text field and the
  buttons, and the style sheet (App.tsx:61-95, 104-155). They only display the state.
  The two facts the model takes from this markup are that typing sets the colour
  text (App.tsx:88) and that rows call the handlers with their own id.
- The `setInterval`/`clearInterval` lifecycle and the mount and unmount effect
  (App.tsx:48-58) are not modelled. The clock is left out. One tick is one call
  of `Tick` or `TimerList.TickTimers`.
- React's `useState` scheduling is not modelled. `addTimer` reads the list
  captured by its closure, whereas the other handlers use functional updaters.
  Every operation here acts on the current state, as if updates were applied
  one at a time in order.
- Seconds are an unbounded `nat` with integer `/` and `%`. JavaScript's floating
  point numbers, `Math.floor` on them, and `%` on negative or fractional values
  are not modelled. Seconds start at 0 and only grow by 1, so they are always
  whole and non-negative.
- Colour strings are free-form. The source does no validation, and neither
  does the model. JavaScript's `||` falls back to the default only for the
  empty string here, because the field's state is always a string.
