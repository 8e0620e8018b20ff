/**
 * The timer list controller: the state of the timer screen and its handlers.
 * Each handler replaces the whole list with the result of one transformation
 * from module Timers; adding also clears the colour field.
 */
module TimerApp {
  import opened Timers
  import TimeFormat

  /** The screen state: the ordered list of timers and the pending text of the
      colour field. */
  class TimerList {
    var timers: seq<Timer>
    var colorInput: string

    /** The screen starts with no timers and an empty colour field. */
    constructor ()
      ensures timers == [] && colorInput == ""
    {
      timers := [];
      colorInput := "";
    }

    /** Typing into the colour field replaces its text. */
    method SetColorInput(text: string)
      modifies this
      ensures colorInput == text && timers == old(timers)
    {
      colorInput := text;
    }

    /** `addTimer`: append a new timer coloured from the field, then clear it. */
    method AddTimer()
      modifies this
      ensures timers == Add(old(timers), old(colorInput))
      ensures colorInput == ""
    {
      timers := Add(timers, colorInput);
      colorInput := "";
    }

    /** `toggleTimer`: start or pause every timer with this id. */
    method ToggleTimer(id: int)
      modifies this
      ensures timers == Toggle(old(timers), id) && colorInput == old(colorInput)
    {
      timers := Toggle(timers, id);
    }

    /** `resetTimer`: pause every timer with this id at zero seconds. */
    method ResetTimer(id: int)
      modifies this
      ensures timers == Reset(old(timers), id) && colorInput == old(colorInput)
    {
      timers := Reset(timers, id);
    }

    /** `deleteTimer`: remove every timer with this id. */
    method DeleteTimer(id: int)
      modifies this
      ensures timers == Delete(old(timers), id) && colorInput == old(colorInput)
    {
      timers := Delete(timers, id);
    }

    /** The interval callback: one second passes for every running timer. */
    method TickTimers()
      modifies this
      ensures timers == Tick(old(timers)) && colorInput == old(colorInput)
    {
      timers := Tick(timers);
    }
  }

  /** Add with an empty colour field, start timer 1, three interval callbacks:
      the timer shows "00:03", is still running and has the default colour. */
  method StartAndTickScenario() returns (shown: string, running: bool, color: string)
    ensures shown == "00:03" && running && color == DefaultColor
  {
    var app := new TimerList();
    app.AddTimer();
    app.ToggleTimer(1);
    app.TickTimers();
    app.TickTimers();
    app.TickTimers();
    assert app.timers[0].seconds == 3;
    TimeFormat.FormatTimeThree();
    shown := TimeFormat.FormatTime(app.timers[0].seconds);
    running := app.timers[0].isRunning;
    color := app.timers[0].color;
  }

  /** Add, add, delete timer 1, add: the last add reuses id 2, so the screen
      holds two timers with the same id, and starting "timer 2" starts both. */
  method DuplicateIdScenario() returns (ids: seq<int>, bothRunning: bool)
    ensures ids == [2, 2] && bothRunning
  {
    var app := new TimerList();
    app.AddTimer();
    app.AddTimer();
    var two := app.timers;
    assert two == [two[0]] + [two[1]];
    DeleteAppend([two[0]], [two[1]], 1);
    DeleteSingle(two[0], 1);
    DeleteSingle(two[1], 1);
    app.DeleteTimer(1);
    app.AddTimer();
    ids := [app.timers[0].id, app.timers[1].id];
    app.ToggleTimer(2);
    bothRunning := app.timers[0].isRunning && app.timers[1].isRunning;
  }
}
