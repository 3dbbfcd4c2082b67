/** The App component (App.tsx) as an object: its state hooks are fields and
    its handlers are methods that assign them one at a time, as the
    component's `set...` calls do. Each method is proved to produce exactly
    the state the matching function of `AppState` describes. The handler
    methods also keep `AppState.Inv`; the helpers `SetTimerMode`,
    `TriggerFocusAI`, `TriggerBreakAI`, `HandleTimerComplete` and `RunEffect`
    run inside a handler, where the invariant can be broken for a moment
    (completion starts at `timeLeft == 0`), and state only the result. */
module App {
  import opened Types
  import Advisor
  import TaskListPanel
  import AppState

  class Session {
    var tasks: seq<Task>
    var activeTaskId: Option<string>
    var mode: TimerMode
    var timeLeft: nat
    var isActive: bool
    var totalTime: nat
    var companion: Companion
    var pending: multiset<AppState.Request>
    var beeps: nat
    var alerts: nat

    /** All fields as one value. */
    function State(): AppState.State
      reads this
    {
      AppState.State(tasks, activeTaskId, mode, timeLeft, isActive, totalTime, companion, pending, beeps, alerts)
    }

    ghost predicate Valid()
      reads this
    {
      AppState.Inv(State())
    }

    constructor ()
      ensures State() == AppState.Init()
      ensures Valid()
    {
      tasks := [];
      activeTaskId := None;
      mode := Focus;
      timeLeft := FOCUS_TIME;
      isActive := false;
      totalTime := FOCUS_TIME;
      companion := Companion(AppState.GREETING, Happy, false);
      pending := multiset{};
      beeps := 0;
      alerts := 0;
      AppState.InitInv();
    }

    // -------------------------------------------------------------------
    // Timer

    method SetTimerMode(newMode: TimerMode)
      modifies this
      ensures State() == AppState.SetTimerMode(old(State()), newMode)
    {
      mode := newMode;
      isActive := false;
      match newMode {
        case Focus =>
          timeLeft := FOCUS_TIME;
          totalTime := FOCUS_TIME;
        case ShortBreak =>
          timeLeft := SHORT_BREAK_TIME;
          totalTime := SHORT_BREAK_TIME;
        case LongBreak =>
          timeLeft := LONG_BREAK_TIME;
          totalTime := LONG_BREAK_TIME;
      }
    }

    /** The reset button. */
    method Reset()
      requires Valid()
      modifies this
      ensures Valid()
      ensures State() == AppState.Reset(old(State()))
    {
      isActive := false;
      SetTimerMode(mode);
      AppState.ResetInv(old(State()));
    }

    /** The play/pause button. */
    method TogglePlay()
      requires Valid()
      modifies this
      ensures Valid()
      ensures State() == AppState.TogglePlay(old(State()))
    {
      if !(activeTaskId.Some? && activeTaskId.value != []) && mode == Focus {
        companion := Companion(AppState.PICK_TASK_FIRST, Thinking, false);
        return;
      }
      isActive := !isActive;
      AppState.TogglePlayInv(old(State()));
    }

    // -------------------------------------------------------------------
    // Companion requests

    /** The synchronous half of `triggerFocusAI(taskName)`. */
    method TriggerFocusAI(taskName: string)
      modifies this
      ensures State() == AppState.RequestFocus(old(State()), taskName)
    {
      companion := companion.(isLoading := true, emotion := Thinking);
      pending := pending + multiset{AppState.Encouragement(taskName)};
    }

    /** The synchronous half of `triggerBreakAI()`. */
    method TriggerBreakAI()
      modifies this
      ensures State() == AppState.RequestBreak(old(State()))
    {
      companion := companion.(isLoading := true, emotion := Celebrating);
      pending := pending + multiset{AppState.BreakContent};
    }

    /** The awaited text of an outstanding request arrives. Requests may
        settle in any order; the last one to settle decides the message. */
    method Settle(req: AppState.Request, reply: Advisor.Reply)
      requires Valid() && req in pending
      modifies this
      ensures Valid()
      ensures State() == AppState.Settle(old(State()), req, reply)
    {
      match req {
        case Encouragement(_) =>
          companion := Companion(Advisor.Encouragement(reply), Happy, false);
        case BreakContent =>
          companion := Companion(Advisor.BreakContent(reply), Celebrating, false);
      }
      pending := pending - multiset{req};
      AppState.SettleInv(old(State()), req, reply);
    }

    // -------------------------------------------------------------------
    // Completion and ticking

    method HandleTimerComplete()
      modifies this
      ensures State() == AppState.HandleTimerComplete(old(State()))
    {
      if mode == Focus {
        if activeTaskId.Some? && activeTaskId.value != [] {
          tasks := AppState.AddSession(tasks, activeTaskId.value);
        }
        TriggerBreakAI();
        SetTimerMode(ShortBreak);
      } else {
        companion := Companion(AppState.BREAK_OVER, Happy, false);
        SetTimerMode(Focus);
      }
    }

    /** The timer effect's body. */
    method RunEffect()
      modifies this
      ensures State() == AppState.Effect(old(State()))
    {
      if isActive && timeLeft > 0 {
        // the interval stays armed
      } else if timeLeft == 0 {
        isActive := false;
        beeps := beeps + 1;
        HandleTimerComplete();
      }
    }

    /** One second elapses. */
    method Tick()
      requires Valid()
      modifies this
      ensures Valid()
      ensures State() == AppState.Tick(old(State()))
    {
      if isActive && timeLeft > 0 {
        timeLeft := timeLeft - 1;
        RunEffect();
      }
      AppState.TickInv(old(State()));
    }

    // -------------------------------------------------------------------
    // Tasks

    /** `selectTask(id, title?)`, for an open task of the list (its callers
        are the row click, which skips completed rows, and `addTask`). */
    method SelectTask(id: string, title: string)
      requires Valid()
      requires exists i :: 0 <= i < |tasks| && tasks[i].id == id && !tasks[i].completed
      modifies this
      ensures Valid()
      ensures State() == AppState.SelectTask(old(State()), id, title)
    {
      if isActive && mode == Focus {
        alerts := alerts + 1;
        return;
      }
      activeTaskId := Some(id);
      var taskName := AppState.TaskName(title, tasks, id);
      SetTimerMode(Focus);
      TriggerFocusAI(taskName);
      AppState.SelectTaskInv(old(State()), id, title);
    }

    /** A click on the body of row `i`. */
    method ClickTask(i: nat)
      requires Valid() && i < |tasks|
      modifies this
      ensures Valid()
      ensures State() == AppState.ClickTask(old(State()), i)
    {
      if TaskListPanel.CanSelect(tasks[i]) {
        SelectTask(tasks[i].id, []);
      }
    }

    /** `addTask(title)`; `id` is the creation timestamp's text, which the
        model takes to be new. */
    method AddTask(id: string, title: string)
      requires Valid() && id != [] && AppState.FreshId(tasks, id)
      modifies this
      ensures Valid()
      ensures State() == AppState.AddTask(old(State()), id, title)
    {
      var wasEmpty := |tasks| == 0;
      var newTask := Task(id, title, false, 0);
      tasks := tasks + [newTask];
      AppState.AddTaskInv(old(State()), id, title);
      if wasEmpty {
        assert tasks[0] == newTask;
        SelectTask(id, title);
      }
    }

    method ToggleTaskComplete(id: string)
      requires Valid()
      modifies this
      ensures Valid()
      ensures State() == AppState.ToggleTaskComplete(old(State()), id)
    {
      tasks := AppState.ToggleCompleted(tasks, id);
      if activeTaskId == Some(id) {
        activeTaskId := None;
        isActive := false;
        companion := Companion(AppState.TASK_DONE, Celebrating, false);
      }
      AppState.ToggleTaskCompleteInv(old(State()), id);
    }

    method DeleteTask(id: string)
      requires Valid()
      modifies this
      ensures Valid()
      ensures State() == AppState.DeleteTask(old(State()), id)
    {
      tasks := AppState.RemoveId(tasks, id);
      if activeTaskId == Some(id) {
        activeTaskId := None;
        isActive := false;
      }
      AppState.DeleteTaskInv(old(State()), id);
    }

    /** The add form is submitted: a non-blank entry becomes a new task under
        its trimmed title and the field is cleared; a blank one changes
        nothing. */
    method SubmitForm(form: TaskListPanel.TaskForm, id: string)
      requires Valid() && id != [] && AppState.FreshId(tasks, id)
      modifies this, form
      ensures Valid()
      ensures var title := TaskListPanel.SubmittedTitle(old(form.newTaskTitle));
        && form.newTaskTitle == (if title.Some? then [] else old(form.newTaskTitle))
        && State() == if title.Some? then AppState.AddTask(old(State()), id, title.value) else old(State())
    {
      var title := form.Submit();
      if title.Some? {
        AddTask(id, title.value);
      }
    }
  }
}
