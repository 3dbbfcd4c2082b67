/** The session state machine of App.tsx as values: one `State` holding
    every piece of state the component keeps, and one function per handler
    giving the state after it. The class `App.Session` performs the same
    steps field by field and is proved to agree with these functions; the
    lemmas here state what the handlers promise. */
module AppState {
  import opened Types
  import Advisor
  import TaskListPanel

  /** An outstanding call to the text-generation service. */
  datatype Request = Encouragement(taskName: string) | BreakContent

  datatype State = State(
    tasks: seq<Task>,
    activeTaskId: Option<string>,
    mode: TimerMode,
    timeLeft: nat,
    isActive: bool,
    totalTime: nat,
    companion: Companion,
    pending: multiset<Request>,   // requests issued and not yet settled
    beeps: nat,                   // completion tones played
    alerts: nat)                  // "pause first" warnings shown

  const GREETING: string := "你好呀！我是你的作业小助手。添加一个任务，我们开始吧！"
  const BREAK_OVER: string := "休息结束啦！准备好迎接下一个挑战了吗？"
  const TASK_DONE: string := "太棒了！这个任务完成啦！🎉"
  const PICK_TASK_FIRST: string := "请先选择一个作业任务再开始哦！👇"
  const DEFAULT_TASK_NAME: string := "作业"

  /** The state on mount. */
  function Init(): State {
    State([], None, Focus, FOCUS_TIME, false, FOCUS_TIME, Companion(GREETING, Happy, false),
          multiset{}, 0, 0)
  }

  /** JavaScript truthiness of the nullable active id. */
  predicate IsSet(id: Option<string>) {
    id.Some? && id.value != []
  }

  // ---------------------------------------------------------------------
  // The task-list transforms passed to `setTasks`

  predicate UniqueIds(ts: seq<Task>) {
    forall i, j :: 0 <= i < j < |ts| ==> ts[i].id != ts[j].id
  }

  predicate FreshId(ts: seq<Task>, id: string) {
    forall i :: 0 <= i < |ts| ==> ts[i].id != id
  }

  /** `tasks.map(t => t.id === id ? {...t, sessionsCompleted: +1} : t)` */
  function AddSession(ts: seq<Task>, id: string): (r: seq<Task>)
    ensures |r| == |ts|
    ensures forall i :: 0 <= i < |ts| && ts[i].id != id ==> r[i] == ts[i]
    ensures forall i :: 0 <= i < |ts| && ts[i].id == id ==>
              r[i] == ts[i].(sessionsCompleted := ts[i].sessionsCompleted + 1)
  {
    if ts == [] then []
    else
      var t := ts[0];
      [if t.id == id then t.(sessionsCompleted := t.sessionsCompleted + 1) else t]
      + AddSession(ts[1..], id)
  }

  /** `tasks.map(t => t.id === id ? {...t, completed: !t.completed} : t)` */
  function ToggleCompleted(ts: seq<Task>, id: string): (r: seq<Task>)
    ensures |r| == |ts|
    ensures forall i :: 0 <= i < |ts| && ts[i].id != id ==> r[i] == ts[i]
    ensures forall i :: 0 <= i < |ts| && ts[i].id == id ==> r[i] == ts[i].(completed := !ts[i].completed)
  {
    if ts == [] then []
    else
      var t := ts[0];
      [if t.id == id then t.(completed := !t.completed) else t] + ToggleCompleted(ts[1..], id)
  }

  /** `tasks.filter(t => t.id !== id)` */
  function RemoveId(ts: seq<Task>, id: string): (r: seq<Task>)
    ensures |r| <= |ts|
    ensures forall t :: t in r <==> t in ts && t.id != id
    ensures FreshId(ts, id) ==> r == ts
  {
    if ts == [] then []
    else if ts[0].id == id then RemoveId(ts[1..], id)
    else [ts[0]] + RemoveId(ts[1..], id)
  }

  /** `tasks.find(t => t.id === id)`: the first task with the id. */
  function Find(ts: seq<Task>, id: string): (r: Option<Task>)
    ensures r.Some? ==> exists k :: 0 <= k < |ts| && ts[k] == r.value && r.value.id == id && FreshId(ts[..k], id)
    ensures r.None? <==> FreshId(ts, id)
  {
    if ts == [] then None
    else if ts[0].id == id then
      assert FreshId(ts[..0], id);
      Some(ts[0])
    else
      var r := Find(ts[1..], id);
      if r.Some? then
        var k :| 0 <= k < |ts[1..]| && ts[1..][k] == r.value && r.value.id == id && FreshId(ts[1..][..k], id);
        assert ts[k + 1] == r.value;
        var before := ts[..k + 1];
        assert FreshId(before, id) by {
          forall j | 0 <= j < |before| ensures before[j].id != id {
            if j > 0 {
              assert before[j] == ts[1..][..k][j - 1];
            }
          }
        }
        r
      else r
  }

  /** With distinct ids, the search for the id of row `k` finds row `k`. */
  lemma FindRow(ts: seq<Task>, k: nat)
    requires UniqueIds(ts) && k < |ts|
    ensures Find(ts, ts[k].id) == Some(ts[k])
  {
    var r := Find(ts, ts[k].id);
    var j :| 0 <= j < |ts| && ts[j] == r.value && r.value.id == ts[k].id && FreshId(ts[..j], ts[k].id);
  }

  /** The ids after the first task are distinct too. */
  lemma UniqueTail(ts: seq<Task>)
    requires UniqueIds(ts) && ts != []
    ensures UniqueIds(ts[1..]) && FreshId(ts[1..], ts[0].id)
  {
    var tail := ts[1..];
    forall i, j | 0 <= i < j < |tail| ensures tail[i].id != tail[j].id {
      assert tail[i] == ts[i + 1] && tail[j] == ts[j + 1];
    }
    forall i | 0 <= i < |tail| ensures tail[i].id != ts[0].id {
      assert tail[i] == ts[i + 1];
    }
  }

  /** With distinct ids, the filter removes exactly the one matching task
      and keeps the others in their order. */
  lemma {:induction false} RemoveIdRemovesOne(ts: seq<Task>, k: nat)
    requires UniqueIds(ts) && k < |ts|
    ensures RemoveId(ts, ts[k].id) == ts[..k] + ts[k + 1..]
  {
    var id := ts[k].id;
    var tail := ts[1..];
    UniqueTail(ts);
    if k == 0 {
      assert RemoveId(ts, id) == RemoveId(tail, id);
    } else {
      assert ts[0].id != id && tail[k - 1] == ts[k];
      RemoveIdRemovesOne(tail, k - 1);
      assert RemoveId(ts, id) == [ts[0]] + (tail[..k - 1] + tail[k..]);
      SkipOne(ts, k);
    }
  }

  /** Dropping element `k` of `ts`, seen from its tail. */
  lemma SkipOne(ts: seq<Task>, k: nat)
    requires 0 < k < |ts|
    ensures [ts[0]] + (ts[1..][..k - 1] + ts[1..][k..]) == ts[..k] + ts[k + 1..]
  {
    assert ts[1..][..k - 1] == ts[1..k] && ts[1..][k..] == ts[k + 1..];
    assert [ts[0]] + ts[1..k] == ts[..k];
  }

  /** Filtering cannot bring in an id that was absent. */
  lemma {:induction false} RemoveIdKeepsFresh(ts: seq<Task>, id: string, other: string)
    requires FreshId(ts, other)
    ensures FreshId(RemoveId(ts, id), other)
  {
    if ts != [] {
      RemoveIdKeepsFresh(ts[1..], id, other);
    }
  }

  /** A task whose id is new in front of a list of distinct ids. */
  lemma PrependUnique(t: Task, ts: seq<Task>)
    requires UniqueIds(ts) && FreshId(ts, t.id)
    ensures UniqueIds([t] + ts)
  {
    var r := [t] + ts;
    forall i, j | 0 <= i < j < |r| ensures r[i].id != r[j].id {
      assert r[j] == ts[j - 1];
      if i > 0 {
        assert r[i] == ts[i - 1];
      }
    }
  }

  /** Removing tasks keeps the ids distinct. */
  lemma {:induction false} RemoveIdKeepsUnique(ts: seq<Task>, id: string)
    requires UniqueIds(ts)
    ensures UniqueIds(RemoveId(ts, id))
  {
    if ts != [] {
      var tail := ts[1..];
      UniqueTail(ts);
      RemoveIdKeepsUnique(tail, id);
      if ts[0].id != id {
        RemoveIdKeepsFresh(tail, id, ts[0].id);
        PrependUnique(ts[0], RemoveId(tail, id));
      }
    }
  }

  // ---------------------------------------------------------------------
  // The invariant

  /** The active id, when set, names a task of the list that is not
      completed. */
  predicate ActiveTaskOk(s: State) {
    s.activeTaskId.Some? ==>
      exists i :: 0 <= i < |s.tasks| && s.tasks[i].id == s.activeTaskId.value && !s.tasks[i].completed
  }

  predicate Inv(s: State) {
    && UniqueIds(s.tasks)
    && (forall i :: 0 <= i < |s.tasks| ==> s.tasks[i].id != [])
    && ActiveTaskOk(s)
    && s.totalTime == Duration(s.mode)
    && 0 < s.timeLeft <= s.totalTime
    && (s.isActive && s.mode == Focus ==> s.activeTaskId.Some?)
    && s.companion.message != []
  }

  lemma InitInv()
    ensures Inv(Init())
  {
  }

  // ---------------------------------------------------------------------
  // Timer

  /** `setTimerMode`: switch phase, pause and rewind to the phase's length. */
  function SetTimerMode(s: State, m: TimerMode): State {
    s.(mode := m, isActive := false, timeLeft := Duration(m), totalTime := Duration(m))
  }

  /** `onReset`: pause, then `setTimerMode(mode)`. */
  function Reset(s: State): State {
    SetTimerMode(s.(isActive := false), s.mode)
  }

  // ---------------------------------------------------------------------
  // Companion requests: the synchronous half of `triggerFocusAI` /
  // `triggerBreakAI`, and the assignment made once the awaited text arrives.

  function RequestFocus(s: State, taskName: string): State {
    s.(companion := s.companion.(isLoading := true, emotion := Thinking),
       pending := s.pending + multiset{Encouragement(taskName)})
  }

  function RequestBreak(s: State): State {
    s.(companion := s.companion.(isLoading := true, emotion := Celebrating),
       pending := s.pending + multiset{BreakContent})
  }

  function Settle(s: State, req: Request, reply: Advisor.Reply): State
    requires req in s.pending
  {
    var c := match req
      case Encouragement(_) => Companion(Advisor.Encouragement(reply), Happy, false)
      case BreakContent => Companion(Advisor.BreakContent(reply), Celebrating, false);
    s.(companion := c, pending := s.pending - multiset{req})
  }

  // ---------------------------------------------------------------------
  // Completion and ticking

  /** `handleTimerComplete`. */
  function HandleTimerComplete(s: State): State {
    if s.mode == Focus then
      var counted := if IsSet(s.activeTaskId) then s.(tasks := AddSession(s.tasks, s.activeTaskId.value)) else s;
      SetTimerMode(RequestBreak(counted), ShortBreak)
    else
      SetTimerMode(s.(companion := Companion(BREAK_OVER, Happy, false)), Focus)
  }

  /** The body of the timer effect, run after every change of `isActive` or
      `timeLeft`: while running nothing happens here (the interval is armed);
      at zero the timer stops, beeps and completes. */
  function Effect(s: State): State {
    if s.isActive && s.timeLeft > 0 then s
    else if s.timeLeft == 0 then HandleTimerComplete(s.(isActive := false, beeps := s.beeps + 1))
    else s
  }

  /** One second of the interval: `setTimeLeft(prev => prev - 1)`, followed by
      the effect. With no interval armed, nothing happens. */
  function Tick(s: State): State {
    if s.isActive && s.timeLeft > 0 then Effect(s.(timeLeft := s.timeLeft - 1)) else s
  }

  /** `n` seconds of ticking. */
  function Ticks(s: State, n: nat): State
    decreases n
  {
    if n == 0 then s else Ticks(Tick(s), n - 1)
  }

  // ---------------------------------------------------------------------
  // Task handlers

  /** The name sent with an encouragement request:
      `title || tasks.find(t => t.id === id)?.title || "作业"`. */
  function TaskName(title: string, ts: seq<Task>, id: string): (name: string)
    ensures name != []
    ensures title != [] ==> name == title
    ensures title == [] && FreshId(ts, id) ==> name == DEFAULT_TASK_NAME
  {
    if title != [] then title
    else match Find(ts, id)
      case Some(t) => if t.title != [] then t.title else DEFAULT_TASK_NAME
      case None => DEFAULT_TASK_NAME
  }

  /** `selectTask(id, title?)`; an absent title is the empty string. */
  function SelectTask(s: State, id: string, title: string): State {
    if s.isActive && s.mode == Focus then s.(alerts := s.alerts + 1)
    else
      var name := TaskName(title, s.tasks, id);
      RequestFocus(SetTimerMode(s.(activeTaskId := Some(id)), Focus), name)
  }

  /** A click on the body of row `i`: `!task.completed && onSelectTask(task.id)`. */
  function ClickTask(s: State, i: nat): State
    requires i < |s.tasks|
  {
    if TaskListPanel.CanSelect(s.tasks[i]) then SelectTask(s, s.tasks[i].id, []) else s
  }

  /** `addTask(title)` with `id` the new task's timestamp text. The first-task
      test reads the list as it was before the append. */
  function AddTask(s: State, id: string, title: string): State {
    var added := s.(tasks := s.tasks + [Task(id, title, false, 0)]);
    if |s.tasks| == 0 then SelectTask(added, id, title) else added
  }

  /** `toggleTaskComplete(id)`. */
  function ToggleTaskComplete(s: State, id: string): State {
    var toggled := s.(tasks := ToggleCompleted(s.tasks, id));
    if s.activeTaskId == Some(id)
    then toggled.(activeTaskId := None, isActive := false, companion := Companion(TASK_DONE, Celebrating, false))
    else toggled
  }

  /** `deleteTask(id)`. */
  function DeleteTask(s: State, id: string): State {
    var removed := s.(tasks := RemoveId(s.tasks, id));
    if s.activeTaskId == Some(id) then removed.(activeTaskId := None, isActive := false) else removed
  }

  /** `onToggle` (play/pause): refused in focus mode with no active task. */
  function TogglePlay(s: State): State {
    if !IsSet(s.activeTaskId) && s.mode == Focus
    then s.(companion := Companion(PICK_TASK_FIRST, Thinking, false))
    else s.(isActive := !s.isActive)
  }

  // ---------------------------------------------------------------------
  // Every handler keeps the invariant

  lemma SetTimerModeInv(s: State, m: TimerMode)
    requires Inv(s)
    ensures Inv(SetTimerMode(s, m))
  {
  }

  lemma ResetInv(s: State)
    requires Inv(s)
    ensures Inv(Reset(s))
  {
  }

  lemma RequestInv(s: State, taskName: string)
    requires Inv(s)
    ensures Inv(RequestFocus(s, taskName)) && Inv(RequestBreak(s))
  {
  }

  lemma SettleInv(s: State, req: Request, reply: Advisor.Reply)
    requires Inv(s) && req in s.pending
    ensures Inv(Settle(s, req, reply))
  {
  }

  /** Adding a session keeps ids and completion flags, so the active task
      is still there and still open. */
  lemma AddSessionKeepsRegistry(s: State, id: string)
    requires Inv(s)
    ensures Inv(s.(tasks := AddSession(s.tasks, id)))
  {
    var r := AddSession(s.tasks, id);
    if s.activeTaskId.Some? {
      var i :| 0 <= i < |s.tasks| && s.tasks[i].id == s.activeTaskId.value && !s.tasks[i].completed;
      assert r[i].id == s.activeTaskId.value && !r[i].completed;
    }
    assert forall i :: 0 <= i < |r| ==> r[i].id == s.tasks[i].id;
  }

  lemma HandleTimerCompleteInv(s: State)
    requires Inv(s.(timeLeft := 1))
    ensures Inv(HandleTimerComplete(s))
  {
    var s1 := s.(timeLeft := 1);
    if s.mode == Focus && IsSet(s.activeTaskId) {
      AddSessionKeepsRegistry(s1, s.activeTaskId.value);
    }
  }

  lemma TickInv(s: State)
    requires Inv(s)
    ensures Inv(Tick(s))
  {
    if s.isActive && s.timeLeft == 1 {
      HandleTimerCompleteInv(s.(timeLeft := 0, isActive := false, beeps := s.beeps + 1));
    }
  }

  lemma SelectTaskInv(s: State, id: string, title: string)
    requires Inv(s)
    requires exists i :: 0 <= i < |s.tasks| && s.tasks[i].id == id && !s.tasks[i].completed
    ensures Inv(SelectTask(s, id, title))
  {
  }

  lemma ClickTaskInv(s: State, i: nat)
    requires Inv(s) && i < |s.tasks|
    ensures Inv(ClickTask(s, i))
  {
    if TaskListPanel.CanSelect(s.tasks[i]) {
      SelectTaskInv(s, s.tasks[i].id, []);
    }
  }

  lemma AddTaskInv(s: State, id: string, title: string)
    requires Inv(s) && id != [] && FreshId(s.tasks, id)
    ensures Inv(AddTask(s, id, title))
  {
    var t := Task(id, title, false, 0);
    var added := s.(tasks := s.tasks + [t]);
    assert added.tasks[|s.tasks|] == t;
    if s.activeTaskId.Some? {
      var i :| 0 <= i < |s.tasks| && s.tasks[i].id == s.activeTaskId.value && !s.tasks[i].completed;
      assert added.tasks[i] == s.tasks[i];
    }
    assert Inv(added);
    if |s.tasks| == 0 {
      SelectTaskInv(added, id, title);
    }
  }

  lemma ToggleTaskCompleteInv(s: State, id: string)
    requires Inv(s)
    ensures Inv(ToggleTaskComplete(s, id))
  {
    var r := ToggleCompleted(s.tasks, id);
    assert forall i :: 0 <= i < |r| ==> r[i].id == s.tasks[i].id;
    if s.activeTaskId.Some? && s.activeTaskId.value != id {
      var i :| 0 <= i < |s.tasks| && s.tasks[i].id == s.activeTaskId.value && !s.tasks[i].completed;
      assert r[i] == s.tasks[i];
    }
  }

  lemma DeleteTaskInv(s: State, id: string)
    requires Inv(s)
    ensures Inv(DeleteTask(s, id))
  {
    var r := RemoveId(s.tasks, id);
    RemoveIdKeepsUnique(s.tasks, id);
    forall i | 0 <= i < |r| ensures r[i].id != [] {
      assert r[i] in s.tasks;
    }
    if s.activeTaskId.Some? && s.activeTaskId.value != id {
      var i :| 0 <= i < |s.tasks| && s.tasks[i].id == s.activeTaskId.value && !s.tasks[i].completed;
      assert s.tasks[i] in r;
      var j :| 0 <= j < |r| && r[j] == s.tasks[i];
    }
  }

  lemma TogglePlayInv(s: State)
    requires Inv(s)
    ensures Inv(TogglePlay(s))
  {
  }

  // ---------------------------------------------------------------------
  // What the handlers promise

  /** The active id, when set, is the id of exactly one row, and that row
      is open. */
  lemma ActiveRow(s: State) returns (k: nat)
    requires Inv(s) && s.activeTaskId.Some?
    ensures k < |s.tasks| && s.tasks[k].id == s.activeTaskId.value && !s.tasks[k].completed
    ensures forall i :: 0 <= i < |s.tasks| && s.tasks[i].id == s.activeTaskId.value ==> i == k
  {
    k :| 0 <= k < |s.tasks| && s.tasks[k].id == s.activeTaskId.value && !s.tasks[k].completed;
  }

  /** A completed task is never the active one. */
  lemma CompletedNeverActive(s: State, i: nat)
    requires Inv(s) && i < |s.tasks| && s.tasks[i].completed
    ensures s.activeTaskId != Some(s.tasks[i].id)
  {
    if s.activeTaskId == Some(s.tasks[i].id) {
      var k := ActiveRow(s);
      assert false;
    }
  }

  /** At most one row shows the "in progress" badge, and one does exactly
      when a task is active. */
  lemma InProgressExclusive(s: State)
    requires Inv(s)
    ensures forall i, j ::
              (0 <= i < |s.tasks| && 0 <= j < |s.tasks|
               && TaskListPanel.ShowsInProgress(s.activeTaskId, s.tasks[i])
               && TaskListPanel.ShowsInProgress(s.activeTaskId, s.tasks[j])) ==> i == j
    ensures s.activeTaskId.Some? <==>
              exists i :: 0 <= i < |s.tasks| && TaskListPanel.ShowsInProgress(s.activeTaskId, s.tasks[i])
  {
    if s.activeTaskId.Some? {
      var k := ActiveRow(s);
      assert TaskListPanel.ShowsInProgress(s.activeTaskId, s.tasks[k]);
    }
  }

  /** `setTimerMode(m)`: mode `m`, paused, a full phase on the clock;
      tasks and companion untouched. */
  lemma SetTimerModeEffect(s: State, m: TimerMode)
    ensures var r := SetTimerMode(s, m);
      && r.mode == m && !r.isActive && r.timeLeft == r.totalTime == Duration(m)
      && r.tasks == s.tasks && r.activeTaskId == s.activeTaskId && r.companion == s.companion
      && r.pending == s.pending && r.beeps == s.beeps && r.alerts == s.alerts
  {
  }

  /** Resetting twice is resetting once, and reset keeps the mode. */
  lemma ResetIdempotent(s: State)
    ensures Reset(Reset(s)) == Reset(s)
    ensures Reset(s) == SetTimerMode(s, s.mode)
  {
  }

  /** A running clock with more than a second left loses exactly one second;
      nothing else changes. */
  lemma TickCountsDown(s: State)
    requires s.isActive && s.timeLeft > 1
    ensures Tick(s) == s.(timeLeft := s.timeLeft - 1)
  {
  }

  /** A paused clock does not move. */
  lemma TickWhilePaused(s: State)
    requires !s.isActive
    ensures Tick(s) == s
  {
  }

  /** The last second of a focus phase: the tone plays once, the active task
      (and only it) gains a session, a break text is requested and the
      short break waits, paused, with five minutes on the clock. */
  lemma FocusCompletes(s: State)
    requires Inv(s) && s.isActive && s.timeLeft == 1 && s.mode == Focus
    ensures var r := Tick(s);
      && r.mode == ShortBreak && !r.isActive && r.timeLeft == r.totalTime == 300
      && r.beeps == s.beeps + 1
      && r.activeTaskId == s.activeTaskId
      && |r.tasks| == |s.tasks|
      && (forall i :: 0 <= i < |s.tasks| ==>
            r.tasks[i] == if Some(s.tasks[i].id) == s.activeTaskId
                          then s.tasks[i].(sessionsCompleted := s.tasks[i].sessionsCompleted + 1)
                          else s.tasks[i])
      && r.pending == s.pending + multiset{BreakContent}
      && r.companion == s.companion.(isLoading := true, emotion := Celebrating)
      && r.alerts == s.alerts
  {
    var k := ActiveRow(s);
    assert IsSet(s.activeTaskId);
  }

  /** The last second of a break: the fixed "break over" message, and a
      paused focus phase of 25 minutes. Tasks are untouched. */
  lemma BreakCompletes(s: State)
    requires s.isActive && s.timeLeft == 1 && s.mode != Focus
    ensures var r := Tick(s);
      && r.mode == Focus && !r.isActive && r.timeLeft == r.totalTime == 1500
      && r.beeps == s.beeps + 1
      && r.companion == Companion(BREAK_OVER, Happy, false)
      && r.tasks == s.tasks && r.activeTaskId == s.activeTaskId
      && r.pending == s.pending && r.alerts == s.alerts
  {
  }

  /** While more than one second is left, `k` ticks take `k` seconds off. */
  lemma {:induction false} TicksCountDown(s: State, k: nat)
    requires s.isActive && k < s.timeLeft
    ensures Ticks(s, k) == s.(timeLeft := s.timeLeft - k)
    decreases k
  {
    if k > 0 {
      TickCountsDown(s);
      TicksCountDown(s.(timeLeft := s.timeLeft - 1), k - 1);
    }
  }

  /** Before its last second a running phase has only counted down: no
      session is counted early and the clock is still running. */
  lemma RunBeforeLastSecond(s: State, k: nat)
    requires s.isActive && k < s.timeLeft
    ensures Ticks(s, k).tasks == s.tasks && Ticks(s, k).isActive && Ticks(s, k).mode == s.mode
  {
    TicksCountDown(s, k);
  }

  /** Left to run, a focus phase ends after exactly `timeLeft` ticks with one
      more session on the active task and none on any other. */
  lemma FocusRunCountsOneSession(s: State)
    requires Inv(s) && s.isActive && s.mode == Focus
    ensures var r := Ticks(s, s.timeLeft);
      && r.mode == ShortBreak && !r.isActive && r.timeLeft == 300
      && |r.tasks| == |s.tasks|
      && (forall i :: 0 <= i < |s.tasks| ==>
            r.tasks[i].sessionsCompleted ==
              s.tasks[i].sessionsCompleted + (if Some(s.tasks[i].id) == s.activeTaskId then 1 else 0))
  {
    var last := s.(timeLeft := 1);
    RunToLastSecond(s);
    InvAtOneSecond(s);
    FocusCompletes(last);
  }

  /** A running phase reaches its end by the tick on its last second. */
  lemma RunToLastSecond(s: State)
    requires s.isActive && s.timeLeft > 0
    ensures Ticks(s, s.timeLeft) == Tick(s.(timeLeft := 1))
  {
    var n := s.timeLeft;
    TicksCountDown(s, n - 1);
    TicksSplit(s, n - 1, 1);
    assert Ticks(s.(timeLeft := 1), 1) == Tick(s.(timeLeft := 1));
  }

  lemma InvAtOneSecond(s: State)
    requires Inv(s)
    ensures Inv(s.(timeLeft := 1))
  {
  }

  /** Ticking `a` then `b` seconds is ticking `a + b` seconds. */
  lemma {:induction false} TicksSplit(s: State, a: nat, b: nat)
    ensures Ticks(s, a + b) == Ticks(Ticks(s, a), b)
    decreases a
  {
    if a > 0 {
      TicksSplit(Tick(s), a - 1, b);
    }
  }

  /** `addTask`: exactly one open task with no sessions is appended. The
      first task of an empty list is always selected (nothing can be running
      in focus mode without an active task): it becomes active, the clock
      shows a paused 25-minute focus phase and an encouragement is
      requested. Otherwise nothing but the list changes. */
  lemma AddTaskEffect(s: State, id: string, title: string)
    requires Inv(s) && id != [] && FreshId(s.tasks, id)
    ensures var r := AddTask(s, id, title);
      && r.tasks == s.tasks + [Task(id, title, false, 0)]
      && (|s.tasks| == 0 ==>
            && r.activeTaskId == Some(id)
            && r.mode == Focus && !r.isActive && r.timeLeft == r.totalTime == 1500
            && r.companion == s.companion.(isLoading := true, emotion := Thinking)
            && r.pending == s.pending + multiset{Encouragement(if title != [] then title else DEFAULT_TASK_NAME)}
            && r.alerts == s.alerts)
      && (|s.tasks| > 0 ==> r == s.(tasks := s.tasks + [Task(id, title, false, 0)]))
  {
    if |s.tasks| == 0 {
      assert s.activeTaskId.None?;
    }
  }

  /** `selectTask`: refused with only a warning while a focus phase runs;
      otherwise the task becomes active, the clock a paused focus phase and
      an encouragement for the task's title is requested. */
  lemma SelectTaskEffect(s: State, id: string, title: string)
    ensures var r := SelectTask(s, id, title);
      if s.isActive && s.mode == Focus then r == s.(alerts := s.alerts + 1)
      else
        && r.activeTaskId == Some(id)
        && r.mode == Focus && !r.isActive && r.timeLeft == r.totalTime == 1500
        && r.companion == s.companion.(isLoading := true, emotion := Thinking)
        && r.pending == s.pending + multiset{Encouragement(TaskName(title, s.tasks, id))}
        && r.tasks == s.tasks && r.alerts == s.alerts
  {
  }

  /** Clicking a completed row does nothing, so a completed task cannot be
      made active through the list. */
  lemma ClickCompletedIgnored(s: State, i: nat)
    requires i < |s.tasks| && s.tasks[i].completed
    ensures ClickTask(s, i) == s
  {
  }

  /** Without a title of its own, the request is named after the row with
      the id, or the default name when that row's title is empty. */
  lemma TaskNameOfRow(ts: seq<Task>, k: nat)
    requires UniqueIds(ts) && k < |ts|
    ensures TaskName([], ts, ts[k].id) == if ts[k].title != [] then ts[k].title else DEFAULT_TASK_NAME
  {
    FindRow(ts, k);
  }

  /** Clicking an open row while no focus phase runs makes that task active
      and requests an encouragement named after its title. */
  lemma ClickSendsTitle(s: State, i: nat)
    requires Inv(s) && i < |s.tasks| && !s.tasks[i].completed
    requires !(s.isActive && s.mode == Focus)
    ensures var r := ClickTask(s, i);
      && r.activeTaskId == Some(s.tasks[i].id)
      && r.pending == s.pending + multiset{Encouragement(if s.tasks[i].title != [] then s.tasks[i].title else DEFAULT_TASK_NAME)}
  {
    TaskNameOfRow(s.tasks, i);
  }

  /** Play/pause: with no active task in focus mode the clock is left alone
      and the "select a task first" hint shows; otherwise it flips. */
  lemma TogglePlayEffect(s: State)
    ensures var r := TogglePlay(s);
      if !IsSet(s.activeTaskId) && s.mode == Focus
      then r.isActive == s.isActive && r.companion == Companion(PICK_TASK_FIRST, Thinking, false)
           && r == s.(companion := r.companion)
      else r.isActive == !s.isActive && r == s.(isActive := r.isActive)
  {
  }

  /** `toggleTaskComplete`: only the matching task flips; if it was the
      active one the reference clears, the clock pauses and the companion
      celebrates. */
  lemma ToggleTaskCompleteEffect(s: State, id: string)
    ensures var r := ToggleTaskComplete(s, id);
      && |r.tasks| == |s.tasks|
      && (forall i :: 0 <= i < |s.tasks| ==>
            r.tasks[i] == if s.tasks[i].id == id then s.tasks[i].(completed := !s.tasks[i].completed) else s.tasks[i])
      && (s.activeTaskId == Some(id) ==>
            r.activeTaskId.None? && !r.isActive && r.companion == Companion(TASK_DONE, Celebrating, false))
      && (s.activeTaskId != Some(id) ==> r == s.(tasks := r.tasks))
      && r.mode == s.mode && r.timeLeft == s.timeLeft && r.totalTime == s.totalTime
  {
  }

  /** `deleteTask`: exactly the matching task goes, the others keep their
      order; if it was the active one the reference clears and the clock
      pauses. The companion is left alone. */
  lemma DeleteTaskEffect(s: State, k: nat)
    requires Inv(s) && k < |s.tasks|
    ensures var r := DeleteTask(s, s.tasks[k].id);
      && r.tasks == s.tasks[..k] + s.tasks[k + 1..]
      && (s.activeTaskId == Some(s.tasks[k].id) ==> r.activeTaskId.None? && !r.isActive)
      && (s.activeTaskId != Some(s.tasks[k].id) ==> r.activeTaskId == s.activeTaskId && r.isActive == s.isActive)
      && r.companion == s.companion && r.mode == s.mode && r.timeLeft == s.timeLeft
  {
    RemoveIdRemovesOne(s.tasks, k);
  }

  /** Deleting an id that is not in the list changes nothing. */
  lemma DeleteAbsentTask(s: State, id: string)
    requires Inv(s) && FreshId(s.tasks, id)
    ensures DeleteTask(s, id) == s
  {
    if s.activeTaskId == Some(id) {
      var k := ActiveRow(s);
    }
  }

  /** A settled request leaves the companion idle with the service's
      (never empty) text: happy after an encouragement, celebrating after a
      break text. */
  lemma SettleEffect(s: State, req: Request, reply: Advisor.Reply)
    requires req in s.pending
    ensures var r := Settle(s, req, reply);
      && !r.companion.isLoading && r.companion.message != []
      && r.companion.message == (if req.Encouragement? then Advisor.Encouragement(reply) else Advisor.BreakContent(reply))
      && r.companion.emotion == (if req.Encouragement? then Happy else Celebrating)
      && r.pending == s.pending - multiset{req}
      && r == s.(companion := r.companion, pending := r.pending)
  {
  }
}
