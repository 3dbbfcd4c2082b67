/** Shared vocabulary of the timer: the three modes, their durations, the
    task record and the companion's state (types.ts). */
module Types {

  /** An optional value: JavaScript's `null`/`undefined` versus a present one. */
  datatype Option<T> = None | Some(value: T)

  /** The three timer phases. */
  datatype TimerMode = Focus | ShortBreak | LongBreak

  const FOCUS_TIME: nat := 25 * 60
  const SHORT_BREAK_TIME: nat := 5 * 60
  const LONG_BREAK_TIME: nat := 15 * 60

  /** Length in seconds of a phase. */
  function Duration(m: TimerMode): (d: nat)
    ensures d > 0
    ensures d % 60 == 0
    ensures d <= FOCUS_TIME
  {
    match m
    case Focus => FOCUS_TIME
    case ShortBreak => SHORT_BREAK_TIME
    case LongBreak => LONG_BREAK_TIME
  }

  /** Each phase has its own length, so the duration identifies the mode. */
  lemma DurationInjective(m1: TimerMode, m2: TimerMode)
    ensures Duration(m1) == Duration(m2) <==> m1 == m2
  {
  }

  /** The concrete lengths: 25, 5 and 15 minutes. */
  lemma DurationValues()
    ensures Duration(Focus) == 1500
    ensures Duration(ShortBreak) == 300
    ensures Duration(LongBreak) == 900
  {
  }

  /** A task of the registry. `id` is the decimal text of a creation
      timestamp; `sessionsCompleted` counts finished focus phases. */
  datatype Task = Task(id: string, title: string, completed: bool, sessionsCompleted: nat)

  /** The companion's mood; the type admits exactly these four. */
  datatype Emotion = Happy | Thinking | Celebrating | Sleepy

  /** What the companion panel shows. */
  datatype Companion = Companion(message: string, emotion: Emotion, isLoading: bool)
}
