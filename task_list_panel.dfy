/** The task list panel (components/TaskListPanel.tsx): the add form, which
    trims the typed title and refuses a blank one, and the per-row rules
    (a completed row cannot be selected, the tomato badge, the "in progress"
    badge). */
module TaskListPanel {
  import opened Types

  /** The characters JavaScript's `String.prototype.trim` removes: the
      WhiteSpace and LineTerminator code points of ECMAScript. */
  predicate IsSpace(c: char) {
    c == '\t' || c == '\n' || c == '\U{B}' || c == '\U{C}' || c == '\r' || c == ' '
    || c == '\U{A0}' || c == '\U{1680}' || ('\U{2000}' <= c <= '\U{200A}')
    || c == '\U{2028}' || c == '\U{2029}' || c == '\U{202F}' || c == '\U{205F}'
    || c == '\U{3000}' || c == '\U{FEFF}'
  }

  /** Number of white-space characters at the start of `s`. */
  function LeadingSpace(s: string): (k: nat)
    ensures k <= |s|
    ensures forall i :: 0 <= i < k ==> IsSpace(s[i])
    ensures k < |s| ==> !IsSpace(s[k])
  {
    if |s| > 0 && IsSpace(s[0]) then 1 + LeadingSpace(s[1..]) else 0
  }

  /** Number of white-space characters at the end of `s`. */
  function TrailingSpace(s: string): (k: nat)
    ensures k <= |s|
    ensures forall i :: |s| - k <= i < |s| ==> IsSpace(s[i])
    ensures k < |s| ==> !IsSpace(s[|s| - 1 - k])
  {
    if |s| > 0 && IsSpace(s[|s| - 1]) then 1 + TrailingSpace(s[..|s| - 1]) else 0
  }

  predicate IsBlank(s: string) {
    forall i :: 0 <= i < |s| ==> IsSpace(s[i])
  }

  /** `s.trim()`: the part of `s` between its leading and its trailing white
      space. What is cut off is white space only, and what is kept neither
      starts nor ends with white space. */
  function Trim(s: string): (r: string)
    ensures LeadingSpace(s) + |r| <= |s|
    ensures r == s[LeadingSpace(s)..LeadingSpace(s) + |r|]
    ensures forall i :: 0 <= i < |s| && !(LeadingSpace(s) <= i < LeadingSpace(s) + |r|) ==> IsSpace(s[i])
    ensures r != [] ==> !IsSpace(r[0]) && !IsSpace(r[|r| - 1])
    ensures r == [] <==> IsBlank(s)
  {
    var rest := s[LeadingSpace(s)..];
    rest[..|rest| - TrailingSpace(rest)]
  }

  /** Trimming a trimmed string changes nothing. */
  lemma TrimIdempotent(s: string)
    ensures Trim(Trim(s)) == Trim(s)
  {
    var r := Trim(s);
    if r != [] {
      assert LeadingSpace(r) == 0;
      assert TrailingSpace(r) == 0;
      assert r[0..][..|r|] == r;
    }
  }

  /** What the form hands to `onAddTask` when submitted with `text` typed
      in, or `None` when the submission is ignored. */
  function SubmittedTitle(text: string): (title: Option<string>)
    ensures title.None? <==> IsBlank(text)
    ensures title.Some? ==> title.value != [] && title.value == Trim(text)
    ensures title.Some? ==> !IsSpace(title.value[0]) && !IsSpace(title.value[|title.value| - 1])
  {
    var t := Trim(text);
    if t != [] then Some(t) else None
  }

  /** The add-task form and its text field. */
  class TaskForm {
    var newTaskTitle: string

    constructor ()
      ensures newTaskTitle == []
    {
      newTaskTitle := [];
    }

    /** The input's `onChange`: the field holds what was typed. */
    method Change(text: string)
      modifies this
      ensures newTaskTitle == text
    {
      newTaskTitle := text;
    }

    /** `handleSubmit`: a non-blank entry is passed on trimmed and the field
        is cleared; a blank entry is ignored and the field kept. */
    method Submit() returns (title: Option<string>)
      modifies this
      ensures title == SubmittedTitle(old(newTaskTitle))
      ensures newTaskTitle == if title.Some? then [] else old(newTaskTitle)
    {
      var trimmed := Trim(newTaskTitle);
      if trimmed != [] {
        title := Some(trimmed);
        newTaskTitle := [];
      } else {
        title := None;
      }
    }
  }

  /** A row's click selects its task only when the task is not completed. */
  predicate CanSelect(t: Task) {
    !t.completed
  }

  const MAX_TOMATOES: nat := 5

  /** Number of tomato icons on a row. */
  function TomatoCount(sessions: nat): (k: nat)
    ensures k <= MAX_TOMATOES && k <= sessions
    ensures k == sessions || k == MAX_TOMATOES
  {
    if sessions < MAX_TOMATOES then sessions else MAX_TOMATOES
  }

  /** The `+n` counter after the icons, shown only past five sessions. */
  function Overflow(sessions: nat): (extra: Option<nat>)
    ensures extra.Some? <==> sessions > MAX_TOMATOES
    ensures extra.Some? ==> extra.value > 0
  {
    if sessions > MAX_TOMATOES then Some(sessions - MAX_TOMATOES) else None
  }

  /** Icons and counter together always account for every session. */
  lemma BadgeAccountsForSessions(sessions: nat)
    ensures TomatoCount(sessions) + (if Overflow(sessions).Some? then Overflow(sessions).value else 0) == sessions
  {
  }

  /** The "in progress" badge of a row. */
  predicate ShowsInProgress(activeTaskId: Option<string>, t: Task) {
    activeTaskId == Some(t.id) && !t.completed
  }
}
