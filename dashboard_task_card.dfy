/** The dashboard's task card (components/dashboard-task-card.tsx): an
    inline title editor, two number badges (difficulty and xp) and a
    deadline editor, each with its own state. The number a draft reads as,
    `Math.round(Number(draft))`, is a parameter: `None` when it is not
    finite. */
module DashboardTaskCard {
  import opened Wrappers
  import opened Text
  import opened Datetime
  import opened Types
  import opened UseTasks
  import opened Edits

  /** Both bounds that are given hold. */
  predicate InBounds(x: int, min: Option<int>, max: Option<int>) {
    (min.Some? ==> min.value <= x) && (max.Some? ==> x <= max.value)
  }

  /** `NumberBadgeEditor.commit`: a draft that is not a finite number
      restores the shown value; a number out of bounds is refused with an
      alert naming the bound it breaks (the lower one first); otherwise the
      number is sent if it differs from the current value. */
  function CommitDecision(value: int, min: Option<int>, max: Option<int>, parsed: Option<int>): (r: Outcome<int>)
    ensures r == Revert <==> parsed.None?
    ensures r.Reject? <==> parsed.Some? && !InBounds(parsed.value, min, max)
    ensures r.Reject? && min.Some? && parsed.value < min.value ==> r.alert == "Value must be >= " + IntText(min.value)
    ensures r.Reject? && !(min.Some? && parsed.value < min.value) ==> r.alert == "Value must be <= " + IntText(max.value)
    ensures r.Submit? <==> parsed.Some? && InBounds(parsed.value, min, max) && parsed.value != value
    ensures r.Submit? ==> r.payload == parsed.value
    ensures r == NoOp <==> parsed == Some(value) && InBounds(value, min, max)
  {
    match parsed
    case None => Revert
    case Some(n) =>
      if min.Some? && n < min.value then Reject("Value must be >= " + IntText(min.value))
      else if max.Some? && n > max.value then Reject("Value must be <= " + IntText(max.value))
      else if n != value then Submit(n)
      else NoOp
  }

  /** A number badge: the shown value (a prop), whether it is being edited,
      and the draft text of the input. */
  class NumberBadgeEditor {
    const min: Option<int>
    const max: Option<int>
    var value: int
    var isEditing: bool
    var draft: string

    constructor(value: int, min: Option<int>, max: Option<int>)
      ensures this.value == value && this.min == min && this.max == max
      ensures !isEditing && draft == IntText(value)
    {
      this.value := value;
      this.min := min;
      this.max := max;
      isEditing := false;
      draft := IntText(value);
    }

    /** A click on the badge opens the input. */
    method Open()
      modifies this
      ensures isEditing && value == old(value) && draft == old(draft)
    {
      isEditing := true;
    }

    /** Typing replaces the draft. */
    method Type(text: string)
      modifies this
      ensures draft == text && value == old(value) && isEditing == old(isEditing)
    {
      draft := text;
    }

    /** `commit`, with `parsed` the number the draft reads as. A refused
        number leaves the editor as it was; otherwise it closes, and a
        draft that is not a number is replaced by the shown value. */
    method Commit(parsed: Option<int>) returns (submitted: Option<int>)
      modifies this
      ensures var r := CommitDecision(old(value), min, max, parsed);
              && submitted == (if r.Submit? then Some(r.payload) else None)
              && isEditing == (r.Reject? && old(isEditing))
              && draft == (if r == Revert then IntText(old(value)) else old(draft))
      ensures value == old(value)
      ensures submitted.Some? ==> InBounds(submitted.value, min, max) && submitted.value != value
    {
      var r := CommitDecision(value, min, max, parsed);
      submitted := None;
      match r {
        case Revert =>
          draft := IntText(value);
          isEditing := false;
        case Reject(_) =>
        case Submit(n) =>
          submitted := Some(n);
          isEditing := false;
        case NoOp =>
          isEditing := false;
      }
    }

    /** `cancel`: the draft shows the value again and the input closes. */
    method Cancel()
      modifies this
      ensures draft == IntText(value) && !isEditing && value == old(value)
    {
      draft := IntText(value);
      isEditing := false;
    }

    /** `handleKeyDown`: Enter commits, Escape cancels, other keys do nothing. */
    method KeyDown(key: Key, parsed: Option<int>) returns (submitted: Option<int>)
      modifies this
      ensures key == Enter ==> var r := CommitDecision(old(value), min, max, parsed);
                               && submitted == (if r.Submit? then Some(parsed.value) else None)
                               && isEditing == (r.Reject? && old(isEditing))
                               && draft == (if r == Revert then IntText(old(value)) else old(draft))
      ensures key == Escape ==> submitted == None && !isEditing && draft == IntText(value)
      ensures key == OtherKey ==> submitted == None && isEditing == old(isEditing) && draft == old(draft)
      ensures value == old(value)
    {
      submitted := None;
      if key == Enter {
        submitted := Commit(parsed);
      } else if key == Escape {
        Cancel();
      }
    }

    /** The effect on `value`: a new value replaces the draft. */
    method ReceiveValue(v: int)
      modifies this
      ensures value == v && isEditing == old(isEditing)
      ensures draft == (if v != old(value) then IntText(v) else old(draft))
    {
      if v != value {
        draft := IntText(v);
      }
      value := v;
    }
  }

  /** The deadline editor: the deadline shown (a prop), whether it is being
      edited, and the contents of its date and time inputs. */
  class DeadlineEditor {
    var deadline: Option<string>
    var isEditing: bool
    var draft: InputParts

    /** The inputs hold the date and time the deadline shows. */
    predicate ShowsDeadline()
      reads this
    {
      draft == DeadlineToInputParts(deadline)
    }

    constructor(deadline: Option<string>)
      ensures this.deadline == deadline && !isEditing && ShowsDeadline()
    {
      this.deadline := deadline;
      isEditing := false;
      draft := DeadlineToInputParts(deadline);
    }

    method Open()
      modifies this
      ensures isEditing && deadline == old(deadline) && draft == old(draft)
    {
      isEditing := true;
    }

    /** Typing into the date or the time input. */
    method Type(date: string, time: string)
      modifies this
      ensures draft == InputParts(date, time) && deadline == old(deadline) && isEditing == old(isEditing)
    {
      draft := InputParts(date, time);
    }

    /** `handleSave`: on a readable (or empty) date the new deadline is
        handed on and the editor closes; otherwise it stays open behind the
        alert. */
    method HandleSave() returns (saved: Option<Option<string>>, alert: Option<string>)
      modifies this
      ensures var r := DeadlineSave(old(draft));
              && saved == (if r.Submit? then Some(r.payload) else None)
              && alert == (if r.Reject? then Some(r.alert) else None)
              && isEditing == (r.Reject? && old(isEditing))
      ensures draft == old(draft) && deadline == old(deadline)
    {
      var r := DeadlineSave(draft);
      if r.Submit? {
        saved, alert := Some(r.payload), None;
        isEditing := false;
      } else {
        saved, alert := None, Some(r.alert);
      }
    }

    /** `handleCancel`: the inputs show the deadline again and close. */
    method HandleCancel()
      modifies this
      ensures ShowsDeadline() && !isEditing && deadline == old(deadline)
    {
      draft := DeadlineToInputParts(deadline);
      isEditing := false;
    }

    /** The effect on `deadline`: a new deadline refills the inputs. */
    method ReceiveDeadline(d: Option<string>)
      modifies this
      ensures deadline == d && isEditing == old(isEditing)
      ensures draft == (if d != old(deadline) then DeadlineToInputParts(d) else old(draft))
    {
      if d != deadline {
        draft := DeadlineToInputParts(d);
      }
      deadline := d;
    }
  }

  /** `handleTitleBlur`: a title that is blank once trimmed is reverted; a
      trimmed title different from the current one is sent; otherwise
      nothing is sent. */
  function TitleBlurDecision(title: string, current: string): (r: Outcome<string>)
    ensures r == Revert <==> IsBlank(title)
    ensures r.Submit? <==> !IsBlank(title) && Trim(title) != current
    ensures r.Submit? ==> r.payload == Trim(title)
    ensures r == NoOp <==> !IsBlank(title) && Trim(title) == current
    ensures !r.Reject?
  {
    var trimmed := Trim(title);
    if trimmed == [] then Revert
    else if trimmed != current then Submit(trimmed)
    else NoOp
  }

  /** A title that is sent is non-empty, has no surrounding white space and
      differs from the current one. */
  lemma SubmittedTitleIsTrimmed(title: string, current: string)
    requires TitleBlurDecision(title, current).Submit?
    ensures var t := TitleBlurDecision(title, current).payload;
            && t != [] && Trim(t) == t && t != current
  {
    TrimIdempotent(title);
  }

  /** Leaving a non-empty, already trimmed title as it was sends nothing. */
  lemma UntouchedTitleSendsNothing(current: string)
    requires current != [] && !IsJsWhitespace(current[0]) && !IsJsWhitespace(current[|current| - 1])
    ensures TitleBlurDecision(current, current) == NoOp
  {
    TrimUnchanged(current);
  }

  /** A difficulty the badge sends keeps the cached task within the
      documented 1 to 10 once the update is written into it. */
  lemma DifficultyEditKeepsWellFormed(t: Task, parsed: Option<int>)
    requires WellFormed(t)
    requires CommitDecision(t.difficulty, Some(1), Some(10), parsed).Submit?
    ensures var u := Merge(t, DifficultyUpdate(t.id, CommitDecision(t.difficulty, Some(1), Some(10), parsed).payload));
            && WellFormed(u) && u.difficulty == parsed.value && u.difficulty != t.difficulty
  {
  }

  /** The card: its task (a prop), the title editor's state and the three
      badge editors. */
  class Card {
    var task: Task
    var isEditingTitle: bool
    var title: string
    const difficultyEditor: NumberBadgeEditor
    const xpEditor: NumberBadgeEditor
    const deadlineEditor: DeadlineEditor

    /** The difficulty badge takes 1 to 10, the xp badge any number from 0. */
    predicate Valid() {
      && difficultyEditor.min == Some(1) && difficultyEditor.max == Some(10)
      && xpEditor.min == Some(0) && xpEditor.max == None
    }

    constructor(task: Task)
      ensures difficultyEditor.min == Some(1) && difficultyEditor.max == Some(10)
      ensures xpEditor.min == Some(0) && xpEditor.max == None
      ensures this.task == task && title == task.title && !isEditingTitle
      ensures difficultyEditor.value == task.difficulty && xpEditor.value == task.xpValue
      ensures !difficultyEditor.isEditing && difficultyEditor.draft == IntText(task.difficulty)
      ensures !xpEditor.isEditing && xpEditor.draft == IntText(task.xpValue)
      ensures deadlineEditor.deadline == task.deadline
      ensures !deadlineEditor.isEditing && deadlineEditor.ShowsDeadline()
      ensures fresh(difficultyEditor) && fresh(xpEditor) && fresh(deadlineEditor)
    {
      var d := new NumberBadgeEditor(task.difficulty, Some(1), Some(10));
      var x := new NumberBadgeEditor(task.xpValue, Some(0), None);
      var e := new DeadlineEditor(task.deadline);
      this.task := task;
      isEditingTitle := false;
      title := task.title;
      difficultyEditor, xpEditor, deadlineEditor := d, x, e;
    }

    method OpenTitle()
      modifies this
      ensures isEditingTitle && title == old(title) && task == old(task)
    {
      isEditingTitle := true;
    }

    method TypeTitle(text: string)
      modifies this
      ensures title == text && isEditingTitle == old(isEditingTitle) && task == old(task)
    {
      title := text;
    }

    /** `handleTitleBlur`: the title editor closes; a change is sent as a
        title update of this task; a blank title shows the task's title
        again. */
    method HandleTitleBlur() returns (dispatched: Option<UpdatePayload>)
      modifies this
      ensures var r := TitleBlurDecision(old(title), task.title);
              && dispatched == (if r.Submit? then Some(TitleUpdate(task.id, r.payload)) else None)
              && title == (if r == Revert then task.title else old(title))
      ensures !isEditingTitle && task == old(task)
    {
      var r := TitleBlurDecision(title, task.title);
      dispatched := None;
      if r == Revert {
        title := task.title;
      } else if r.Submit? {
        dispatched := Some(TitleUpdate(task.id, r.payload));
      }
      isEditingTitle := false;
    }

    /** `handleTitleKeyDown`: Enter blurs the input, which runs the blur
        handler; Escape shows the task's title again and closes the editor. */
    method HandleTitleKeyDown(key: Key) returns (dispatched: Option<UpdatePayload>)
      modifies this
      ensures key == Enter ==> !isEditingTitle
      ensures key == Enter ==> var r := TitleBlurDecision(old(title), task.title);
                               && dispatched == (if r.Submit? then Some(TitleUpdate(task.id, r.payload)) else None)
                               && title == (if r == Revert then task.title else old(title))
      ensures key == Escape ==> dispatched == None && title == task.title && !isEditingTitle
      ensures key == OtherKey ==> dispatched == None && title == old(title) && isEditingTitle == old(isEditingTitle)
      ensures task == old(task)
    {
      dispatched := None;
      if key == Enter {
        dispatched := HandleTitleBlur();
      } else if key == Escape {
        title := task.title;
        isEditingTitle := false;
      }
    }

    /** The difficulty badge's `onSubmit`: only values from 1 to 10 are sent. */
    method CommitDifficulty(parsed: Option<int>) returns (dispatched: Option<UpdatePayload>)
      requires Valid()
      modifies difficultyEditor
      ensures dispatched.Some? ==> exists d :: 1 <= d <= 10 && dispatched.value == DifficultyUpdate(task.id, d)
      ensures var r := CommitDecision(old(difficultyEditor.value), Some(1), Some(10), parsed);
              && dispatched == (if r.Submit? then Some(DifficultyUpdate(task.id, r.payload)) else None)
              && difficultyEditor.isEditing == (r.Reject? && old(difficultyEditor.isEditing))
              && difficultyEditor.draft == (if r == Revert then IntText(old(difficultyEditor.value))
                                            else old(difficultyEditor.draft))
      ensures difficultyEditor.value == old(difficultyEditor.value)
    {
      var n := difficultyEditor.Commit(parsed);
      dispatched := if n.Some? then Some(DifficultyUpdate(task.id, n.value)) else None;
    }

    /** The xp badge's `onSubmit`: only values of at least 0 are sent, as
        `xp_value`. */
    method CommitXp(parsed: Option<int>) returns (dispatched: Option<UpdatePayload>)
      requires Valid()
      modifies xpEditor
      ensures dispatched.Some? ==> exists x :: 0 <= x && dispatched.value == XpUpdate(task.id, x)
      ensures var r := CommitDecision(old(xpEditor.value), Some(0), None, parsed);
              && dispatched == (if r.Submit? then Some(XpUpdate(task.id, r.payload)) else None)
              && xpEditor.isEditing == (r.Reject? && old(xpEditor.isEditing))
              && xpEditor.draft == (if r == Revert then IntText(old(xpEditor.value)) else old(xpEditor.draft))
      ensures xpEditor.value == old(xpEditor.value)
    {
      var n := xpEditor.Commit(parsed);
      dispatched := if n.Some? then Some(XpUpdate(task.id, n.value)) else None;
    }

    /** The deadline editor's `onSave`: the new deadline is sent as a
        deadline update of this task. */
    method SaveDeadline() returns (dispatched: Option<UpdatePayload>, alert: Option<string>)
      modifies deadlineEditor
      ensures var r := DeadlineSave(old(deadlineEditor.draft));
              && dispatched == (if r.Submit? then Some(DeadlineUpdate(task.id, r.payload)) else None)
              && alert == (if r.Reject? then Some(InvalidDeadlineAlert) else None)
              && deadlineEditor.isEditing == (r.Reject? && old(deadlineEditor.isEditing))
      ensures deadlineEditor.draft == old(deadlineEditor.draft) && deadlineEditor.deadline == old(deadlineEditor.deadline)
    {
      var saved;
      saved, alert := deadlineEditor.HandleSave();
      dispatched := if saved.Some? then Some(DeadlineUpdate(task.id, saved.value)) else None;
    }

    /** A new task from the cache: the effects refill the title, the badge
        drafts and the deadline inputs from whatever changed. */
    method ReceiveTask(t: Task)
      requires difficultyEditor != xpEditor
      modifies this, difficultyEditor, xpEditor, deadlineEditor
      ensures task == t && isEditingTitle == old(isEditingTitle)
      ensures title == (if t.title != old(task.title) then t.title else old(title))
      ensures difficultyEditor.value == t.difficulty && difficultyEditor.isEditing == old(difficultyEditor.isEditing)
      ensures difficultyEditor.draft == (if t.difficulty != old(difficultyEditor.value) then IntText(t.difficulty)
                                         else old(difficultyEditor.draft))
      ensures xpEditor.value == t.xpValue && xpEditor.isEditing == old(xpEditor.isEditing)
      ensures xpEditor.draft == (if t.xpValue != old(xpEditor.value) then IntText(t.xpValue)
                                 else old(xpEditor.draft))
      ensures deadlineEditor.deadline == t.deadline && deadlineEditor.isEditing == old(deadlineEditor.isEditing)
      ensures deadlineEditor.draft == (if t.deadline != old(deadlineEditor.deadline) then DeadlineToInputParts(t.deadline)
                                       else old(deadlineEditor.draft))
    {
      if t.title != task.title {
        title := t.title;
      }
      task := t;
      difficultyEditor.ReceiveValue(t.difficulty);
      xpEditor.ReceiveValue(t.xpValue);
      deadlineEditor.ReceiveDeadline(t.deadline);
    }
  }
}
