/** The list task card (components/task-card.tsx): an inline title editor,
    an inline deadline editor and the stage button. Unlike the dashboard
    card it keeps no effect on the task's title, only on its deadline. */
module TaskCard {
  import opened Wrappers
  import opened Text
  import opened Datetime
  import opened Types
  import opened UseTasks
  import opened Edits
  import DashboardTaskCard

  /** `handleTitleBlur`: a title that differs from the current one and is
      not blank is sent trimmed; any other title is reverted. */
  function TitleBlurDecision(title: string, current: string): (r: Outcome<string>)
    ensures r.Submit? || r == Revert
    ensures r.Submit? <==> title != current && !IsBlank(title)
    ensures r.Submit? ==> r.payload == Trim(title)
  {
    if title != current && Trim(title) != [] then Submit(Trim(title)) else Revert
  }

  /** The two cards agree on every blur where the typed title differs
      from the current one both before and after trimming: both send the
      trimmed title, and both revert a blank one. */
  lemma CardsAgreeOnRealChanges(title: string, current: string)
    requires title != current && Trim(title) != current
    ensures TitleBlurDecision(title, current) == DashboardTaskCard.TitleBlurDecision(title, current)
  {
  }

  /** Where they differ: padding the current title with a space and
      leaving the editor sends the unchanged title here, and nothing on the
      dashboard card. */
  lemma PaddedTitleResent(current: string)
    requires current != [] && !IsJsWhitespace(current[0]) && !IsJsWhitespace(current[|current| - 1])
    ensures TitleBlurDecision(current + " ", current) == Submit(current)
    ensures DashboardTaskCard.TitleBlurDecision(current + " ", current) == NoOp
  {
    var padded := current + " ";
    assert padded != current by { assert |padded| == |current| + 1; }
    TrimUnchanged(current);
    TrimDropsTrailingSpace(current);
    assert !IsBlank(padded) by { assert padded[0] == current[0]; }
  }

  /** The stage button is shown only where the card is asked to show it
      and the task is a draft; pressing it while an update is pending does
      nothing; otherwise it moves the task to the staged stage. */
  function StageRequest(showStageButton: bool, task: Task, isPending: bool): (r: Option<UpdatePayload>)
    ensures r.Some? <==> showStageButton && task.status == Draft && !isPending
    ensures r.Some? ==> r.value == StatusUpdate(task.id, Staged)
  {
    if showStageButton && task.status == Draft && !isPending then Some(StatusUpdate(task.id, Staged)) else None
  }

  /** Staging changes the task's stage and nothing else. */
  lemma StagingMovesOnlyStatus(showStageButton: bool, task: Task, isPending: bool)
    requires StageRequest(showStageButton, task, isPending).Some?
    ensures Merge(task, StageRequest(showStageButton, task, isPending).value) == task.(status := Staged)
  {
  }

  /** The card: its task (a prop), whether the stage button may be shown,
      and the state of its two inline editors. */
  class Card {
    var task: Task
    const showStageButton: bool
    var isEditingTitle: bool
    var title: string
    var isEditingDeadline: bool
    var deadlineDraft: InputParts

    /** The deadline inputs hold the date and time the task's deadline shows. */
    predicate ShowsDeadline()
      reads this
    {
      deadlineDraft == DeadlineToInputParts(task.deadline)
    }

    constructor(task: Task, showStageButton: bool)
      ensures this.task == task && this.showStageButton == showStageButton
      ensures title == task.title && !isEditingTitle && !isEditingDeadline && ShowsDeadline()
    {
      this.task := task;
      this.showStageButton := showStageButton;
      isEditingTitle := false;
      title := task.title;
      isEditingDeadline := false;
      deadlineDraft := DeadlineToInputParts(task.deadline);
      new;
      assert ShowsDeadline();
    }

    method OpenTitle()
      modifies this
      ensures isEditingTitle && title == old(title) && task == old(task)
      ensures isEditingDeadline == old(isEditingDeadline) && deadlineDraft == old(deadlineDraft)
    {
      isEditingTitle := true;
    }

    method TypeTitle(text: string)
      modifies this
      ensures title == text && isEditingTitle == old(isEditingTitle) && task == old(task)
      ensures isEditingDeadline == old(isEditingDeadline) && deadlineDraft == old(deadlineDraft)
    {
      title := text;
    }

    /** `handleTitleBlur`: a change is sent as a title update of this
        task, anything else shows the task's title again; the editor closes. */
    method HandleTitleBlur() returns (dispatched: Option<UpdatePayload>)
      modifies this
      ensures var r := TitleBlurDecision(old(title), task.title);
              && dispatched == (if r.Submit? then Some(TitleUpdate(task.id, r.payload)) else None)
              && title == (if r == Revert then task.title else old(title))
      ensures !isEditingTitle && task == old(task)
      ensures isEditingDeadline == old(isEditingDeadline) && deadlineDraft == old(deadlineDraft)
    {
      var r := TitleBlurDecision(title, task.title);
      dispatched := None;
      if r.Submit? {
        dispatched := Some(TitleUpdate(task.id, r.payload));
      } else {
        title := task.title;
      }
      isEditingTitle := false;
    }

    /** `handleTitleKeyDown`: Enter blurs the input, Escape restores the
        task's title and closes the editor. */
    method HandleTitleKeyDown(key: Key) returns (dispatched: Option<UpdatePayload>)
      modifies this
      ensures key == Enter ==> !isEditingTitle
      ensures key == Enter ==> var r := TitleBlurDecision(old(title), task.title);
                               && dispatched == (if r.Submit? then Some(TitleUpdate(task.id, r.payload)) else None)
                               && title == (if r.Submit? then old(title) else task.title)
      ensures key == Escape ==> dispatched == None && title == task.title && !isEditingTitle
      ensures key == OtherKey ==> dispatched == None && title == old(title) && isEditingTitle == old(isEditingTitle)
      ensures task == old(task)
      ensures isEditingDeadline == old(isEditingDeadline) && deadlineDraft == old(deadlineDraft)
    {
      dispatched := None;
      if key == Enter {
        dispatched := HandleTitleBlur();
      } else if key == Escape {
        title := task.title;
        isEditingTitle := false;
      }
    }

    method OpenDeadline()
      modifies this
      ensures isEditingDeadline && deadlineDraft == old(deadlineDraft) && task == old(task)
      ensures title == old(title) && isEditingTitle == old(isEditingTitle)
    {
      isEditingDeadline := true;
    }

    method TypeDeadline(date: string, time: string)
      modifies this
      ensures deadlineDraft == InputParts(date, time) && task == old(task)
      ensures isEditingDeadline == old(isEditingDeadline)
      ensures title == old(title) && isEditingTitle == old(isEditingTitle)
    {
      deadlineDraft := InputParts(date, time);
    }

    /** `handleDeadlineSave`: an empty date sends `deadline: null`, a
        readable one its UTC ISO string, and the editor closes; a date-time
        that cannot be read sends nothing and leaves the editor open behind
        the alert. */
    method HandleDeadlineSave() returns (dispatched: Option<UpdatePayload>, alert: Option<string>)
      modifies this
      ensures var r := DeadlineSave(old(deadlineDraft));
              && dispatched == (if r.Submit? then Some(DeadlineUpdate(task.id, r.payload)) else None)
              && alert == (if r.Reject? then Some(InvalidDeadlineAlert) else None)
              && isEditingDeadline == (r.Reject? && old(isEditingDeadline))
      ensures deadlineDraft == old(deadlineDraft) && task == old(task)
      ensures title == old(title) && isEditingTitle == old(isEditingTitle)
    {
      var r := DeadlineSave(deadlineDraft);
      if r.Submit? {
        dispatched, alert := Some(DeadlineUpdate(task.id, r.payload)), None;
        isEditingDeadline := false;
      } else {
        dispatched, alert := None, Some(r.alert);
      }
    }

    /** `handleDeadlineCancel`: the inputs show the task's deadline again. */
    method HandleDeadlineCancel()
      modifies this
      ensures ShowsDeadline() && !isEditingDeadline && task == old(task)
      ensures title == old(title) && isEditingTitle == old(isEditingTitle)
    {
      var parts := DeadlineToInputParts(task.deadline);
      deadlineDraft, isEditingDeadline := parts, false;
    }

    /** The stage button's click. */
    method StageClick(isPending: bool) returns (dispatched: Option<UpdatePayload>)
      ensures dispatched == StageRequest(showStageButton, task, isPending)
    {
      dispatched := StageRequest(showStageButton, task, isPending);
    }

    /** A new task from the cache: only a changed deadline refills the
        deadline inputs; the title state is kept as it is. */
    method ReceiveTask(t: Task)
      modifies this
      ensures task == t && title == old(title)
      ensures isEditingTitle == old(isEditingTitle) && isEditingDeadline == old(isEditingDeadline)
      ensures deadlineDraft == (if t.deadline != old(task.deadline) then DeadlineToInputParts(t.deadline)
                                else old(deadlineDraft))
    {
      if t.deadline != task.deadline {
        var parts := DeadlineToInputParts(t.deadline);
        deadlineDraft := parts;
      }
      task := t;
    }

    /** With no title effect, a title changed elsewhere is not picked up:
        opening the editor and leaving it at once sends the old title back. */
    method StaleTitleResent(renamed: string) returns (dispatched: Option<UpdatePayload>)
      requires title == task.title && !IsBlank(title) && renamed != title
      modifies this
      ensures dispatched == Some(TitleUpdate(task.id, Trim(old(title))))
      ensures task.title == renamed
    {
      ReceiveTask(task.(title := renamed));
      OpenTitle();
      dispatched := HandleTitleBlur();
    }
  }
}
