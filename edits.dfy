/** What the inline editors of the task cards decide, shared by
    components/dashboard-task-card.tsx and components/task-card.tsx: the
    outcome of an edit, the keys the editors react to, and the deadline
    save both cards perform. */
module Edits {
  import opened Wrappers
  import opened JsDate
  import opened Datetime

  /** The outcome of finishing an edit: send a change, restore the shown
      value, refuse with an alert (the editor stays open), or close without
      sending anything. */
  datatype Outcome<T> = Submit(payload: T) | Revert | Reject(alert: string) | NoOp

  /** The keys the editors distinguish. */
  datatype Key = Enter | Escape | OtherKey

  const InvalidDeadlineAlert := "Invalid deadline. Please check date/time."

  /** Saving the date and time inputs: an empty date clears the deadline;
      otherwise the inputs are read at +08:00 and sent as a UTC ISO string,
      and a date-time that cannot be read is refused with the alert. */
  function DeadlineSave(draft: InputParts): (r: Outcome<Option<string>>)
    ensures r.Submit? || r == Reject(InvalidDeadlineAlert)
    ensures r == Submit(None) <==> draft.date == ""
    ensures r.Reject? <==> draft.date != "" && ParseInstant(CandidateText(draft.date, Some(draft.time))) == None
    ensures r.Submit? && r.payload.Some? ==>
              exists t :: ParseInstant(CandidateText(draft.date, Some(draft.time))) == Some(t)
                          && r.payload.value == ToIsoString(t)
  {
    if draft.date == "" then Submit(None)
    else match BuildUtcIsoFromParts(draft.date, Some(draft.time))
      case Err(_) => Reject(InvalidDeadlineAlert)
      case Ok(iso) => Submit(iso)
  }

  /** Saving the inputs as they were filled from a deadline: no deadline
      (or one that does not parse) is sent as `null`; a deadline whose
      Taipei year has four digits is sent back truncated to the minute. */
  lemma UnchangedDraftSavesDeadline(deadline: Option<string>)
    ensures DeadlineInstant(deadline).None? ==> DeadlineSave(DeadlineToInputParts(deadline)) == Submit(None)
    ensures (DeadlineInstant(deadline).Some? && 1000 <= TaipeiFields(DeadlineInstant(deadline).value).date.year <= 9999)
              ==> var r := DeadlineSave(DeadlineToInputParts(deadline));
                  && r.Submit? && r.payload.Some?
                  && ParseInstant(r.payload.value) == Some(TruncMinute(DeadlineInstant(deadline).value))
  {
    if DeadlineInstant(deadline).Some? && 1000 <= TaipeiFields(DeadlineInstant(deadline).value).date.year <= 9999 {
      InputPartsRoundTrip(deadline);
    }
  }
}
