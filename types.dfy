/** The task record the back end sends and the closed enumerations inside
    it (types/index.ts). */
module Types {
  import opened Wrappers
  import JsDate

  /** The kind of a task; the back end sends the lower-case name. */
  datatype TaskType = School | Skill | Misc

  function TaskTypeText(t: TaskType): string {
    match t
    case School => "school"
    case Skill => "skill"
    case Misc => "misc"
  }

  /** Reading a wire string back: exactly the three lower-case names are
      known, and each names the one type it is the text of. */
  function ParseTaskType(s: string): (r: Option<TaskType>)
    ensures r.Some? <==> s == "school" || s == "skill" || s == "misc"
    ensures forall t :: r == Some(t) <==> TaskTypeText(t) == s
  {
    if s == "school" then Some(School)
    else if s == "skill" then Some(Skill)
    else if s == "misc" then Some(Misc)
    else None
  }

  /** The life-cycle stage of a task. `InDock` is the stage the dock shows
      (components/global-dock.tsx:16); the source enumeration has no member
      for it, see `StatusMember`. */
  datatype TaskStatus = Draft | Staged | InDock | Completed | Incinerated

  /** The wire text of a stage; the in-dock text is the one the back end
      is taken to send (it appears in none of the source files). */
  function TaskStatusText(s: TaskStatus): string {
    match s
    case Draft => "draft"
    case Staged => "staged"
    case InDock => "in_dock"
    case Completed => "completed"
    case Incinerated => "incinerated"
  }

  function ParseTaskStatus(w: string): (r: Option<TaskStatus>)
    ensures r.Some? <==> w in {"draft", "staged", "in_dock", "completed", "incinerated"}
    ensures forall s :: r == Some(s) <==> TaskStatusText(s) == w
  {
    if w == "draft" then Some(Draft)
    else if w == "staged" then Some(Staged)
    else if w == "in_dock" then Some(InDock)
    else if w == "completed" then Some(Completed)
    else if w == "incinerated" then Some(Incinerated)
    else None
  }

  /** `TaskStatus.<NAME>` as the enumeration is declared: four members, each
      standing for the stage whose wire text is its value, so naming any
      other member yields `undefined` (`None`). No member name gives the
      in-dock stage. */
  function StatusMember(name: string): (r: Option<TaskStatus>)
    ensures r.Some? <==> name in {"DRAFT", "STAGED", "COMPLETED", "INCINERATED"}
    ensures name == "DRAFT" <==> r == Some(Draft)
    ensures name == "STAGED" <==> r == Some(Staged)
    ensures name == "COMPLETED" <==> r == Some(Completed)
    ensures name == "INCINERATED" <==> r == Some(Incinerated)
    ensures r != Some(InDock)
  {
    if name == "DRAFT" then Some(Draft)
    else if name == "STAGED" then Some(Staged)
    else if name == "COMPLETED" then Some(Completed)
    else if name == "INCINERATED" then Some(Incinerated)
    else None
  }

  /** A task as the back end returns it. */
  datatype Task = Task(
    id: int,
    title: string,
    taskType: TaskType,
    status: TaskStatus,
    difficulty: int,
    xpValue: int,
    deadline: Option<string>,
    createdAt: string,
    updatedAt: string)

  /** The documented ranges: difficulty 1 to 10, and a deadline that is
      absent or a date-time with a zone. */
  predicate WellFormed(t: Task) {
    && 1 <= t.difficulty <= 10
    && (t.deadline.Some? ==> JsDate.ParseInstant(t.deadline.value).Some?)
  }

  /** What creating a task sends: a title and a type, the other fields
      optional (`deadline` may also be sent as `null`). */
  datatype TaskCreatePayload = TaskCreatePayload(
    title: string,
    taskType: TaskType,
    difficulty: Option<int>,
    xpValue: Option<int>,
    deadline: Option<Option<string>>)
}
