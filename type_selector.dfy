/** The task-type dropdown (components/type-selector.tsx): its option table,
    the lookup of the current option and the update a selection sends. */
module TypeSelector {
  import opened Wrappers
  import opened Types
  import opened UseTasks

  /** One entry of the dropdown: the type, its label text and its colour classes. */
  datatype TypeOption = TypeOption(value: TaskType, text: string, color: string)

  const TypeOptions: seq<TypeOption> := [
    TypeOption(School, "SCHOOL", "bg-[#FFDE59] text-black"),
    TypeOption(Skill, "SKILL", "bg-[#54A0FF] text-white"),
    TypeOption(Misc, "MISC", "bg-[#FF6B6B] text-white")]

  /** `options.find(o => o.value === t)`: the first entry for `t`. */
  function Find(options: seq<TypeOption>, t: TaskType): (r: Option<TypeOption>)
    ensures r.Some? ==> r.value in options && r.value.value == t
    ensures r.None? ==> forall o | o in options :: o.value != t
    ensures r.Some? ==> exists i | 0 <= i < |options| ::
              options[i] == r.value && forall j | 0 <= j < i :: options[j].value != t
  {
    if options == [] then None
    else if options[0].value == t then Some(options[0])
    else
      var r := Find(options[1..], t);
      if r.Some? then
        var i :| 0 <= i < |options[1..]| && options[1..][i] == r.value
                 && forall j | 0 <= j < i :: options[1..][j].value != t;
        assert options[i + 1] == r.value;
        assert forall j | 0 <= j < i + 1 :: options[j].value != t by {
          assert forall j | 1 <= j < i + 1 :: options[j] == options[1..][j - 1];
        }
        r
      else r
  }

  /** The table has exactly one entry per type, with distinct label texts. */
  lemma TypeOptionsOnePerType(t: TaskType)
    ensures exists i :: 0 <= i < |TypeOptions| && TypeOptions[i].value == t
    ensures forall i, j | 0 <= i < j < |TypeOptions| ::
              TypeOptions[i].value != TypeOptions[j].value && TypeOptions[i].text != TypeOptions[j].text
  {
    var i := match t case School => 0 case Skill => 1 case Misc => 2;
    assert TypeOptions[i].value == t;
  }

  /** `TYPE_OPTIONS.find(o => o.value === currentType)!`: never missing. */
  function CurrentOption(t: TaskType): (o: TypeOption)
    ensures o in TypeOptions && o.value == t
  {
    TypeOptionsOnePerType(t);
    var r := Find(TypeOptions, t);
    assert r.Some? by {
      var i :| 0 <= i < |TypeOptions| && TypeOptions[i].value == t;
      assert TypeOptions[i] in TypeOptions;
    }
    r.value
  }

  /** `handleSelect`: choosing the current type sends nothing; any other
      type sends exactly the task's id and the new type. */
  function HandleSelect(taskId: int, currentType: TaskType, newType: TaskType): (r: Option<UpdatePayload>)
    ensures r.None? <==> newType == currentType
    ensures r.Some? ==> r.value == TypeUpdate(taskId, newType)
  {
    if newType != currentType then Some(TypeUpdate(taskId, newType)) else None
  }

  /** The trigger cannot be opened when the selector is disabled or an
      update is in flight. */
  predicate TriggerDisabled(disabled: bool, isPending: bool) {
    disabled || isPending
  }

  /** Selecting through an enabled trigger: a disabled one lets no
      selection through. */
  function Select(taskId: int, currentType: TaskType, newType: TaskType, disabled: bool, isPending: bool): (r: Option<UpdatePayload>)
    ensures TriggerDisabled(disabled, isPending) ==> r.None?
    ensures !TriggerDisabled(disabled, isPending) ==> r == HandleSelect(taskId, currentType, newType)
  {
    if TriggerDisabled(disabled, isPending) then None else HandleSelect(taskId, currentType, newType)
  }

  /** A selection that sends an update changes the task's type in the
      cache to the selected one and nothing else. */
  lemma SelectionChangesOnlyType(t: Task, newType: TaskType)
    requires HandleSelect(t.id, t.taskType, newType).Some?
    ensures Merge(t, HandleSelect(t.id, t.taskType, newType).value) == t.(taskType := newType)
  {
  }
}
