/** The dock (components/global-dock.tsx): the tasks in the in-dock stage,
    shown in three slots with a counter, and the confirm-then-delete
    button of an occupied slot. */
module GlobalDock {
  import opened Wrappers
  import opened Text
  import opened Types

  /** The number of slots. */
  const Capacity := 3

  /** `tasks.filter(t => t.status === TaskStatus.IN_DOCK)` with the in-dock
      stage the filter means: the in-dock tasks, in list order. */
  function DockedTasks(tasks: seq<Task>): (r: seq<Task>)
    ensures |r| <= |tasks|
    ensures forall t | t in r :: t in tasks && t.status == InDock
    ensures forall t | t in tasks && t.status == InDock :: t in r
  {
    if tasks == [] then []
    else if tasks[0].status == InDock then [tasks[0]] + DockedTasks(tasks[1..])
    else DockedTasks(tasks[1..])
  }

  /** Filtering keeps list order: the docked tasks of a concatenation are
      those of the first part followed by those of the second. */
  lemma {:induction false} DockedTasksConcat(a: seq<Task>, b: seq<Task>)
    ensures DockedTasks(a + b) == DockedTasks(a) + DockedTasks(b)
  {
    if a == [] {
      assert a + b == b;
    } else {
      assert (a + b)[0] == a[0] && (a + b)[1..] == a[1..] + b;
      DockedTasksConcat(a[1..], b);
    }
  }

  /** `tasks.filter(t => t.status === TaskStatus[name])`: the tasks whose
      status is the enumeration member called `name`, in list order. */
  function StatusFilter(tasks: seq<Task>, name: string): (r: seq<Task>)
    ensures |r| <= |tasks|
    ensures forall t | t in r :: t in tasks && Some(t.status) == StatusMember(name)
    ensures forall t | t in tasks && Some(t.status) == StatusMember(name) :: t in r
  {
    if tasks == [] then []
    else if Some(tasks[0].status) == StatusMember(name) then [tasks[0]] + StatusFilter(tasks[1..], name)
    else StatusFilter(tasks[1..], name)
  }

  /** The dock's filter as written: `TaskStatus.IN_DOCK` is not a member of
      the enumeration, so every task is compared against `undefined`. */
  function DockedTasksAsWritten(tasks: seq<Task>): (r: seq<Task>)
    ensures |r| <= |tasks|
    ensures forall t | t in r :: t in tasks && Some(t.status) == StatusMember("IN_DOCK")
  {
    StatusFilter(tasks, "IN_DOCK")
  }

  /** As written the dock is always empty, whatever the list holds. */
  lemma DockAlwaysEmptyAsWritten(tasks: seq<Task>)
    ensures DockedTasksAsWritten(tasks) == []
  {
    UndeclaredMemberKeepsNothing(tasks, "IN_DOCK");
  }

  /** Filtering on a name the enumeration does not declare keeps no task. */
  lemma {:induction false} UndeclaredMemberKeepsNothing(tasks: seq<Task>, name: string)
    requires StatusMember(name) == None
    ensures StatusFilter(tasks, name) == []
  {
    if tasks != [] {
      UndeclaredMemberKeepsNothing(tasks[1..], name);
    }
  }

  /** A docked task the filter as written drops. */
  lemma DockedTaskMissedAsWritten(t: Task)
    requires t.status == InDock
    ensures DockedTasks([t]) == [t]
    ensures DockedTasksAsWritten([t]) == []
  {
    DockAlwaysEmptyAsWritten([t]);
  }

  /** What the dock shows: one entry per slot, the counter text and
      whether the dock is full. */
  datatype DockView = DockView(slots: seq<Option<Task>>, counter: string, full: bool)

  /** The dock for the cached list (`data: tasks = []`: no list yet shows
      an empty dock). Slot `i` holds the `i`-th docked task if there is one;
      docked tasks past the third are not shown; the dock is full exactly
      when every slot is occupied; the counter reads `n / 3`. */
  function Dock(cache: Option<seq<Task>>): (v: DockView)
    ensures var docked := DockedTasks(cache.GetOr([]));
            && |v.slots| == Capacity
            && (forall i | 0 <= i < Capacity :: v.slots[i] == if i < |docked| then Some(docked[i]) else None)
            && (v.full <==> |docked| >= Capacity)
            && (v.full <==> forall i | 0 <= i < Capacity :: v.slots[i].Some?)
            && v.counter == NatText(|docked|) + " / 3"
  {
    var docked := DockedTasks(cache.GetOr([]));
    var slots := seq(Capacity, i requires 0 <= i < Capacity =>
                       if i < |docked| then Some(docked[i]) else None);
    assert |docked| < Capacity ==> slots[|docked|].None?;
    DockView(slots, IntText(|docked|) + " / 3", |docked| >= Capacity)
  }

  /** The counter names the number of docked tasks in decimal. */
  lemma CounterCountsDocked(cache: Option<seq<Task>>)
    ensures var c := Dock(cache).counter;
            && |c| > 4 && c[|c| - 4..] == " / 3"
            && AllDigits(c[..|c| - 4])
            && DigitsValue(c[..|c| - 4]) == |DockedTasks(cache.GetOr([]))|
  {
    var n := |DockedTasks(cache.GetOr([]))|;
    var c := Dock(cache).counter;
    assert c[..|c| - 4] == NatText(n);
    NatTextValue(n);
  }

  /** Pressing the flame button of a slot: a delete of that slot's task is
      dispatched only for an occupied slot, and only once the user has
      confirmed. */
  function RemoveRequest(v: DockView, slot: nat, confirmed: bool): (r: Option<int>)
    requires |v.slots| == Capacity
    ensures r.Some? <==> slot < Capacity && v.slots[slot].Some? && confirmed
    ensures r.Some? ==> r.value == v.slots[slot].value.id
  {
    if slot < Capacity && v.slots[slot].Some? && confirmed then Some(v.slots[slot].value.id) else None
  }

  /** Whatever the dock removes is an in-dock task of the cached list. */
  lemma RemoveTargetsDockedTask(cache: Option<seq<Task>>, slot: nat, confirmed: bool)
    requires RemoveRequest(Dock(cache), slot, confirmed).Some?
    ensures exists t :: t in cache.GetOr([]) && t.status == InDock
                        && t.id == RemoveRequest(Dock(cache), slot, confirmed).value
  {
    var docked := DockedTasks(cache.GetOr([]));
    var t := docked[slot];
    assert t in docked;
  }
}
