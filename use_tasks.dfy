/** The client-side cache of the task list and the update and delete
    mutations that act on it (hooks/use-tasks.ts). The remote call is not
    modelled: its success or failure is a parameter, and the steps of a
    mutation run one after the other. */
module UseTasks {
  import opened Wrappers
  import opened Types

  /** The fields an update sends. `None` is a field left out of the object;
      `deadline` may be sent as `null`, hence `Some(None)`. The extra
      `xpValue` is the field the xp editor sends although the declared
      interface omits it. */
  datatype UpdatePayload = UpdatePayload(
    id: int,
    title: Option<string>,
    taskType: Option<TaskType>,
    status: Option<TaskStatus>,
    deadline: Option<Option<string>>,
    difficulty: Option<int>,
    xpValue: Option<int>)

  /** An update that sends only the id and the given title. */
  function TitleUpdate(id: int, title: string): UpdatePayload {
    UpdatePayload(id, Some(title), None, None, None, None, None)
  }

  function TypeUpdate(id: int, t: TaskType): UpdatePayload {
    UpdatePayload(id, None, Some(t), None, None, None, None)
  }

  function StatusUpdate(id: int, s: TaskStatus): UpdatePayload {
    UpdatePayload(id, None, None, Some(s), None, None, None)
  }

  function DeadlineUpdate(id: int, deadline: Option<string>): UpdatePayload {
    UpdatePayload(id, None, None, None, Some(deadline), None, None)
  }

  function DifficultyUpdate(id: int, difficulty: int): UpdatePayload {
    UpdatePayload(id, None, None, None, None, Some(difficulty), None)
  }

  function XpUpdate(id: int, xp: int): UpdatePayload {
    UpdatePayload(id, None, None, None, None, None, Some(xp))
  }

  /** `{ ...task, ...newTask }`: every field the update sends overwrites
      the task's, every other field is kept. */
  function Merge(t: Task, p: UpdatePayload): (r: Task)
    ensures r.id == p.id
    ensures p.title.Some? ==> r.title == p.title.value
    ensures p.title.None? ==> r.title == t.title
    ensures p.taskType.Some? ==> r.taskType == p.taskType.value
    ensures p.taskType.None? ==> r.taskType == t.taskType
    ensures p.status.Some? ==> r.status == p.status.value
    ensures p.status.None? ==> r.status == t.status
    ensures p.deadline.Some? ==> r.deadline == p.deadline.value
    ensures p.deadline.None? ==> r.deadline == t.deadline
    ensures p.difficulty.Some? ==> r.difficulty == p.difficulty.value
    ensures p.difficulty.None? ==> r.difficulty == t.difficulty
    ensures p.xpValue.Some? ==> r.xpValue == p.xpValue.value
    ensures p.xpValue.None? ==> r.xpValue == t.xpValue
    ensures r.createdAt == t.createdAt && r.updatedAt == t.updatedAt
  {
    t.(id := p.id,
       title := p.title.GetOr(t.title),
       taskType := p.taskType.GetOr(t.taskType),
       status := p.status.GetOr(t.status),
       deadline := p.deadline.GetOr(t.deadline),
       difficulty := p.difficulty.GetOr(t.difficulty),
       xpValue := p.xpValue.GetOr(t.xpValue))
  }

  /** The `map` of the optimistic write: the update merged into every task
      with its id, in place; the others untouched. */
  function Patched(tasks: seq<Task>, p: UpdatePayload): (r: seq<Task>)
    ensures |r| == |tasks|
    ensures forall i | 0 <= i < |r| :: r[i].id == tasks[i].id
    ensures forall i | 0 <= i < |r| :: tasks[i].id != p.id ==> r[i] == tasks[i]
    ensures forall i | 0 <= i < |r| :: tasks[i].id == p.id ==> r[i] == Merge(tasks[i], p)
  {
    if tasks == [] then []
    else
      var head := if tasks[0].id == p.id then Merge(tasks[0], p) else tasks[0];
      [head] + Patched(tasks[1..], p)
  }

  /** The updater given to `setQueryData`: an absent list becomes empty. */
  function OptimisticList(cache: Option<seq<Task>>, p: UpdatePayload): (r: seq<Task>)
    ensures cache.None? ==> r == []
    ensures cache.Some? ==> r == Patched(cache.value, p)
  {
    match cache
    case None => []
    case Some(tasks) => Patched(tasks, p)
  }

  /** Merging the same update twice is merging it once. */
  lemma MergeIdempotent(t: Task, p: UpdatePayload)
    ensures Merge(Merge(t, p), p) == Merge(t, p)
  {
  }

  /** Writing the same update twice leaves the list as writing it once. */
  lemma {:induction false} PatchedIdempotent(tasks: seq<Task>, p: UpdatePayload)
    ensures Patched(Patched(tasks, p), p) == Patched(tasks, p)
  {
    if tasks != [] {
      PatchedIdempotent(tasks[1..], p);
      assert Patched(tasks, p)[1..] == Patched(tasks[1..], p);
    }
  }

  /** The optimistic write is idempotent on the cache. */
  lemma OptimisticIdempotent(cache: Option<seq<Task>>, p: UpdatePayload)
    ensures OptimisticList(Some(OptimisticList(cache, p)), p) == OptimisticList(cache, p)
  {
    if cache.Some? {
      PatchedIdempotent(cache.value, p);
    }
  }

  /** Updates of two different tasks can be written in either order. */
  lemma {:induction false} PatchedCommutes(tasks: seq<Task>, p: UpdatePayload, q: UpdatePayload)
    requires p.id != q.id
    ensures Patched(Patched(tasks, p), q) == Patched(Patched(tasks, q), p)
  {
    if tasks != [] {
      PatchedCommutes(tasks[1..], p, q);
      assert Patched(tasks, p)[1..] == Patched(tasks[1..], p);
      assert Patched(tasks, q)[1..] == Patched(tasks[1..], q);
    }
  }

  /** The query cache shared by every view: the task list (`None` before
      the first fetch) and whether the task and dashboard queries are
      marked for refetching. */
  class QueryCache {
    var tasks: Option<seq<Task>>
    var tasksStale: bool
    var dashboardStale: bool

    constructor(initial: Option<seq<Task>>)
      ensures tasks == initial && !tasksStale && !dashboardStale
    {
      tasks := initial;
      tasksStale := false;
      dashboardStale := false;
    }

    /** `useTasks`: the list the server returned replaces the cache and the
        task query is fresh again. */
    method Refetch(server: seq<Task>)
      modifies this
      ensures tasks == Some(server) && !tasksStale && dashboardStale == old(dashboardStale)
    {
      tasks := Some(server);
      tasksStale := false;
    }

    /** `onMutate`: snapshot the whole list, then write the update into it. */
    method OnMutate(p: UpdatePayload) returns (previous: Option<seq<Task>>)
      modifies this
      ensures previous == old(tasks)
      ensures tasks == Some(OptimisticList(old(tasks), p))
      ensures tasksStale == old(tasksStale) && dashboardStale == old(dashboardStale)
    {
      previous := tasks;
      tasks := Some(OptimisticList(tasks, p));
    }

    /** `onError`: put the snapshot back when there is one. */
    method OnError(previous: Option<seq<Task>>)
      modifies this
      ensures previous.Some? ==> tasks == previous
      ensures previous.None? ==> tasks == old(tasks)
      ensures tasksStale == old(tasksStale) && dashboardStale == old(dashboardStale)
    {
      if previous.Some? {
        tasks := previous;
      }
    }

    /** `onSettled`: both queries are marked for refetching. */
    method OnSettled()
      modifies this
      ensures tasks == old(tasks) && tasksStale && dashboardStale
    {
      tasksStale := true;
      dashboardStale := true;
    }

    /** `useUpdateTask().mutate(p)` from start to settle. On success the
        cache holds the update; on failure it is back to the snapshot, or
        empty when there was nothing to snapshot. Either way both queries
        are stale. */
    method UpdateTask(p: UpdatePayload, remoteOk: bool)
      modifies this
      ensures remoteOk ==> tasks == Some(OptimisticList(old(tasks), p))
      ensures !remoteOk && old(tasks).Some? ==> tasks == old(tasks)
      ensures !remoteOk && old(tasks).None? ==> tasks == Some([])
      ensures tasksStale && dashboardStale
    {
      var previous := OnMutate(p);
      if !remoteOk {
        OnError(previous);
      }
      OnSettled();
    }

    /** `useDeleteTask().mutate(id)`: nothing changes in the cache; only a
        successful delete marks the queries stale. */
    method DeleteTask(id: int, remoteOk: bool)
      modifies this
      ensures tasks == old(tasks)
      ensures tasksStale == (old(tasksStale) || remoteOk)
      ensures dashboardStale == (old(dashboardStale) || remoteOk)
    {
      if remoteOk {
        tasksStale := true;
        dashboardStale := true;
      }
    }

    /** Two updates in flight: the first fails after the second has written
        its change. The first one's snapshot predates the second write, so
        the rollback removes the second update from the cache as well,
        although that update succeeded. */
    method OverlappingUpdates(p: UpdatePayload, q: UpdatePayload)
      modifies this
      requires tasks.Some?
      ensures tasks == old(tasks)
      ensures tasksStale && dashboardStale
    {
      var first := OnMutate(p);
      var second := OnMutate(q);
      OnError(first);
      OnSettled();
      OnSettled();
    }
  }
}
