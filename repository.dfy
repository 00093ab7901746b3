/**
 The task repository: an in-memory cache of tasks keyed by id in front of a
 remote and a local data source. A read that is not forced is answered from
 the cache when the cache holds the answer; otherwise the remote source is
 asked first and the local one only when the remote failed and the read is
 not forced. Save, complete
 and activate update the cache and then go to both sources, remote first;
 clear-completed, delete-all and delete go to both sources, remote first, and
 then edit the cache.
 */
module Repository {
  import opened Tasks
  import opened Ordering
  import opened Sources

  /** The answer of a fetch: the remote answer when it succeeded; otherwise,
      unless the fetch is forced, the local answer when that succeeded. */
  function FetchOrder<T>(forceUpdate: bool, remote: Result<T>, local: Result<T>): (r: Result<T>)
    ensures r.Success? <==> remote.Success? || (!forceUpdate && local.Success?)
    ensures r.Success? ==> r == (if remote.Success? then remote else local)
  {
    if remote.Success? then remote
    else if forceUpdate then Error
    else if local.Success? then local
    else Error
  }

  /** The source calls a list fetch makes: ask the remote; if it answered,
      empty the local source and save each task into it; if it failed and
      the fetch is not forced, ask the local source. */
  function TasksFetchCalls(forceUpdate: bool, remote: Result<seq<Task>>): seq<Call>
  {
    [Call(Remote, Op.GetTasks)] +
    match remote
    case Success(tasks) => [Call(Local, Op.DeleteAllTasks)] + SaveCalls(Local, tasks)
    case Error => if forceUpdate then [] else [Call(Local, Op.GetTasks)]
  }

  /** The source calls a single-task fetch makes. */
  function TaskFetchCalls(taskId: string, forceUpdate: bool, remote: Result<Task>): seq<Call>
  {
    [Call(Remote, Op.GetTask(taskId))] +
    match remote
    case Success(t) => [Call(Local, Op.SaveTask(t))]
    case Error => if forceUpdate then [] else [Call(Local, Op.GetTask(taskId))]
  }

  /** The cache after it is refilled from a fetched list: a missing cache is
      created only when the list is not empty. */
  function Refilled(cache: Option<map<string, Task>>, tasks: seq<Task>): Option<map<string, Task>>
  {
    if cache.None? && tasks == [] then None else Some(PutAll(map[], tasks))
  }

  /** What a write does to the cached copy and then on both sources. */
  datatype Perform = NoWork | SaveOnSources | CompleteOnSources | ActivateOnSources

  function Performed(task: Task, perform: Perform): Task
  {
    match perform
    case CompleteOnSources => task.(isCompleted := true)
    case ActivateOnSources => task.(isCompleted := false)
    case _ => task
  }

  function PerformCalls(task: Task, perform: Perform): seq<Call>
  {
    match perform
    case NoWork => []
    case SaveOnSources => [Call(Remote, Op.SaveTask(task)), Call(Local, Op.SaveTask(task))]
    case CompleteOnSources => [Call(Remote, Op.CompleteTask(task)), Call(Local, Op.CompleteTask(task))]
    case ActivateOnSources => [Call(Remote, Op.ActivateTask(task)), Call(Local, Op.ActivateTask(task))]
  }

  /** A successful remote list fetch leaves the local source holding exactly
      the fetched tasks, whatever it held before. */
  lemma FetchRefillsLocal(forceUpdate: bool, store: map<string, Task>, tasks: seq<Task>)
    ensures Replay(Local, store, TasksFetchCalls(forceUpdate, Success(tasks))) == PutAll(map[], tasks)
  {
    var refill := [Call(Local, Op.DeleteAllTasks)] + SaveCalls(Local, tasks);
    assert TasksFetchCalls(forceUpdate, Success(tasks)) == [Call(Remote, Op.GetTasks)] + refill;
    ReplayAppend(Local, store, [Call(Remote, Op.GetTasks)], refill);
    ReplayOther(Local, store, [Call(Remote, Op.GetTasks)]);
    RefillReplay(Local, store, tasks);
  }

  /** The cache's tasks sorted by id. */
  method SortedValues(m: map<string, Task>) returns (r: seq<Task>)
    requires IdKeyed(m)
    ensures Listing(r, m)
  {
    var rest := m.Keys;
    r := [];
    while rest != {}
      invariant rest <= m.Keys
      invariant SortedById(r) && DistinctIds(r)
      invariant forall i :: 0 <= i < |r| ==> r[i].id in m && r[i].id !in rest && m[r[i].id] == r[i]
      invariant forall k :: k in m && k !in rest ==> m[k] in r
      decreases rest
    {
      var k :| k in rest;
      InsertSorted(m[k], r);
      InsertDistinct(m[k], r);
      var r' := Insert(m[k], r);
      forall i | 0 <= i < |r'| ensures r'[i].id in m && r'[i].id !in rest - {k} && m[r'[i].id] == r'[i] {
        assert r'[i] in r';
        if r'[i] != m[k] {
          var j :| 0 <= j < |r| && r[j] == r'[i];
        }
      }
      r := r';
      rest := rest - {k};
    }
  }

  class DefaultTasksRepository {
    /** The cache; `None` until a fetch or a write first creates it. */
    var cachedTasks: Option<map<string, Task>>
    /** Every call made on the two sources so far, in order. */
    ghost var calls: seq<Call>

    ghost predicate Valid()
      reads this
    {
      cachedTasks.Some? ==> IdKeyed(cachedTasks.value)
    }

    /** The cached tasks, none when there is no cache. */
    function Cached(): map<string, Task>
      reads this
    {
      if cachedTasks.Some? then cachedTasks.value else map[]
    }

    /** A source that held what the cache held (`before`) when the calls from
        position `from` on began holds, once it has run them, what the cache
        holds now. */
    ghost predicate InStep(s: Source, before: map<string, Task>, from: int)
      reads this
    {
      0 <= from <= |calls| && Replay(s, before, calls[from..]) == Cached()
    }

    constructor ()
      ensures cachedTasks == None && calls == []
      ensures Valid()
    {
      cachedTasks := None;
      calls := [];
    }

    /** The cached task with this id, if there is a cache and it holds one. */
    function TaskWithId(id: string): (r: Option<Task>)
      reads this
      requires Valid()
      ensures r.Some? <==> cachedTasks.Some? && id in cachedTasks.value
      ensures r.Some? ==> r.value == cachedTasks.value[id] && r.value.id == id
    {
      if cachedTasks.Some? && id in cachedTasks.value then Some(cachedTasks.value[id]) else None
    }

    /** Puts a copy of the task into the cache under its id, creating the
        cache if there is none. */
    method CacheTask(task: Task) returns (cachedTask: Task)
      requires Valid()
      modifies this`cachedTasks
      ensures Valid()
      ensures cachedTask == task
      ensures cachedTasks == Some(old(Cached())[task.id := task])
    {
      cachedTask := Task(task.title, task.description, task.isCompleted, task.id);
      if cachedTasks.None? {
        cachedTasks := Some(map[]);
      }
      cachedTasks := Some(cachedTasks.value[cachedTask.id := cachedTask]);
    }

    /** Caches a copy of the task, then applies `perform` to that copy: sets
        its completed flag if asked to, and sends it to the remote and then
        the local source. */
    method CacheAndPerform(task: Task, perform: Perform)
      requires Valid()
      modifies this
      ensures Valid()
      ensures cachedTasks == Some(old(Cached())[task.id := Performed(task, perform)])
      ensures calls == old(calls) + PerformCalls(Performed(task, perform), perform)
    {
      var cachedTask := CacheTask(task);
      match perform {
        case NoWork =>
        case SaveOnSources =>
          calls := calls + [Call(Remote, Op.SaveTask(cachedTask)), Call(Local, Op.SaveTask(cachedTask))];
        case CompleteOnSources =>
          ghost var before := cachedTasks.value;
          cachedTask := cachedTask.(isCompleted := true);
          cachedTasks := Some(cachedTasks.value[cachedTask.id := cachedTask]);
          assert cachedTasks.value == old(Cached())[task.id := cachedTask] by {
            assert before == old(Cached())[task.id := task];
          }
          calls := calls + [Call(Remote, Op.CompleteTask(cachedTask)), Call(Local, Op.CompleteTask(cachedTask))];
        case ActivateOnSources =>
          ghost var before := cachedTasks.value;
          cachedTask := cachedTask.(isCompleted := false);
          cachedTasks := Some(cachedTasks.value[cachedTask.id := cachedTask]);
          assert cachedTasks.value == old(Cached())[task.id := cachedTask] by {
            assert before == old(Cached())[task.id := task];
          }
          calls := calls + [Call(Remote, Op.ActivateTask(cachedTask)), Call(Local, Op.ActivateTask(cachedTask))];
      }
    }

    /** Saves one task into the local source. */
    method RefreshLocalTask(task: Task)
      modifies this`calls
      ensures calls == old(calls) + [Call(Local, Op.SaveTask(task))]
    {
      calls := calls + [Call(Local, Op.SaveTask(task))];
    }

    /** Empties the local source, then saves each task into it in order. */
    method RefreshLocalTasks(tasks: seq<Task>)
      modifies this`calls
      ensures calls == old(calls) + [Call(Local, Op.DeleteAllTasks)] + SaveCalls(Local, tasks)
      ensures forall store :: Replay(Local, store, calls[|old(calls)|..]) == PutAll(map[], tasks)
    {
      calls := calls + [Call(Local, Op.DeleteAllTasks)];
      for i := 0 to |tasks|
        invariant calls == old(calls) + [Call(Local, Op.DeleteAllTasks)] + SaveCalls(Local, tasks[..i])
      {
        calls := calls + [Call(Local, Op.SaveTask(tasks[i]))];
        assert tasks[..i + 1] == tasks[..i] + [tasks[i]];
        SaveCallsSnoc(Local, tasks[..i], tasks[i]);
      }
      assert tasks[..|tasks|] == tasks;
      assert calls[|old(calls)|..] == [Call(Local, Op.DeleteAllTasks)] + SaveCalls(Local, tasks);
      forall store ensures Replay(Local, store, calls[|old(calls)|..]) == PutAll(map[], tasks) {
        RefillReplay(Local, store, tasks);
      }
    }

    /** Empties the cache if there is one, then caches a copy of each task in
        id order. */
    method RefreshCache(tasks: seq<Task>)
      requires Valid()
      modifies this
      ensures Valid()
      ensures cachedTasks == Refilled(old(cachedTasks), tasks)
      ensures calls == old(calls)
    {
      if cachedTasks.Some? {
        cachedTasks := Some(map[]);
      }
      var sorted := SortById(tasks);
      for i := 0 to |sorted|
        invariant Valid()
        invariant calls == old(calls)
        invariant cachedTasks == if old(cachedTasks).None? && i == 0 then None else Some(PutAll(map[], sorted[..i]))
      {
        CacheAndPerform(sorted[i], NoWork);
        PutAllSnoc(map[], sorted[..i], sorted[i]);
        assert sorted[..i + 1] == sorted[..i] + [sorted[i]];
      }
      assert sorted[..|sorted|] == sorted;
      SortedPutAll(map[], tasks);
    }

    /** Remote first; on a remote answer the local source is refilled from it;
        on a remote failure the local source is asked unless forced. */
    method FetchTasksFromRemoteOrLocal(forceUpdate: bool, remoteReply: Result<seq<Task>>, localReply: Result<seq<Task>>)
      returns (r: Result<seq<Task>>)
      modifies this`calls
      ensures r == FetchOrder(forceUpdate, remoteReply, localReply)
      ensures calls == old(calls) + TasksFetchCalls(forceUpdate, remoteReply)
    {
      calls := calls + [Call(Remote, Op.GetTasks)];
      var remoteData := remoteReply;
      match remoteData {
        case Error =>
        case Success(tasks) =>
          RefreshLocalTasks(tasks);
          return remoteData;
      }
      if forceUpdate {
        return Error;
      }
      calls := calls + [Call(Local, Op.GetTasks)];
      var localTasks := localReply;
      if localTasks.Success? {
        return localTasks;
      }
      return Error;
    }

    /** All tasks sorted by id. `remoteReply` and `localReply` are what the
        two sources answer if they are asked. */
    method GetTasks(forceUpdate: bool, remoteReply: Result<seq<Task>>, localReply: Result<seq<Task>>)
      returns (r: Result<seq<Task>>)
      requires Valid()
      modifies this
      ensures Valid()
      ensures !forceUpdate && old(cachedTasks).Some? ==>
        cachedTasks == old(cachedTasks) && calls == old(calls)
      ensures forceUpdate || old(cachedTasks).None? ==>
        var fetched := FetchOrder(forceUpdate, remoteReply, localReply);
        && calls == old(calls) + TasksFetchCalls(forceUpdate, remoteReply)
        && cachedTasks == (if fetched.Success? then Refilled(old(cachedTasks), fetched.data) else old(cachedTasks))
      ensures cachedTasks.Some? ==> r.Success? && Listing(r.data, cachedTasks.value)
      ensures cachedTasks.None? ==> r == (if FetchOrder(forceUpdate, remoteReply, localReply) == Success([]) then Success([]) else Error)
      ensures r.Error? <==> old(cachedTasks).None? && FetchOrder(forceUpdate, remoteReply, localReply).Error?
      ensures remoteReply.Success? && (forceUpdate || old(cachedTasks).None?) ==>
        forall store :: Replay(Local, store, calls[|old(calls)|..]) == Cached()
    {
      if !forceUpdate && cachedTasks.Some? {
        var tasks := SortedValues(cachedTasks.value);
        return Success(tasks);
      }
      var newTasks := FetchTasksFromRemoteOrLocal(forceUpdate, remoteReply, localReply);
      if newTasks.Success? {
        RefreshCache(newTasks.data);
      }
      if remoteReply.Success? {
        assert calls[|old(calls)|..] == TasksFetchCalls(forceUpdate, remoteReply);
        forall store ensures Replay(Local, store, calls[|old(calls)|..]) == Cached() {
          FetchRefillsLocal(forceUpdate, store, remoteReply.data);
        }
      }
      if cachedTasks.Some? {
        var tasks := SortedValues(cachedTasks.value);
        return Success(tasks);
      }
      if newTasks.Success? && |newTasks.data| == 0 {
        return Success(newTasks.data);
      }
      return Error;
    }

    /** Remote first; a remote answer is saved into the local source; on a
        remote failure the local source is asked unless forced. */
    method FetchTaskFromRemoteOrLocal(taskId: string, forceUpdate: bool, remoteReply: Result<Task>, localReply: Result<Task>)
      returns (r: Result<Task>)
      modifies this`calls
      ensures r == FetchOrder(forceUpdate, remoteReply, localReply)
      ensures calls == old(calls) + TaskFetchCalls(taskId, forceUpdate, remoteReply)
    {
      calls := calls + [Call(Remote, Op.GetTask(taskId))];
      var remoteTask := remoteReply;
      match remoteTask {
        case Error =>
        case Success(task) =>
          RefreshLocalTask(task);
          return remoteTask;
      }
      if forceUpdate {
        return Error;
      }
      calls := calls + [Call(Local, Op.GetTask(taskId))];
      var localTask := localReply;
      if localTask.Success? {
        return localTask;
      }
      return Error;
    }

    /** One task. `remoteReply` and `localReply` are what the two sources
        answer if they are asked. */
    method GetTask(taskId: string, forceUpdate: bool, remoteReply: Result<Task>, localReply: Result<Task>)
      returns (r: Result<Task>)
      requires Valid()
      modifies this
      ensures Valid()
      ensures !forceUpdate && old(TaskWithId(taskId)).Some? ==>
        r == Success(old(TaskWithId(taskId)).value) && cachedTasks == old(cachedTasks) && calls == old(calls)
      ensures forceUpdate || old(TaskWithId(taskId)).None? ==>
        && r == FetchOrder(forceUpdate, remoteReply, localReply)
        && calls == old(calls) + TaskFetchCalls(taskId, forceUpdate, remoteReply)
        && cachedTasks == (if r.Success? then Some(old(Cached())[r.data.id := r.data]) else old(cachedTasks))
      ensures r.Success? ==> TaskWithId(r.data.id) == Some(r.data)
      ensures remoteReply.Success? && (forceUpdate || old(TaskWithId(taskId)).None?) ==>
        InStep(Local, old(Cached()), |old(calls)|)
    {
      if !forceUpdate {
        var cached := TaskWithId(taskId);
        if cached.Some? {
          return Success(cached.value);
        }
      }
      var newTask := FetchTaskFromRemoteOrLocal(taskId, forceUpdate, remoteReply, localReply);
      if newTask.Success? {
        var _ := CacheTask(newTask.data);
      }
      if remoteReply.Success? {
        assert calls[|old(calls)|..] == [Call(Remote, Op.GetTask(taskId)), Call(Local, Op.SaveTask(remoteReply.data))];
        ReplayTwo(Local, old(Cached()), Call(Remote, Op.GetTask(taskId)), Call(Local, Op.SaveTask(remoteReply.data)));
      }
      return newTask;
    }

    /** Saves a task: the cache first, then the remote and the local source. */
    method SaveTask(task: Task)
      requires Valid()
      modifies this
      ensures Valid()
      ensures cachedTasks == Some(old(Cached())[task.id := task])
      ensures calls == old(calls) + [Call(Remote, Op.SaveTask(task)), Call(Local, Op.SaveTask(task))]
      ensures InStep(Remote, old(Cached()), |old(calls)|) && InStep(Local, old(Cached()), |old(calls)|)
    {
      CacheAndPerform(task, SaveOnSources);
      assert calls[|old(calls)|..] == [Call(Remote, Op.SaveTask(task)), Call(Local, Op.SaveTask(task))];
      ReplayTwo(Remote, old(Cached()), Call(Remote, Op.SaveTask(task)), Call(Local, Op.SaveTask(task)));
      ReplayTwo(Local, old(Cached()), Call(Remote, Op.SaveTask(task)), Call(Local, Op.SaveTask(task)));
    }

    /** Marks a task completed: in the cache first, then on both sources. */
    method CompleteTask(task: Task)
      requires Valid()
      modifies this
      ensures Valid()
      ensures cachedTasks == Some(old(Cached())[task.id := task.(isCompleted := true)])
      ensures calls == old(calls) + [Call(Remote, Op.CompleteTask(task.(isCompleted := true))),
                                     Call(Local, Op.CompleteTask(task.(isCompleted := true)))]
      ensures InStep(Remote, old(Cached()), |old(calls)|) && InStep(Local, old(Cached()), |old(calls)|)
    {
      CacheAndPerform(task, CompleteOnSources);
      assert calls[|old(calls)|..] == PerformCalls(task.(isCompleted := true), CompleteOnSources);
      ReplayTwo(Remote, old(Cached()), Call(Remote, Op.CompleteTask(task.(isCompleted := true))), Call(Local, Op.CompleteTask(task.(isCompleted := true))));
      ReplayTwo(Local, old(Cached()), Call(Remote, Op.CompleteTask(task.(isCompleted := true))), Call(Local, Op.CompleteTask(task.(isCompleted := true))));
    }

    /** Completes the cached task with this id; nothing happens when the
        cache does not hold it. */
    method CompleteTaskById(taskId: string)
      requires Valid()
      modifies this
      ensures Valid()
      ensures old(TaskWithId(taskId)).None? ==> cachedTasks == old(cachedTasks) && calls == old(calls)
      ensures old(TaskWithId(taskId)).Some? ==>
        var done := old(TaskWithId(taskId)).value.(isCompleted := true);
        && cachedTasks == Some(old(Cached())[taskId := done])
        && calls == old(calls) + [Call(Remote, Op.CompleteTask(done)), Call(Local, Op.CompleteTask(done))]
    {
      var found := TaskWithId(taskId);
      if found.Some? {
        CompleteTask(found.value);
      }
    }

    /** Marks a task active: in the cache first, then on both sources. */
    method ActivateTask(task: Task)
      requires Valid()
      modifies this
      ensures Valid()
      ensures cachedTasks == Some(old(Cached())[task.id := task.(isCompleted := false)])
      ensures calls == old(calls) + [Call(Remote, Op.ActivateTask(task.(isCompleted := false))),
                                     Call(Local, Op.ActivateTask(task.(isCompleted := false)))]
      ensures InStep(Remote, old(Cached()), |old(calls)|) && InStep(Local, old(Cached()), |old(calls)|)
    {
      CacheAndPerform(task, ActivateOnSources);
      assert calls[|old(calls)|..] == PerformCalls(task.(isCompleted := false), ActivateOnSources);
      ReplayTwo(Remote, old(Cached()), Call(Remote, Op.ActivateTask(task.(isCompleted := false))), Call(Local, Op.ActivateTask(task.(isCompleted := false))));
      ReplayTwo(Local, old(Cached()), Call(Remote, Op.ActivateTask(task.(isCompleted := false))), Call(Local, Op.ActivateTask(task.(isCompleted := false))));
    }

    /** Activates the cached task with this id; nothing happens when the
        cache does not hold it. */
    method ActivateTaskById(taskId: string)
      requires Valid()
      modifies this
      ensures Valid()
      ensures old(TaskWithId(taskId)).None? ==> cachedTasks == old(cachedTasks) && calls == old(calls)
      ensures old(TaskWithId(taskId)).Some? ==>
        var active := old(TaskWithId(taskId)).value.(isCompleted := false);
        && cachedTasks == Some(old(Cached())[taskId := active])
        && calls == old(calls) + [Call(Remote, Op.ActivateTask(active)), Call(Local, Op.ActivateTask(active))]
    {
      var found := TaskWithId(taskId);
      if found.Some? {
        ActivateTask(found.value);
      }
    }

    /** Clears completed tasks on both sources, then drops them from the cache. */
    method ClearCompletedTasks()
      requires Valid()
      modifies this
      ensures Valid()
      ensures calls == old(calls) + [Call(Remote, Op.ClearCompletedTasks), Call(Local, Op.ClearCompletedTasks)]
      ensures cachedTasks == if old(cachedTasks).None? then None else Some(WithoutCompleted(old(cachedTasks).value))
      ensures InStep(Remote, old(Cached()), |old(calls)|) && InStep(Local, old(Cached()), |old(calls)|)
    {
      calls := calls + [Call(Remote, Op.ClearCompletedTasks), Call(Local, Op.ClearCompletedTasks)];
      if cachedTasks.Some? {
        cachedTasks := Some(WithoutCompleted(cachedTasks.value));
      }
      assert calls[|old(calls)|..] == [Call(Remote, Op.ClearCompletedTasks), Call(Local, Op.ClearCompletedTasks)];
      ReplayTwo(Remote, old(Cached()), Call(Remote, Op.ClearCompletedTasks), Call(Local, Op.ClearCompletedTasks));
      ReplayTwo(Local, old(Cached()), Call(Remote, Op.ClearCompletedTasks), Call(Local, Op.ClearCompletedTasks));
    }

    /** Deletes everything on both sources, then empties the cache if there is one. */
    method DeleteAllTasks()
      requires Valid()
      modifies this
      ensures Valid()
      ensures calls == old(calls) + [Call(Remote, Op.DeleteAllTasks), Call(Local, Op.DeleteAllTasks)]
      ensures cachedTasks == if old(cachedTasks).None? then None else Some(map[])
      ensures InStep(Remote, old(Cached()), |old(calls)|) && InStep(Local, old(Cached()), |old(calls)|)
    {
      calls := calls + [Call(Remote, Op.DeleteAllTasks), Call(Local, Op.DeleteAllTasks)];
      if cachedTasks.Some? {
        cachedTasks := Some(map[]);
      }
      assert calls[|old(calls)|..] == [Call(Remote, Op.DeleteAllTasks), Call(Local, Op.DeleteAllTasks)];
      ReplayTwo(Remote, old(Cached()), Call(Remote, Op.DeleteAllTasks), Call(Local, Op.DeleteAllTasks));
      ReplayTwo(Local, old(Cached()), Call(Remote, Op.DeleteAllTasks), Call(Local, Op.DeleteAllTasks));
    }

    /** Deletes a task on both sources, then drops its id from the cache. */
    method DeleteTask(taskId: string)
      requires Valid()
      modifies this
      ensures Valid()
      ensures calls == old(calls) + [Call(Remote, Op.DeleteTask(taskId)), Call(Local, Op.DeleteTask(taskId))]
      ensures cachedTasks == if old(cachedTasks).None? then None else Some(old(cachedTasks).value - {taskId})
      ensures InStep(Remote, old(Cached()), |old(calls)|) && InStep(Local, old(Cached()), |old(calls)|)
    {
      calls := calls + [Call(Remote, Op.DeleteTask(taskId)), Call(Local, Op.DeleteTask(taskId))];
      if cachedTasks.Some? {
        cachedTasks := Some(cachedTasks.value - {taskId});
      }
      assert calls[|old(calls)|..] == [Call(Remote, Op.DeleteTask(taskId)), Call(Local, Op.DeleteTask(taskId))];
      ReplayTwo(Remote, old(Cached()), Call(Remote, Op.DeleteTask(taskId)), Call(Local, Op.DeleteTask(taskId)));
      ReplayTwo(Local, old(Cached()), Call(Remote, Op.DeleteTask(taskId)), Call(Local, Op.DeleteTask(taskId)));
    }
  }
}
