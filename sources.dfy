/**
 The two backends the repository sits in front of, a remote one and a local
 one, both with the same task data-source interface. The repository only
 calls them; what they answer to a read is given to the model from outside,
 and every call is recorded, in order, in a log of `Call`s.

 `Replay` reads such a log as the effect of the calls on one backend's task
 store, taking each write to do what its name says (save puts the task under
 its id, delete-all empties the store, and so on).
 */
module Sources {
  import opened Tasks

  datatype Source = Remote | Local

  /** The data-source operations the repository calls. */
  datatype Op =
    | GetTasks
    | GetTask(taskId: string)
    | SaveTask(task: Task)
    | CompleteTask(task: Task)
    | ActivateTask(task: Task)
    | ClearCompletedTasks
    | DeleteAllTasks
    | DeleteTask(taskId: string)

  datatype Call = Call(source: Source, op: Op)

  /** One operation's effect on a backend's store. */
  function Apply(store: map<string, Task>, op: Op): map<string, Task>
  {
    match op
    case GetTasks => store
    case GetTask(_) => store
    case SaveTask(t) => store[t.id := t]
    case CompleteTask(t) => store[t.id := t.(isCompleted := true)]
    case ActivateTask(t) => store[t.id := t.(isCompleted := false)]
    case ClearCompletedTasks => WithoutCompleted(store)
    case DeleteAllTasks => map[]
    case DeleteTask(id) => store - {id}
  }

  /** The store of backend `s` after the calls of `log` that went to it. */
  function Replay(s: Source, store: map<string, Task>, log: seq<Call>): map<string, Task>
    decreases |log|
  {
    if log == [] then store
    else
      var next := if log[0].source == s then Apply(store, log[0].op) else store;
      Replay(s, next, log[1..])
  }

  /** One save call to `s` per task, in list order. */
  function SaveCalls(s: Source, tasks: seq<Task>): (r: seq<Call>)
    ensures |r| == |tasks|
    ensures forall i :: 0 <= i < |tasks| ==> r[i] == Call(s, SaveTask(tasks[i]))
  {
    if tasks == [] then [] else [Call(s, SaveTask(tasks[0]))] + SaveCalls(s, tasks[1..])
  }

  /** A log of two calls. */
  lemma ReplayTwo(s: Source, store: map<string, Task>, a: Call, b: Call)
    ensures Replay(s, store, [a, b]) ==
      var mid := if a.source == s then Apply(store, a.op) else store;
      if b.source == s then Apply(mid, b.op) else mid
  {
    var mid := if a.source == s then Apply(store, a.op) else store;
    var last := if b.source == s then Apply(mid, b.op) else mid;
    assert [a, b][1..] == [b];
    assert Replay(s, store, [a, b]) == Replay(s, mid, [b]);
    assert Replay(s, mid, [b]) == Replay(s, last, []);
  }

  lemma SaveCallsSnoc(s: Source, tasks: seq<Task>, t: Task)
    ensures SaveCalls(s, tasks + [t]) == SaveCalls(s, tasks) + [Call(s, SaveTask(t))]
  {
  }

  lemma {:induction false} ReplayAppend(s: Source, store: map<string, Task>, a: seq<Call>, b: seq<Call>)
    ensures Replay(s, store, a + b) == Replay(s, Replay(s, store, a), b)
    decreases |a|
  {
    if a != [] {
      assert (a + b)[1..] == a[1..] + b;
      var next := if a[0].source == s then Apply(store, a[0].op) else store;
      ReplayAppend(s, next, a[1..], b);
    } else {
      assert a + b == b;
    }
  }

  /** Saving a list of tasks one by one stores the last task of each id. */
  lemma {:induction false} ReplaySaves(s: Source, store: map<string, Task>, tasks: seq<Task>)
    ensures Replay(s, store, SaveCalls(s, tasks)) == PutAll(store, tasks)
    decreases |tasks|
  {
    if tasks != [] {
      var log := SaveCalls(s, tasks);
      assert log[1..] == SaveCalls(s, tasks[1..]);
      ReplaySaves(s, store[tasks[0].id := tasks[0]], tasks[1..]);
    }
  }

  /** Calls made to the other backend do not change a backend's store. */
  lemma {:induction false} ReplayOther(s: Source, store: map<string, Task>, log: seq<Call>)
    requires forall i :: 0 <= i < |log| ==> log[i].source != s
    ensures Replay(s, store, log) == store
    decreases |log|
  {
    if log != [] {
      ReplayOther(s, store, log[1..]);
    }
  }

  /** Emptying a backend and then saving a list into it leaves exactly the
      list's tasks there, whatever it held before. */
  lemma RefillReplay(s: Source, store: map<string, Task>, tasks: seq<Task>)
    ensures Replay(s, store, [Call(s, DeleteAllTasks)] + SaveCalls(s, tasks)) == PutAll(map[], tasks)
  {
    ReplayAppend(s, store, [Call(s, DeleteAllTasks)], SaveCalls(s, tasks));
    ReplaySaves(s, map[], tasks);
  }
}
