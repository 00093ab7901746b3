/**
 Three uses of the repository, from a fresh instance, with what the caller
 sees: a saved task read back from the cache, a first listing filled from
 the remote source, and a forced refresh whose remote read fails.
 */
module Scenarios {
  import opened Tasks
  import opened Ordering
  import opened Sources
  import opened Repository

  /** Saving task "1" and then reading it without forcing a refresh returns
      the saved task, and the read makes no source call. */
  method SavedTaskIsReadFromCache() returns (r: Result<Task>, ghost log: seq<Call>)
    ensures r == Success(Task("A", "", false, "1"))
    ensures log == [Call(Remote, Op.SaveTask(Task("A", "", false, "1"))), Call(Local, Op.SaveTask(Task("A", "", false, "1")))]
  {
    var repo := new DefaultTasksRepository();
    var task := Task("A", "", false, "1");
    repo.SaveTask(task);
    r := repo.GetTask("1", false, Error, Error);
    log := repo.calls;
  }

  /** With no cache yet, a list read answered by the remote source with
      tasks "2" and "1" returns them ordered by id, and a local source that
      held an unrelated task "3" ends up holding exactly "1" and "2". */
  method FirstListComesFromRemote() returns (r: Result<seq<Task>>, ghost local: map<string, Task>)
    ensures r == Success([Task("", "", false, "1"), Task("", "", false, "2")])
    ensures local == map["1" := Task("", "", false, "1"), "2" := Task("", "", false, "2")]
  {
    var repo := new DefaultTasksRepository();
    var one, two := Task("", "", false, "1"), Task("", "", false, "2");
    r := repo.GetTasks(false, Success([two, one]), Error);
    var expected := map["1" := one, "2" := two];
    assert PutAll(map[], [two, one]) == expected by {
      assert [two, one][1..] == [one];
      assert PutAll(map[], [two, one]) == PutAll(map["2" := two], [one]);
      assert PutAll(map["2" := two], [one]) == PutAll(map["2" := two, "1" := one], []);
    }
    assert Listing([one, two], expected) by {
      assert Le(one.id, two.id);
    }
    ListingUnique(expected, r.data, [one, two]);
    local := Replay(Local, map["3" := Task("", "", true, "3")], repo.calls);
    assert repo.calls == TasksFetchCalls(false, Success([two, one]));
    FetchRefillsLocal(false, map["3" := Task("", "", true, "3")], [two, one]);
  }

  /** Once a task is cached, a forced list read whose remote read fails
      still answers with the cached tasks, not with an error. */
  method ForcedRefreshFailureServesCache() returns (r: Result<seq<Task>>)
    ensures r == Success([Task("A", "", true, "1")])
  {
    var repo := new DefaultTasksRepository();
    var task := Task("A", "", true, "1");
    repo.SaveTask(task);
    r := repo.GetTasks(true, Error, Success([]));
    assert Listing([task], map["1" := task]);
    ListingUnique(map["1" := task], r.data, [task]);
  }
}
