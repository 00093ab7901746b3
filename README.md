# Task repository cache coordinator

This project models `DefaultTasksRepository`, the data layer of a to-do list
application. The repository keeps an in-memory cache of tasks keyed by id. It
sits in front of two data sources with the same interface, a remote one and a
local one. The cache is nullable: "no cache yet" and "an empty cache" are
different states.

- Reads that are not forced are answered from the cache when the cache holds
  the answer: any cache for a list read, a cache holding the id for a
  single-task read.
- Otherwise the remote source is asked first. A remote list answer overwrites
  the local source (delete all, then save each task). A remote single-task
  answer is saved into the local source.
- When the remote read fails, a forced read fails. A read that is not forced
  falls back to the local source.
- A list read returns the cache's tasks sorted by id whenever a cache exists
  after the fetch, even if the fetch failed. It fails only when there is still
  no cache and the fetch failed.
- Every write puts a copy of the task into the cache, creating the cache if
  needed, and sends the copy to the remote and then the local source.
  Clear-completed, delete-all and delete-by-id call both sources and edit the
  cache. In the code the save, complete and activate writes edit the cache
  before the source calls and the other three after them; the model's source
  calls never fail, so that order is not visible in its contracts (see
  "Left out").

Files:

- `tasks.dfy` (module `Tasks`): the `Task` value, `Result`, `Option`, and the
  list-to-map fold `PutAll` that filling the cache amounts to. Its lemmas show
  that the last task of each id wins and that nothing else is stored.
- `ordering.dfy` (module `Ordering`): a character-by-character order
  of strings that matches `String.compareTo` except as noted under "Left
  out", a stable sort by id, and the `Listing` predicate
  ("these are the map's tasks, each once, in id order"), which a map
  satisfies with exactly one sequence.
- `sources.dfy` (module `Sources`): the data-source operations as a log of
  calls, and `Replay`, which reads a log as its effect on one source's store.
- `repository.dfy` (module `Repository`): the class `DefaultTasksRepository`.
  Its field `cachedTasks` is the cache and its ghost field `calls` records
  every source call in order. The methods follow the Kotlin members one to one.
- `scenarios.dfy` (module `Scenarios`): three call sequences on a fresh
  repository, proved from the method contracts alone.

Answers from the sources are parameters of the read methods (`remoteReply`,
`localReply`), because the sources' own code is not part of this model. A
source is only consulted when the log shows a call to it. So "makes no source
call" and "does not consult the local source" are statements about `calls`.

## Model

| member | source | states |
|---|---|---|
| `Repository.DefaultTasksRepository.constructor` | data/src/main/java/cd/ghost/data/source/DefaultTasksRepository.kt:19-25 | A new repository has no cache (null, not empty) and has made no source call. |
| `Repository.DefaultTasksRepository.GetTasks` | data/src/main/java/cd/ghost/data/source/DefaultTasksRepository.kt:27-53 | Not forced with a cache present: the answer lists the cache in id order, and neither the cache nor the sources are touched. Otherwise it makes the fetch's calls and refills the cache from a successful fetch. Whenever a cache exists afterwards, the answer is Success of the cache in id order, even if the fetch failed and even when forced. With no cache, an empty successful fetch gives Success([]). The answer is Error exactly when there was no cache and the fetch failed. After a successful remote fetch the local source holds exactly what the cache holds, whatever it held before. |
| `Repository.DefaultTasksRepository.FetchTasksFromRemoteOrLocal` | data/src/main/java/cd/ghost/data/source/DefaultTasksRepository.kt:55-79 | Calls the remote source first. On a remote answer it empties the local source, saves each task into it and returns the remote answer. On a remote failure a forced fetch returns Error without calling the local source. A fetch that is not forced asks the local source and returns its answer if it succeeded, else Error. |
| `Repository.FetchOrder` | data/src/main/java/cd/ghost/data/source/DefaultTasksRepository.kt:55-79 | A fetch succeeds exactly when the remote succeeded, or when the fetch is not forced and the local source succeeded. A successful fetch returns the remote answer when there is one, otherwise the local one. |
| `Repository.FetchRefillsLocal` | data/src/main/java/cd/ghost/data/source/DefaultTasksRepository.kt:57-65 | After the calls of a successful remote list fetch, the local source holds exactly the fetched tasks (the last one for each id), whatever it held before. |
| `Repository.SortedValues` | data/src/main/java/cd/ghost/data/source/DefaultTasksRepository.kt:32 | The cache's values sorted by id: each entry exactly once, ids strictly increasing, nothing else. |
| `Repository.DefaultTasksRepository.GetTask` | data/src/main/java/cd/ghost/data/source/DefaultTasksRepository.kt:81-95 | A cache hit that is not forced returns that entry with no source call and no change. Otherwise the answer is the fetch's answer and the fetch's calls are made. A successful answer is cached under its own id, creating the cache if there was none; a failed one leaves the cache as it was. Afterwards the cache holds any returned task under its id. On a remote success the local source is in step with the cache. |
| `Repository.DefaultTasksRepository.FetchTaskFromRemoteOrLocal` | data/src/main/java/cd/ghost/data/source/DefaultTasksRepository.kt:97-125 | The same precedence for one task: remote first, and a remote answer is saved into the local source and returned. A forced fetch whose remote read failed returns Error without calling the local source. Otherwise the local answer is returned if it succeeded, else Error. |
| `Repository.DefaultTasksRepository.SaveTask` | data/src/main/java/cd/ghost/data/source/DefaultTasksRepository.kt:128-136 | The cache gets the task under its id, created if absent; no other entry changes. The task is then saved on the remote and then the local source. A source that held what the cache held is again in step with it. |
| `Repository.DefaultTasksRepository.CompleteTask` | data/src/main/java/cd/ghost/data/source/DefaultTasksRepository.kt:138-147 | The cache gets a copy of the task with the same title, description and id, marked completed; no other entry changes. That copy is sent to complete on the remote and then the local source. Both sources stay in step with the cache. |
| `Repository.DefaultTasksRepository.CompleteTaskById` | data/src/main/java/cd/ghost/data/source/DefaultTasksRepository.kt:149-155 | With no cache, or no entry for the id, nothing changes and no source is called. Otherwise the cached entry is completed as `CompleteTask` does. |
| `Repository.DefaultTasksRepository.ActivateTask` | data/src/main/java/cd/ghost/data/source/DefaultTasksRepository.kt:157-167 | Like `CompleteTask`, except that the cached copy is marked not completed and sent to activate. |
| `Repository.DefaultTasksRepository.ActivateTaskById` | data/src/main/java/cd/ghost/data/source/DefaultTasksRepository.kt:169-175 | With no cache, or no entry for the id, nothing changes and no source is called. Otherwise the cached entry is activated as `ActivateTask` does. |
| `Repository.DefaultTasksRepository.ClearCompletedTasks` | data/src/main/java/cd/ghost/data/source/DefaultTasksRepository.kt:177-185 | Calls clear-completed on the remote and then the local source. A null cache stays null. A present cache loses exactly its completed entries and keeps the others unchanged. Both sources stay in step with the cache. |
| `Repository.DefaultTasksRepository.DeleteAllTasks` | data/src/main/java/cd/ghost/data/source/DefaultTasksRepository.kt:187-195 | Calls delete-all on the remote and then the local source. A present cache becomes empty, and a null cache stays null. Both sources stay in step with the cache. |
| `Repository.DefaultTasksRepository.DeleteTask` | data/src/main/java/cd/ghost/data/source/DefaultTasksRepository.kt:197-204 | Calls delete on the remote and then the local source. The id's entry is removed from a present cache and nothing else changes; a null cache stays null. Both sources stay in step with the cache. |
| `Repository.DefaultTasksRepository.TaskWithId` | data/src/main/java/cd/ghost/data/source/DefaultTasksRepository.kt:206 | Finds a task exactly when a cache exists and holds the id. The task found is stored under that id and carries that id. |
| `Repository.DefaultTasksRepository.RefreshLocalTask` | data/src/main/java/cd/ghost/data/source/DefaultTasksRepository.kt:208-210 | Saves the task into the local source and makes no other call. |
| `Repository.DefaultTasksRepository.RefreshLocalTasks` | data/src/main/java/cd/ghost/data/source/DefaultTasksRepository.kt:212-217 | Calls delete-all on the local source, then save for each task in list order. Afterwards the local source holds exactly the listed tasks, whatever it held before. |
| `Repository.DefaultTasksRepository.RefreshCache` | data/src/main/java/cd/ghost/data/source/DefaultTasksRepository.kt:219-226 | A null cache with an empty list stays null. Otherwise the cache maps every listed id to the last listed task with that id, and holds no other id. Sorting before caching does not change this result. No source is called. |
| `Repository.DefaultTasksRepository.CacheTask` | data/src/main/java/cd/ghost/data/source/DefaultTasksRepository.kt:228-236 | Returns a copy equal to the task. The cache is created if absent and maps the task's id to the copy; every other entry is unchanged. |
| `Repository.DefaultTasksRepository.CacheAndPerform` | data/src/main/java/cd/ghost/data/source/DefaultTasksRepository.kt:238-241 | Caches the copy, applies the requested change to the cached copy (none, or completed set or cleared), and makes the matching pair of source calls with that copy. |
| `Tasks.PutAll` | data/src/main/java/cd/ghost/data/source/DefaultTasksRepository.kt:219-226 | Filling a map from a list adds exactly the listed ids to the keys it had. |
| `Tasks.PutAllAt` | data/src/main/java/cd/ghost/data/source/DefaultTasksRepository.kt:221-225 | Under each listed id the map holds the last listed task with that id. An id that is not listed keeps its old entry. |
| `Tasks.PutAllFromList` | data/src/main/java/cd/ghost/data/source/DefaultTasksRepository.kt:219-226 | A cache refilled from a list holds exactly the listed ids, each under its own id, each a task of the list. |
| `Tasks.PutAllDistinct` | data/src/main/java/cd/ghost/data/source/DefaultTasksRepository.kt:219-226 | When the listed ids are distinct, the refilled cache maps each listed task's id to that task. |
| `Tasks.PutAllIdKeyed` | data/src/main/java/cd/ghost/data/source/DefaultTasksRepository.kt:234 | Putting tasks under their own ids keeps every cache entry stored under its own id. |
| `Tasks.WithoutCompleted` | data/src/main/java/cd/ghost/data/source/DefaultTasksRepository.kt:183 | Keeps exactly the entries whose task is not completed, unchanged. |
| `Ordering.LeTotal` | data/src/main/java/cd/ghost/data/source/DefaultTasksRepository.kt:32 | Any two ids are comparable under the string order used to sort. |
| `Ordering.LeTransitive` | data/src/main/java/cd/ghost/data/source/DefaultTasksRepository.kt:32 | The string order used to sort is transitive. |
| `Ordering.LeAntisymmetric` | data/src/main/java/cd/ghost/data/source/DefaultTasksRepository.kt:32 | Two ids that are each no later than the other are equal. |
| `Ordering.LeReflexive` | data/src/main/java/cd/ghost/data/source/DefaultTasksRepository.kt:32 | Every id is no later than itself. |
| `Ordering.SortByIdSorted` | data/src/main/java/cd/ghost/data/source/DefaultTasksRepository.kt:221 | The sort's output is ordered by id. |
| `Ordering.SortByIdPermutes` | data/src/main/java/cd/ghost/data/source/DefaultTasksRepository.kt:221 | The sort's output is a permutation of its input. |
| `Ordering.SortByIdStable` | data/src/main/java/cd/ghost/data/source/DefaultTasksRepository.kt:221 | The sort is stable: for every id, the tasks with that id keep their relative order. |
| `Ordering.SortedPutAll` | data/src/main/java/cd/ghost/data/source/DefaultTasksRepository.kt:219-226 | Caching the sorted list gives the same map as caching the list in its own order. |
| `Ordering.ListingUnique` | data/src/main/java/cd/ghost/data/source/DefaultTasksRepository.kt:32 | A cache has exactly one listing in id order, so a list read's answer is determined by the cache. |
| `Sources.ReplaySaves` | data/src/main/java/cd/ghost/data/source/DefaultTasksRepository.kt:214-216 | Saving a list of tasks one by one leaves each listed id holding the last listed task with that id. |
| `Sources.RefillReplay` | data/src/main/java/cd/ghost/data/source/DefaultTasksRepository.kt:212-217 | Delete-all followed by saving a list leaves exactly the listed tasks, whatever the source held before. |
| `Scenarios.SavedTaskIsReadFromCache` | data/src/main/java/cd/ghost/data/source/DefaultTasksRepository.kt:81-95 | After saving task "1", a read of "1" that is not forced returns the saved task, and the only source calls are the two saves. |
| `Scenarios.FirstListComesFromRemote` | data/src/main/java/cd/ghost/data/source/DefaultTasksRepository.kt:27-53 | With no cache, a list read answered by the remote with tasks "2" and "1" returns them in the order "1", "2". A local source that held an unrelated task ends up holding exactly "1" and "2". |
| `Scenarios.ForcedRefreshFailureServesCache` | data/src/main/java/cd/ghost/data/source/DefaultTasksRepository.kt:41-43 | Once a task is cached, a forced list read whose remote read fails returns the cached task, not an error. |

## Left out

- Coroutines: `withContext(ioDispatcher)`, `coroutineScope` and `launch` are not modelled. Each pair of launched source calls is joined before the method goes on, so it is modelled as two calls in sequence, remote first. Interleavings with other calls are not modelled.
- Failing source calls: in the model every write to a source returns normally. In the code a source write can throw; inside `coroutineScope` that cancels the sibling call and the exception leaves the repository method (lines 132-133, 143-144, 162-163, 179-180, 190-191, 199-200). `saveTask`, `completeTask` and `activateTask` would then keep their cache update with no rollback, while `clearCompletedTasks`, `deleteAllTasks` and `deleteTask` would not reach their cache edit (lines 183, 194, 203). A throwing `refreshLocalDataSource` (lines 63 and 109) would likewise abort `getTasks` and `getTask`. None of these paths is modelled, so the cache-first or cache-last order of the writes is not observable in the contracts.
- Thread safety of `ConcurrentHashMap`: the cache is a single `map` value that each method reassigns.
- Object identity of `Task`: tasks are values here. In the source, `getTasks` and a `getTask` cache hit return the cached objects themselves (lines 32, 42, 85), and the save, complete and activate writes pass the cached copy to both sources (lines 132-133, 143-144, 162-163). A later mutation of such an object by a caller or a source would show in the cache. A `getTask` answered by a fetch returns the source's own object while the cache keeps a copy (lines 93, 229), and the fetches pass the remote's objects, not cached copies, to the local source (lines 63, 109). That aliasing is not modelled.
- The sources' own code: `TasksDataSource` is an interface only. What a source answers to a read is a parameter. `Replay` (save puts the task under its id, complete and activate put it with the flag set, clear-completed drops completed tasks, delete-all empties, delete drops the id) is this model's reading of the operation names. The "in step" and "holds exactly" statements depend on that reading.
- The id-based `completeTask(taskId)` and `activateTask(taskId)` of the source interface are never called by the repository, so they are not among the logged operations.
- The `else -> throw IllegalStateException()` branches of the two fetch functions: `Result` has only two variants, so they cannot be reached.
- Exception messages ("Illegal state", "Refresh failed", "Error fetching from remote and local") and the commented-out logging: `Error` carries no message. The "Illegal state" error of `getTasks` is only reached when the cache is null and the fetch failed.
- `Ordering.Le` compares `char` values as Unicode scalar values. Kotlin's `String.compareTo` compares UTF-16 code units. The two orders differ only between characters outside the Basic Multilingual Plane and characters U+E000 to U+FFFF.
- `sortedBy` is a library function; the model sorts with its own stable insertion sort, `Ordering.SortById`, proved sorted, a permutation and stable. The values of a map are listed by `Repository.SortedValues`, which inserts one entry at a time in sorted position.
- `deleteAllTasks` leaves a null cache null: `cachedTasks?.clear()` (line 194) does nothing when there is no cache.
- `refreshCache` does not create a cache for an empty list (lines 220-226): the cache is created by the first `cacheTask` call inside the loop, so an empty list leaves a null cache null.
