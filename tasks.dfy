/**
 The values the task repository works with: a to-do item, the outcome of a
 data-source call, and the two list-to-map operations the cache is built from.
 */
module Tasks {

  /** A to-do item; the field order is the constructor order used when the
      repository copies a task into its cache. */
  datatype Task = Task(title: string, description: string, isCompleted: bool, id: string)

  /** Outcome of a data-source call: a value, or a failure. */
  datatype Result<T> = Success(data: T) | Error

  /** A nullable reference: `None` is a cache that was never created. */
  datatype Option<T> = None | Some(value: T)

  /** Every entry of the map is stored under its own id. */
  ghost predicate IdKeyed(m: map<string, Task>)
  {
    forall k :: k in m ==> m[k].id == k
  }

  /** The ids that occur in a list of tasks. */
  function Ids(s: seq<Task>): set<string>
  {
    set t | t in s :: t.id
  }

  function Last(s: seq<Task>): Task
    requires s != []
  {
    s[|s| - 1]
  }

  /** The tasks of `s` whose id is `k`, in their original order. */
  function WithId(s: seq<Task>, k: string): (r: seq<Task>)
    ensures |r| <= |s|
    ensures forall t :: t in r ==> t in s && t.id == k
  {
    if s == [] then []
    else (if s[0].id == k then [s[0]] else []) + WithId(s[1..], k)
  }

  /** No task of `s` has id `k` exactly when `k` is not among its ids. */
  lemma {:induction false} WithIdEmpty(s: seq<Task>, k: string)
    ensures WithId(s, k) == [] <==> k !in Ids(s)
  {
    if s != [] {
      WithIdEmpty(s[1..], k);
      assert Ids(s) == {s[0].id} + Ids(s[1..]) by {
        assert forall t :: t in s <==> t == s[0] || t in s[1..];
      }
    }
  }

  /** `m` after putting every task of `s` under its id, from first to last,
      so that a later task replaces an earlier one with the same id. */
  function PutAll(m: map<string, Task>, s: seq<Task>): (r: map<string, Task>)
    ensures r.Keys == m.Keys + Ids(s)
    decreases |s|
  {
    if s == [] then m
    else
      assert Ids(s) == {s[0].id} + Ids(s[1..]) by {
        assert forall t :: t in s <==> t == s[0] || t in s[1..];
      }
      PutAll(m[s[0].id := s[0]], s[1..])
  }

  /** The map without its completed tasks. */
  function WithoutCompleted(m: map<string, Task>): (r: map<string, Task>)
    ensures forall k :: k in r <==> k in m && !m[k].isCompleted
    ensures forall k :: k in r ==> r[k] == m[k]
  {
    map k | k in m && !m[k].isCompleted :: m[k]
  }

  /** Each id ends up holding the LAST task of `s` with that id; ids that `s`
      does not mention keep what `m` held. */
  lemma {:induction false} PutAllAt(m: map<string, Task>, s: seq<Task>, k: string)
    requires k in PutAll(m, s)
    ensures WithId(s, k) == [] ==> k in m && PutAll(m, s)[k] == m[k]
    ensures WithId(s, k) != [] ==> PutAll(m, s)[k] == Last(WithId(s, k))
    decreases |s|
  {
    WithIdEmpty(s, k);
    if s != [] {
      var m' := m[s[0].id := s[0]];
      PutAllAt(m', s[1..], k);
      var pre := if s[0].id == k then [s[0]] else [];
      assert WithId(s, k) == pre + WithId(s[1..], k);
      if WithId(s[1..], k) != [] {
        assert Last(WithId(s, k)) == Last(WithId(s[1..], k));
      }
    }
  }

  /** Appending one task puts it in place last. */
  lemma {:induction false} PutAllSnoc(m: map<string, Task>, s: seq<Task>, t: Task)
    ensures PutAll(m, s + [t]) == PutAll(m, s)[t.id := t]
    decreases |s|
  {
    if s != [] {
      assert (s + [t])[1..] == s[1..] + [t];
      PutAllSnoc(m[s[0].id := s[0]], s[1..], t);
    }
  }

  /** The result of PutAll depends only on the order of tasks that share an
      id: two lists with the same per-id sublists give the same map. */
  lemma PutAllByIds(m: map<string, Task>, s: seq<Task>, t: seq<Task>)
    requires forall k :: WithId(s, k) == WithId(t, k)
    ensures PutAll(m, s) == PutAll(m, t)
  {
    var a, b := PutAll(m, s), PutAll(m, t);
    assert Ids(s) == Ids(t) by {
      forall k ensures k in Ids(s) <==> k in Ids(t) {
        WithIdEmpty(s, k);
        WithIdEmpty(t, k);
      }
    }
    forall k | k in a ensures a[k] == b[k] {
      PutAllAt(m, s, k);
      PutAllAt(m, t, k);
    }
  }

  /** Filling an empty map from a list stores, under each listed id, a task
      of the list that has that id, and nothing else. */
  lemma PutAllFromList(s: seq<Task>)
    ensures PutAll(map[], s).Keys == Ids(s)
    ensures IdKeyed(PutAll(map[], s))
    ensures forall k :: k in PutAll(map[], s) ==> PutAll(map[], s)[k] in s
  {
    forall k | k in PutAll(map[], s)
      ensures PutAll(map[], s)[k] in s && PutAll(map[], s)[k].id == k
    {
      PutAllAt(map[], s, k);
      WithIdEmpty(s, k);
      assert Last(WithId(s, k)) in WithId(s, k);
    }
  }

  /** Filling an empty map from a list whose ids are distinct stores every
      task of the list under its own id. */
  lemma PutAllDistinct(s: seq<Task>, i: nat)
    requires forall p, q :: 0 <= p < q < |s| ==> s[p].id != s[q].id
    requires i < |s|
    ensures s[i].id in PutAll(map[], s) && PutAll(map[], s)[s[i].id] == s[i]
  {
    var k := s[i].id;
    assert k in Ids(s);
    WithIdEmpty(s, k);
    PutAllAt(map[], s, k);
    var w := WithId(s, k);
    assert Last(w) in w;
    forall t | t in w ensures t == s[i] {
      var j :| 0 <= j < |s| && s[j] == t;
      assert s[j].id == k;
    }
  }

  /** Putting tasks into a map that keys every task by its id keeps it so. */
  lemma PutAllIdKeyed(m: map<string, Task>, s: seq<Task>)
    requires IdKeyed(m)
    ensures IdKeyed(PutAll(m, s))
  {
    forall k | k in PutAll(m, s) ensures PutAll(m, s)[k].id == k {
      PutAllAt(m, s, k);
      if WithId(s, k) != [] {
        assert Last(WithId(s, k)) in WithId(s, k);
      }
    }
  }
}
