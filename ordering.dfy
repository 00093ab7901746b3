/**
 Ordering tasks by id: the natural order of strings (character by character,
 a proper prefix first) and the stable sort by id the repository applies
 before it answers a list query or refills its cache.
 */
module Ordering {
  import opened Tasks

  /** `a` comes no later than `b`: compare characters up to the shorter
      length; the first difference decides, otherwise the shorter is first. */
  predicate Le(a: string, b: string)
  {
    if |a| == 0 then true
    else if |b| == 0 then false
    else if a[0] != b[0] then a[0] < b[0]
    else Le(a[1..], b[1..])
  }

  lemma {:induction false} LeReflexive(a: string)
    ensures Le(a, a)
  {
    if |a| > 0 {
      LeReflexive(a[1..]);
    }
  }

  lemma {:induction false} LeTotal(a: string, b: string)
    ensures Le(a, b) || Le(b, a)
  {
    if |a| > 0 && |b| > 0 && a[0] == b[0] {
      LeTotal(a[1..], b[1..]);
    }
  }

  lemma {:induction false} LeTransitive(a: string, b: string, c: string)
    requires Le(a, b) && Le(b, c)
    ensures Le(a, c)
  {
    if |a| > 0 && a[0] == b[0] && b[0] == c[0] {
      LeTransitive(a[1..], b[1..], c[1..]);
    }
  }

  lemma {:induction false} LeAntisymmetric(a: string, b: string)
    requires Le(a, b) && Le(b, a)
    ensures a == b
  {
    if |a| > 0 {
      LeAntisymmetric(a[1..], b[1..]);
      assert a == [a[0]] + a[1..];
      assert b == [b[0]] + b[1..];
    }
  }

  ghost predicate SortedById(s: seq<Task>)
  {
    forall i, j :: 0 <= i < j < |s| ==> Le(s[i].id, s[j].id)
  }

  ghost predicate DistinctIds(s: seq<Task>)
  {
    forall i, j :: 0 <= i < j < |s| ==> s[i].id != s[j].id
  }

  /** `s` lists the entries of `m`: each entry exactly once, in id order. */
  ghost predicate Listing(s: seq<Task>, m: map<string, Task>)
  {
    && SortedById(s)
    && DistinctIds(s)
    && (forall i :: 0 <= i < |s| ==> s[i].id in m && m[s[i].id] == s[i])
    && (forall k :: k in m ==> m[k] in s)
  }

  /** Puts `x` before the first task whose id is not smaller than its own. */
  function Insert(x: Task, s: seq<Task>): (r: seq<Task>)
    ensures |r| == |s| + 1
    ensures forall t :: t in r <==> t == x || t in s
  {
    if s == [] then [x]
    else if Le(x.id, s[0].id) then [x] + s
    else
      assert s == [s[0]] + s[1..];
      [s[0]] + Insert(x, s[1..])
  }

  /** A stable sort by id: tasks with equal ids keep their relative order. */
  function SortById(s: seq<Task>): (r: seq<Task>)
    ensures |r| == |s|
  {
    if s == [] then []
    else Insert(s[0], SortById(s[1..]))
  }

  lemma {:induction false} InsertPermutes(x: Task, s: seq<Task>)
    ensures multiset(Insert(x, s)) == multiset(s) + multiset{x}
  {
    if s != [] && !Le(x.id, s[0].id) {
      InsertPermutes(x, s[1..]);
      assert s == [s[0]] + s[1..];
    }
  }

  /** The sort neither loses nor adds a task. */
  lemma {:induction false} SortByIdPermutes(s: seq<Task>)
    ensures multiset(SortById(s)) == multiset(s)
  {
    if s != [] {
      SortByIdPermutes(s[1..]);
      InsertPermutes(s[0], SortById(s[1..]));
      assert s == [s[0]] + s[1..];
    }
  }

  lemma {:induction false} InsertSorted(x: Task, s: seq<Task>)
    requires SortedById(s)
    ensures SortedById(Insert(x, s))
  {
    if s != [] && !Le(x.id, s[0].id) {
      LeTotal(x.id, s[0].id);
      InsertSorted(x, s[1..]);
      var r := Insert(x, s[1..]);
      forall j | 0 <= j < |r| ensures Le(s[0].id, r[j].id) {
        assert r[j] in r;
        if r[j] != x {
          var p :| 0 <= p < |s[1..]| && s[1..][p] == r[j];
          assert s[p + 1] == r[j];
        }
      }
    } else if s != [] {
      forall j | 1 <= j < |s| + 1 ensures Le(x.id, Insert(x, s)[j].id) {
        assert Insert(x, s)[j] == s[j - 1];
        if j > 1 {
          LeTransitive(x.id, s[0].id, s[j - 1].id);
        }
      }
    }
  }

  lemma {:induction false} InsertDistinct(x: Task, s: seq<Task>)
    requires DistinctIds(s)
    requires forall i :: 0 <= i < |s| ==> s[i].id != x.id
    ensures DistinctIds(Insert(x, s))
  {
    if s != [] && !Le(x.id, s[0].id) {
      InsertDistinct(x, s[1..]);
      var r := Insert(x, s[1..]);
      forall j | 0 <= j < |r| ensures s[0].id != r[j].id {
        assert r[j] in r;
        if r[j] != x {
          var p :| 0 <= p < |s[1..]| && s[1..][p] == r[j];
          assert s[p + 1] == r[j];
        }
      }
    }
  }

  lemma {:induction false} SortByIdSorted(s: seq<Task>)
    ensures SortedById(SortById(s))
  {
    if s != [] {
      SortByIdSorted(s[1..]);
      InsertSorted(s[0], SortById(s[1..]));
    }
  }

  lemma WithIdCons(t: Task, s: seq<Task>, k: string)
    ensures WithId([t] + s, k) == (if t.id == k then [t] else []) + WithId(s, k)
  {
  }

  /** Inserting `x` in front of every equal id is what makes the sort stable. */
  lemma {:induction false} InsertWithId(x: Task, s: seq<Task>, k: string)
    ensures WithId(Insert(x, s), k) == (if x.id == k then [x] else []) + WithId(s, k)
  {
    if s == [] {
    } else if Le(x.id, s[0].id) {
      WithIdCons(x, s, k);
    } else {
      InsertWithId(x, s[1..], k);
      InsertWithIdStep(x, s, k);
    }
  }

  /** The step of InsertWithId where `x` goes behind the first task. */
  lemma InsertWithIdStep(x: Task, s: seq<Task>, k: string)
    requires s != [] && !Le(x.id, s[0].id)
    requires WithId(Insert(x, s[1..]), k) == (if x.id == k then [x] else []) + WithId(s[1..], k)
    ensures WithId(Insert(x, s), k) == (if x.id == k then [x] else []) + WithId(s, k)
  {
    assert Insert(x, s) == [s[0]] + Insert(x, s[1..]);
    assert !(x.id == k && s[0].id == k) by {
      LeReflexive(x.id);
    }
    WithIdCons(s[0], s[1..], k);
    assert s == [s[0]] + s[1..];
    WithIdSwap(x, s[0], Insert(x, s[1..]), WithId(s[1..], k), k);
  }

  /** Filtering by `k` cannot tell the order of two tasks that do not both have id `k`. */
  lemma WithIdSwap(x: Task, t: Task, r: seq<Task>, w: seq<Task>, k: string)
    requires WithId(r, k) == (if x.id == k then [x] else []) + w
    requires !(x.id == k && t.id == k)
    ensures WithId([t] + r, k) == (if x.id == k then [x] else []) + ((if t.id == k then [t] else []) + w)
  {
  }

  /** Sorting keeps, for every id, the tasks with that id in their order. */
  lemma {:induction false} SortByIdStable(s: seq<Task>, k: string)
    ensures WithId(SortById(s), k) == WithId(s, k)
  {
    if s != [] {
      SortByIdStable(s[1..], k);
      InsertWithId(s[0], SortById(s[1..]), k);
    }
  }

  /** Sorting a list by id before putting it into a map changes nothing:
      under each id the last task of the list with that id is stored. */
  lemma SortedPutAll(m: map<string, Task>, s: seq<Task>)
    ensures PutAll(m, SortById(s)) == PutAll(m, s)
  {
    forall k ensures WithId(SortById(s), k) == WithId(s, k) {
      SortByIdStable(s, k);
    }
    PutAllByIds(m, SortById(s), s);
  }

  /** Two listings of one map start with the same task. */
  lemma ListingHead(m: map<string, Task>, a: seq<Task>, b: seq<Task>)
    requires Listing(a, m) && Listing(b, m)
    requires a != []
    ensures b != [] && a[0] == b[0]
  {
    assert m[a[0].id] in b;
    var j :| 0 <= j < |b| && b[j] == a[0];
    assert m[b[0].id] in a;
    var i :| 0 <= i < |a| && a[i] == b[0];
    if i > 0 { assert Le(a[0].id, b[0].id); } else { LeReflexive(a[0].id); }
    if j > 0 { assert Le(b[0].id, a[0].id); } else { LeReflexive(a[0].id); }
    LeAntisymmetric(a[0].id, b[0].id);
  }

  /** Dropping the first task of a listing lists the map without its id. */
  lemma ListingTail(m: map<string, Task>, a: seq<Task>)
    requires IdKeyed(m)
    requires Listing(a, m) && a != []
    ensures Listing(a[1..], m - {a[0].id})
  {
  }

  /** A map has exactly one listing. */
  lemma {:induction false} ListingUnique(m: map<string, Task>, a: seq<Task>, b: seq<Task>)
    requires IdKeyed(m)
    requires Listing(a, m) && Listing(b, m)
    ensures a == b
    decreases |a|
  {
    if a == [] {
      if b != [] {
        ListingHead(m, b, a);
      }
    } else {
      ListingHead(m, a, b);
      ListingTail(m, a);
      ListingTail(m, b);
      ListingUnique(m - {a[0].id}, a[1..], b[1..]);
      assert a == [a[0]] + a[1..];
      assert b == [b[0]] + b[1..];
    }
  }
}
