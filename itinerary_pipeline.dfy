/**
 * The pipeline compiled from an itinerary: a tree of tasks, flattened on
 * demand into an execution list (pre-order, parallel tasks and their subtrees
 * left out) and a path index (every visited task, parallel ones included).
 */
module ItineraryPipeline {
  import opened Wrappers
  import Paths

  /** Progress report; the `int64` counters are unbounded here. */
  datatype Progress = Progress(total: int, completed: int, message: string)

  /** An error and the path it occurred at. */
  datatype TaskError = TaskError(path: string, error: string)

  /** A pipeline task with its nested tasks. */
  datatype Task = Task(
    name: string,
    path: string,
    description: string,
    managed: bool,
    children: seq<Task>,
    progress: Progress,
    errors: seq<TaskError>,
    parallel: bool)

  // ---------------------------------------------------------------------
  // Parent

  /**
   * `Task.Parent`: the second-to-last segment of the path, or "" for a single
   * segment. A top-level task, whose path is its slash-free name, has none.
   */
  function Parent(t: Task): (r: string)
    ensures '/' !in t.path ==> r == ""
    ensures r == "" || r in Paths.Split(t.path)
  {
    var parts := Paths.Split(t.path);
    if '/' !in t.path then
      Paths.SplitNoSlash(t.path);
      ""
    else if |parts| > 1 then parts[|parts| - 2] else ""
  }

  /** A task whose path joins its parent's path and its name has the parent path's last segment as parent. */
  lemma ParentOfNested(t: Task, parentPath: string)
    requires parentPath != "" && t.name != "" && '/' !in t.name
    requires t.path == Paths.PathJoin(parentPath, t.name)
    ensures Parent(t) == Paths.Split(parentPath)[|Paths.Split(parentPath)| - 1]
  {
    Paths.SplitNoSlash(t.name);
    var up := Paths.Split(parentPath);
    var parts := Paths.Split(t.path);
    assert parts == up + [t.name];
    assert parts[|parts| - 2] == up[|up| - 1];
  }

  // ---------------------------------------------------------------------
  // Aggregation

  /** Errors and progress summed over already aggregated tasks, messages joined with ";" onto "". */
  function Summed(kids: seq<Task>): (r: (seq<TaskError>, Progress))
    ensures r.0 == [] <==> forall i :: 0 <= i < |kids| ==> kids[i].errors == []
    decreases |kids|
  {
    if kids == [] then ([], Progress(0, 0, ""))
    else
      var (e, p) := Summed(kids[..|kids| - 1]);
      var k := kids[|kids| - 1];
      (e + k.errors,
       Progress(p.total + k.progress.total, p.completed + k.progress.completed, p.message + ";" + k.progress.message))
  }

  /**
   * `aggregate` as written: every task, leaves included, first resets its
   * errors and progress, so every error and every unit of progress in the tree
   * is wiped.
   */
  function AggregateAsWritten(t: Task): (r: Task)
    ensures r.errors == [] && r.progress.total == 0 && r.progress.completed == 0
    decreases t
  {
    var kids := seq(|t.children|, i requires 0 <= i < |t.children| => AggregateAsWritten(t.children[i]));
    SummedOfEmpty(kids);
    var sum := Summed(kids);
    t.(children := kids, errors := sum.0, progress := sum.1)
  }

  /** Aggregated tasks whose counts are all zero and whose errors are empty sum to zero and no errors. */
  lemma {:induction false} SummedOfEmpty(kids: seq<Task>)
    requires forall i :: 0 <= i < |kids| ==> kids[i].errors == [] && kids[i].progress.total == 0 && kids[i].progress.completed == 0
    ensures Summed(kids).0 == [] && Summed(kids).1.total == 0 && Summed(kids).1.completed == 0
    decreases |kids|
  {
    if kids != [] {
      SummedOfEmpty(kids[..|kids| - 1]);
    }
  }

  /** `Failed` as written: aggregate, then look for errors. It reports a failure only where some leaf failed. */
  predicate FailedAsWritten(t: Task)
    ensures FailedAsWritten(t) ==> HasFailedLeaf(t)
  {
    |AggregateAsWritten(t).errors| > 0
  }

  /** A leaf that recorded an error is not reported as failed. */
  lemma LeafErrorHidden(leaf: Task)
    requires leaf.children == [] && leaf.errors != []
    ensures HasFailedLeaf(leaf) && !FailedAsWritten(leaf) && Failed(leaf)
  {
  }

  /** Aggregation as intended: a leaf keeps its own errors and progress; an inner task sums its children's. */
  function Aggregate(t: Task): (r: Task)
    ensures r.errors == [] <==> !HasFailedLeaf(t)
    ensures |r.children| == |t.children|
    decreases t
  {
    if t.children == [] then t
    else
      var kids := seq(|t.children|, i requires 0 <= i < |t.children| => Aggregate(t.children[i]));
      assert forall i :: 0 <= i < |kids| ==> (kids[i].errors == [] <==> !HasFailedLeaf(t.children[i]));
      var sum := Summed(kids);
      t.(children := kids, errors := sum.0, progress := sum.1)
  }

  /** Some leaf of the tree recorded an error. */
  predicate HasFailedLeaf(t: Task)
    decreases t
  {
    if t.children == [] then t.errors != []
    else exists i :: 0 <= i < |t.children| && HasFailedLeaf(t.children[i])
  }

  /** `Failed` as intended: a task has failed exactly when one of its leaves recorded an error. */
  predicate Failed(t: Task)
    ensures Failed(t) <==> HasFailedLeaf(t)
  {
    |Aggregate(t).errors| > 0
  }

  /** Aggregating an aggregated tree changes nothing. */
  lemma {:induction false} AggregateIdempotent(t: Task)
    ensures Aggregate(Aggregate(t)) == Aggregate(t)
    decreases t
  {
    if t.children != [] {
      var a := Aggregate(t);
      var kids := a.children;
      var again := Aggregate(a).children;
      assert |again| == |kids| == |t.children|;
      forall i | 0 <= i < |kids|
        ensures again[i] == kids[i]
      {
        AggregateIdempotent(t.children[i]);
      }
      assert again == kids;
    }
  }

  // ---------------------------------------------------------------------
  // Flattening and indexing

  /** The execution list: tasks in pre-order, each parallel task left out with its subtree. */
  function Flatten(ts: seq<Task>): (r: seq<Task>)
    ensures forall k :: 0 <= k < |r| ==> !r[k].parallel
    decreases ts
  {
    if ts == [] then []
    else
      var t := ts[|ts| - 1];
      Flatten(ts[..|ts| - 1]) + (if t.parallel then [] else [t] + Flatten(t.children))
  }

  /**
   * The path index: every visited task by path, later visits overriding
   * earlier ones. Indexing only adds paths, and keeps every entry stored under
   * its own path.
   */
  function IndexFrom(m: map<string, Task>, ts: seq<Task>): (r: map<string, Task>)
    ensures m.Keys <= r.Keys
    ensures KeyedByPath(m) ==> KeyedByPath(r)
    decreases ts
  {
    if ts == [] then m
    else
      var t := ts[|ts| - 1];
      var m' := IndexFrom(m, ts[..|ts| - 1])[t.path := t];
      if t.parallel then m' else IndexFrom(m', t.children)
  }

  /** Flattening distributes over concatenation, so the list is in input order. */
  lemma {:induction false} FlattenConcat(a: seq<Task>, b: seq<Task>)
    ensures Flatten(a + b) == Flatten(a) + Flatten(b)
    decreases |b|
  {
    if b == [] {
      assert a + b == a;
    } else {
      var b' := b[..|b| - 1];
      var t := b[|b| - 1];
      var tail := if t.parallel then [] else [t] + Flatten(t.children);
      FlattenConcat(a, b');
      assert (a + b)[..|a + b| - 1] == a + b';
      assert Flatten(a + b) == Flatten(a + b') + tail;
      assert Flatten(b) == Flatten(b') + tail;
    }
  }

  /** Every top-level task that is not parallel is in the execution list. */
  lemma {:induction false} FlattenKeepsTopLevel(ts: seq<Task>, i: nat)
    requires i < |ts| && !ts[i].parallel
    ensures ts[i] in Flatten(ts)
    decreases ts
  {
    var t := ts[|ts| - 1];
    if i < |ts| - 1 {
      FlattenKeepsTopLevel(ts[..|ts| - 1], i);
    }
  }

  /** Each non-parallel child of a listed task is listed too. */
  lemma {:induction false} FlattenKeepsChildren(ts: seq<Task>, t: Task, j: nat)
    requires t in Flatten(ts)
    requires j < |t.children| && !t.children[j].parallel
    ensures t.children[j] in Flatten(ts)
    decreases ts
  {
    var last := ts[|ts| - 1];
    var init := ts[..|ts| - 1];
    if t in Flatten(init) {
      FlattenKeepsChildren(init, t, j);
    } else {
      var rest := Flatten(last.children);
      assert !last.parallel && t in [last] + rest;
      if t == last {
        FlattenKeepsTopLevel(last.children, j);
      } else {
        FlattenKeepsChildren(last.children, t, j);
      }
    }
  }

  /** Every entry of the index is stored under its own path. */
  predicate KeyedByPath(m: map<string, Task>)
  {
    forall p :: p in m ==> m[p].path == p
  }

  /** Every listed task and every top-level task, parallel ones included, has its path in the index. */
  lemma {:induction false} IndexCoversList(m: map<string, Task>, ts: seq<Task>)
    ensures forall k :: 0 <= k < |Flatten(ts)| ==> Flatten(ts)[k].path in IndexFrom(m, ts)
    ensures forall i :: 0 <= i < |ts| ==> ts[i].path in IndexFrom(m, ts)
    decreases ts
  {
    if ts != [] {
      var t := ts[|ts| - 1];
      var init := ts[..|ts| - 1];
      var m' := IndexFrom(m, init)[t.path := t];
      IndexCoversList(m, init);
      if !t.parallel {
        IndexCoversList(m', t.children);
      }
      assert forall i :: 0 <= i < |init| ==> ts[i] == init[i];
    }
  }

  /** The index is consistent with the list: keyed by path, and every listed path is indexed. */
  predicate Consistent(list: seq<Task>, m: map<string, Task>)
  {
    KeyedByPath(m) && forall k :: 0 <= k < |list| ==> list[k].path in m
  }

  /** The list and index built from any tasks are consistent. */
  lemma BuiltConsistent(ts: seq<Task>)
    ensures Consistent(Flatten(ts), IndexFrom(map[], ts))
  {
    IndexCoversList(map[], ts);
  }

  // ---------------------------------------------------------------------
  // The pipeline

  /** A pipeline: the top-level tasks, the index of the next task, and the memoised list and path index (`None` until built). */
  class Pipeline {
    var index: int
    var tasks: seq<Task>
    var list: seq<Task>
    var pathIndex: Option<map<string, Task>>

    /** A built pipeline's list and index agree. */
    ghost predicate Valid()
      reads this
    {
      pathIndex.Some? ==> Consistent(list, pathIndex.value)
    }

    constructor(tasks: seq<Task>)
      ensures Valid()
      ensures index == 0 && this.tasks == tasks && list == [] && pathIndex == None
    {
      index := 0;
      this.tasks := tasks;
      list := [];
      pathIndex := None;
    }

    /** `build`: a no-op once built; otherwise lists and indexes the tasks. */
    method Build()
      requires Valid()
      modifies this`list, this`pathIndex
      ensures Valid() && pathIndex.Some?
      ensures old(pathIndex).Some? ==> list == old(list) && pathIndex == old(pathIndex)
      ensures old(pathIndex).None? ==> list == Flatten(tasks) && pathIndex == Some(IndexFrom(map[], tasks))
    {
      if pathIndex.Some? {
        return;
      }
      list := [];
      pathIndex := Some(map[]);
      BuildFrom(tasks);
      assert list == Flatten(tasks);
      BuiltConsistent(tasks);
    }

    /** The recursive `build` closure: appends to the list and adds to the index. */
    method BuildFrom(children: seq<Task>)
      requires pathIndex.Some?
      modifies this`list, this`pathIndex
      ensures pathIndex.Some?
      ensures list == old(list) + Flatten(children)
      ensures pathIndex.value == IndexFrom(old(pathIndex.value), children)
      decreases children
    {
      var i := 0;
      while i < |children|
        invariant 0 <= i <= |children|
        invariant pathIndex.Some?
        invariant list == old(list) + Flatten(children[..i])
        invariant pathIndex.value == IndexFrom(old(pathIndex.value), children[..i])
      {
        var t := children[i];
        pathIndex := Some(pathIndex.value[t.path := t]);
        assert children[..i + 1][..i] == children[..i];
        if !t.parallel {
          list := list + [t];
          BuildFrom(t.children);
        }
        i := i + 1;
      }
      assert children[..|children|] == children;
    }

    /** `IndexOf`: the last listed position holding the path. */
    method IndexOf(path: string) returns (i: int, found: bool)
      requires Valid()
      modifies this`list, this`pathIndex
      ensures Valid() && pathIndex.Some?
      ensures old(pathIndex).None? ==> list == Flatten(tasks)
      ensures old(pathIndex).Some? ==> list == old(list)
      ensures found <==> exists k :: 0 <= k < |list| && list[k].path == path
      ensures found ==> 0 <= i < |list| && list[i].path == path
      ensures found ==> forall k :: i < k < |list| ==> list[k].path != path
      ensures !found ==> i == 0
    {
      Build();
      i, found := 0, false;
      var k := 0;
      while k < |list|
        invariant 0 <= k <= |list|
        invariant found <==> exists j :: 0 <= j < k && list[j].path == path
        invariant found ==> 0 <= i < k && list[i].path == path
        invariant found ==> forall j :: i < j < k ==> list[j].path != path
        invariant !found ==> i == 0
      {
        if list[k].path == path {
          found := true;
          i := k;
        }
        k := k + 1;
      }
    }

    /** `Get`: the indexed task for the path. */
    method Get(path: string) returns (task: Option<Task>)
      requires Valid()
      modifies this`list, this`pathIndex
      ensures Valid() && pathIndex.Some?
      ensures old(pathIndex).None? ==> list == Flatten(tasks)
      ensures old(pathIndex).Some? ==> list == old(list)
      ensures task.Some? <==> path in pathIndex.value
      ensures task.Some? ==> task.value.path == path
      ensures (exists k :: 0 <= k < |list| && list[k].path == path) ==> task.Some?
    {
      Build();
      if path in pathIndex.value {
        task := Some(pathIndex.value[path]);
      } else {
        task := None;
      }
    }

    /** `Current`: the task at `Index`, or the last one past the end; `None` where Go panics (empty list, negative index). */
    method Current() returns (task: Option<Task>)
      requires Valid()
      modifies this`list, this`pathIndex
      ensures Valid() && pathIndex.Some?
      ensures old(pathIndex).None? ==> list == Flatten(tasks)
      ensures old(pathIndex).Some? ==> list == old(list)
      ensures task.None? <==> index < 0 || |list| == 0
      ensures 0 <= index < |list| ==> task == Some(list[index])
      ensures index >= |list| > 0 ==> task == Some(list[|list| - 1])
    {
      Build();
      if index < |list| {
        if index < 0 {
          task := None;
        } else {
          task := Some(list[index]);
        }
      } else if |list| == 0 {
        task := None;
      } else {
        task := Some(list[|list| - 1]);
      }
    }

    /** `Next`: advance `Index` by one; `done` once it leaves the list, else the task now at `Index`. */
    method Next() returns (task: Option<Task>, done: bool)
      requires Valid()
      modifies this`list, this`pathIndex, this`index
      ensures Valid() && pathIndex.Some?
      ensures old(pathIndex).None? ==> list == Flatten(tasks)
      ensures old(pathIndex).Some? ==> list == old(list)
      ensures task.None? <==> old(index) < 0 || |list| == 0
      ensures task.None? ==> index == old(index)
      ensures task.Some? ==> index == old(index) + 1 && (done <==> index >= |list|)
      ensures task.Some? && !done ==> task == Some(list[index])
      ensures task.Some? && done ==> task == Some(list[|list| - 1])
    {
      task := Current();
      done := false;
      if task.None? {
        return;
      }
      index := index + 1;
      if index < |list| {
        task := Some(list[index]);
      } else {
        done := true;
      }
    }
  }
}
