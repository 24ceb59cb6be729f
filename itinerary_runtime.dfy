/**
 * The runtime pipeline: steps with nested pipelines, listed in pre-order
 * under slash-joined paths, with an index from each path to its position.
 */
module ItineraryRuntime {
  import opened Wrappers
  import Paths

  /** Progress report; the `int64` counters are unbounded here. */
  datatype Progress = Progress(total: int, completed: int, message: string)

  /** The phase an error occurred in and its reasons. */
  datatype StepError = StepError(phase: string, reasons: seq<string>)

  /** A pipeline step with its nested pipeline. */
  datatype Step = Step(name: string, description: string, pipeline: seq<Step>, progress: Progress, error: Option<StepError>)

  /** A listed step and its path. */
  datatype StepRef = StepRef(path: string, step: Step)

  /** `Runtime.Get`/`get` and `Next` either succeed or fail with `StepNotFound`. */
  datatype Lookup = Found(ref: StepRef) | StepNotFound

  /** What `Next` returns: the next reference (if any), whether the walk is done, and whether the path was unknown. */
  datatype Advance = Advance(next: Option<StepRef>, done: bool, notFound: bool)

  /** `Join`: the name alone at the top, else the parent, a slash and the name. */
  function Join(parent: string, name: string): (phase: string)
    ensures parent == "" ==> phase == name
    ensures parent != "" ==> |phase| == |parent| + 1 + |name| && phase[|parent|] == '/'
    ensures parent != "" ==> phase[..|parent|] == parent && phase[|parent| + 1..] == name
  {
    if parent != "" then parent + "/" + name else name
  }

  /** `Split`: the slash-separated parts. */
  function Split(path: string): seq<string>
  {
    Paths.Split(path)
  }

  /** Splitting a join adds the name as a last part. */
  lemma SplitJoin(parent: string, name: string)
    requires parent != "" && '/' !in name
    ensures Split(Join(parent, name)) == Split(parent) + [name]
  {
    Paths.SplitConcat(parent, name);
    Paths.SplitNoSlash(name);
  }

  /** A top-level phase without slashes splits into itself. */
  lemma SplitTopLevel(name: string)
    requires '/' !in name
    ensures Split(Join("", name)) == [name]
  {
    Paths.SplitNoSlash(name);
  }

  /** Joining the parts of a split gives back the phase. */
  lemma JoinSplitParts(phase: string)
    ensures Paths.JoinParts(Split(phase)) == phase
  {
    Paths.JoinSplit(phase);
  }

  /** The pre-order listing of a pipeline under `parent`. */
  function Refs(parent: string, pl: seq<Step>): seq<StepRef>
    decreases pl
  {
    if pl == [] then []
    else
      var step := pl[|pl| - 1];
      var path := Join(parent, step.name);
      Refs(parent, pl[..|pl| - 1]) + [StepRef(path, step)] + Refs(path, step.pipeline)
  }

  /** The listing of the first i + 1 steps extends that of the first i by the i-th step and its nested listing. */
  lemma RefsStep(parent: string, pl: seq<Step>, i: nat)
    requires i < |pl|
    ensures Refs(parent, pl[..i + 1]) ==
      Refs(parent, pl[..i]) + [StepRef(Join(parent, pl[i].name), pl[i])] + Refs(Join(parent, pl[i].name), pl[i].pipeline)
  {
    assert pl[..i + 1][..i] == pl[..i];
  }

  /** Listing the i-th step after the first i extends the listing of the first i + 1. */
  lemma ExtendRefs(start: seq<StepRef>, parent: string, pl: seq<Step>, i: nat, done: seq<StepRef>, after: seq<StepRef>)
    requires i < |pl|
    requires done == start + Refs(parent, pl[..i])
    requires after == done + [StepRef(Join(parent, pl[i].name), pl[i])] + Refs(Join(parent, pl[i].name), pl[i].pipeline)
    ensures after == start + Refs(parent, pl[..i + 1])
  {
    RefsStep(parent, pl, i);
  }

  /** Each path's position in a listing; a repeated path keeps its last position. */
  function Positions(list: seq<StepRef>): map<string, int>
  {
    if list == [] then map[]
    else Positions(list[..|list| - 1])[list[|list| - 1].path := |list| - 1]
  }

  /** Appending a reference indexes its path at the new position. */
  lemma PositionsAppend(list: seq<StepRef>, r: StepRef)
    ensures Positions(list + [r]) == Positions(list)[r.path := |list|]
  {
    assert (list + [r])[..|list|] == list;
  }

  /** Every path of the listing is indexed, at its last position, and nothing else is. */
  lemma {:induction false} PositionsExact(list: seq<StepRef>)
    ensures forall p :: p in Positions(list) <==> exists j :: 0 <= j < |list| && list[j].path == p
    ensures forall p :: p in Positions(list) ==>
      0 <= Positions(list)[p] < |list| && list[Positions(list)[p]].path == p &&
      forall j :: Positions(list)[p] < j < |list| ==> list[j].path != p
  {
    if list != [] {
      var init := list[..|list| - 1];
      PositionsExact(init);
      assert forall j :: 0 <= j < |init| ==> list[j] == init[j];
    }
  }

  /** Paths that are pairwise distinct. */
  predicate DistinctPaths(list: seq<StepRef>)
  {
    forall i, j :: 0 <= i < j < |list| ==> list[i].path != list[j].path
  }

  /** With distinct paths, every position is indexed under its own path. */
  lemma DistinctPositions(list: seq<StepRef>, i: nat)
    requires DistinctPaths(list) && i < |list|
    ensures list[i].path in Positions(list) && Positions(list)[list[i].path] == i
  {
    PositionsExact(list);
  }

  /** A runtime: the listing and the path index. */
  class Runtime {
    var list: seq<StepRef>
    var index: map<string, int>

    /** The index records each listed path's last position. */
    ghost predicate Valid()
      reads this
    {
      index == Positions(list)
    }

    /** `Pipeline.Runtime`: a runtime built from the pipeline. */
    constructor Of(pipeline: seq<Step>)
      ensures Valid()
      ensures list == Refs("", pipeline)
    {
      list := [];
      index := map[];
      new;
      Build(pipeline);
    }

    /** `build`: list and index the pipeline from scratch. */
    method Build(pipeline: seq<Step>)
      modifies this`list, this`index
      ensures Valid()
      ensures list == Refs("", pipeline)
    {
      list := [];
      index := map[];
      var n := 0;
      n := BuildFrom("", pipeline, n);
    }

    /** The recursive `build` closure; `n` counts the steps listed so far. */
    method BuildFrom(parent: string, pl: seq<Step>, n: int) returns (n': int)
      requires Valid() && n == |list|
      modifies this`list, this`index
      ensures Valid() && n' == |list|
      ensures list == old(list) + Refs(parent, pl)
      decreases pl
    {
      ghost var start := list;
      n' := n;
      var i := 0;
      while i < |pl|
        invariant 0 <= i <= |pl|
        invariant Valid() && n' == |list|
        invariant list == start + Refs(parent, pl[..i])
      {
        ghost var done := list;
        RefsStep(parent, pl, i);
        n' := BuildStep(parent, pl[i], n');
        ExtendRefs(start, parent, pl, i, done, list);
        i := i + 1;
      }
      assert pl[..|pl|] == pl;
    }

    /** One pass of the closure's loop: list and index the step, then its nested pipeline. */
    method BuildStep(parent: string, step: Step, n: int) returns (n': int)
      requires Valid() && n == |list|
      modifies this`list, this`index
      ensures Valid() && n' == |list|
      ensures list == old(list) + [StepRef(Join(parent, step.name), step)] + Refs(Join(parent, step.name), step.pipeline)
      decreases step
    {
      var path := Join(parent, step.name);
      PositionsAppend(list, StepRef(path, step));
      list := list + [StepRef(path, step)];
      index := index[path := n];
      n' := BuildFrom(path, step.pipeline, n + 1);
    }

    /** `get`: the reference at the indexed position, else `StepNotFound`. */
    function GetRef(path: string): (r: Lookup)
      reads this
      requires Valid()
      ensures r.Found? <==> exists j :: 0 <= j < |list| && list[j].path == path
      ensures r.Found? ==> r.ref.path == path && path in index && 0 <= index[path] < |list| && r.ref == list[index[path]]
    {
      PositionsExact(list);
      if path in index && index[path] < |list| then
        Found(list[index[path]])
      else
        StepNotFound
    }

    /** `Get`: the step at the path, else `StepNotFound`. */
    function Get(path: string): (r: Option<Step>)
      reads this
      requires Valid()
      ensures r.Some? <==> GetRef(path).Found?
      ensures r.Some? ==> r.value == GetRef(path).ref.step
    {
      match GetRef(path)
      case Found(ref) => Some(ref.step)
      case StepNotFound => None
    }

    /** `Next`: the reference after the path's position, done when it was the last, `StepNotFound` (and done) when unknown. */
    function Next(path: string): (r: Advance)
      reads this
      requires Valid()
      ensures r.notFound <==> !exists j :: 0 <= j < |list| && list[j].path == path
      ensures r.notFound ==> r.done && r.next.None?
      ensures r.next.Some? <==> !r.done
      ensures !r.notFound ==> path in index && 0 <= index[path] < |list| && (r.done <==> index[path] == |list| - 1)
      ensures !r.done ==> path in index && 0 <= index[path] < |list| - 1 && r.next == Some(list[index[path] + 1])
    {
      PositionsExact(list);
      if path in index then
        var i := index[path] + 1;
        if i < |list| then Advance(Some(list[i]), false, false)
        else Advance(None, true, false)
      else
        Advance(None, true, true)
    }

    /** Calls of `Next` needed from the path until it reports done, within `fuel` calls; `None` on an unknown path. */
    ghost function CallsToDone(path: string, fuel: nat): Option<nat>
      reads this
      requires Valid()
      decreases fuel
    {
      var r := Next(path);
      if r.notFound then None
      else if r.done then Some(1)
      else if fuel == 0 then None
      else
        match CallsToDone(r.next.value.path, fuel - 1)
        case None => None
        case Some(c) => Some(c + 1)
    }

    /** Walking with `Next` from the i-th step is done within |list| - i calls. */
    lemma {:induction false} WalkReachesDone(i: nat, fuel: nat)
      requires Valid()
      requires i < |list| && fuel >= |list| - 1 - i
      ensures CallsToDone(list[i].path, fuel).Some?
      ensures CallsToDone(list[i].path, fuel).value <= |list| - i
      decreases |list| - i
    {
      PositionsExact(list);
      var j := index[list[i].path];
      if j + 1 < |list| {
        WalkReachesDone(j + 1, fuel - 1);
      }
    }

    /** With distinct paths, the walk visits every later step: exactly |list| - i calls. */
    lemma {:induction false} WalkVisitsAll(i: nat, fuel: nat)
      requires Valid() && DistinctPaths(list)
      requires i < |list| && fuel >= |list| - 1 - i
      ensures CallsToDone(list[i].path, fuel) == Some(|list| - i)
      decreases |list| - i
    {
      DistinctPositions(list, i);
      if i + 1 < |list| {
        WalkVisitsAll(i + 1, fuel - 1);
      }
    }
  }

  /** No step name, at any depth, contains a slash. */
  predicate SlashFree(pl: seq<Step>)
    decreases pl
  {
    forall i :: 0 <= i < |pl| ==> '/' !in pl[i].name && SlashFree(pl[i].pipeline)
  }

  /** Every path listed under a non-empty parent splits into the parent's parts and more. */
  lemma {:induction false} RefsUnder(parent: string, pl: seq<Step>)
    requires parent != "" && SlashFree(pl)
    ensures forall k :: 0 <= k < |Refs(parent, pl)| ==>
      |Split(Refs(parent, pl)[k].path)| > |Split(parent)| &&
      Split(Refs(parent, pl)[k].path)[..|Split(parent)|] == Split(parent)
    decreases pl
  {
    if pl != [] {
      var step := pl[|pl| - 1];
      var path := Join(parent, step.name);
      assert SlashFree(pl[..|pl| - 1]);
      RefsUnder(parent, pl[..|pl| - 1]);
      SplitJoin(parent, step.name);
      RefsUnder(path, step.pipeline);
      var nested := Refs(path, step.pipeline);
      forall k | 0 <= k < |nested|
        ensures |Split(nested[k].path)| > |Split(parent)| && Split(nested[k].path)[..|Split(parent)|] == Split(parent)
      {
        var s := Split(nested[k].path);
        assert s[..|Split(path)|] == Split(parent) + [step.name];
        assert s[..|Split(parent)|] == s[..|Split(path)|][..|Split(parent)|];
      }
    }
  }
}
