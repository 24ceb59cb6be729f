/**
 * The single-file itinerary variant: conditional steps with nested
 * pipelines, exported by filtering on the step flags, and run through a
 * runtime listing the steps in pre-order under slash-joined paths with an
 * index from each path to its position.
 */
module ItinerarySimple {
  import opened Wrappers
  import opened ItineraryFlags

  /** Progress report; the `int64` counters are unbounded here. */
  datatype Progress = Progress(completed: int, total: int)

  /** The phase an error occurred in and its reasons. */
  datatype StepError = StepError(phase: string, reasons: seq<string>)

  /** An itinerary step with its nested pipeline and flag masks. */
  datatype Step = Step(
    name: string,
    description: string,
    pipeline: seq<Step>,
    progress: Progress,
    error: Option<StepError>,
    all: Flag,
    any: Flag)

  /** A listed step and its path. */
  datatype StepRef = StepRef(path: string, step: Step)

  /** `Runtime.Get`/`get` and `Next` either succeed or fail with `StepNotFound`. */
  datatype Lookup = Found(ref: StepRef) | StepNotFound

  /** What `Next` returns: the next reference (if any), whether the walk is done, and whether the path was unknown. */
  datatype Advance = Advance(next: Option<StepRef>, done: bool, notFound: bool)

  /** `join`: the name alone at the top, else the parent, a slash and the name. */
  function Join(parent: string, name: string): (phase: string)
    ensures parent == "" ==> phase == name
    ensures parent != "" ==> |phase| == |parent| + 1 + |name| && phase[|parent|] == '/'
    ensures parent != "" ==> phase[..|parent|] == parent && phase[|parent| + 1..] == name
  {
    if parent != "" then parent + "/" + name else name
  }

  /** The pre-order listing of a pipeline under `parent`. */
  function Refs(parent: string, pl: seq<Step>): seq<StepRef>
    decreases pl
  {
    if pl == [] then []
    else
      var step := pl[|pl| - 1];
      var path := Join(parent, step.name);
      Refs(parent, pl[..|pl| - 1]) + [StepRef(path, step)] + Refs(path, step.pipeline)
  }

  /** The listing of the first i + 1 steps extends that of the first i by the i-th step and its nested listing. */
  lemma RefsStep(parent: string, pl: seq<Step>, i: nat)
    requires i < |pl|
    ensures Refs(parent, pl[..i + 1]) ==
      Refs(parent, pl[..i]) + [StepRef(Join(parent, pl[i].name), pl[i])] + Refs(Join(parent, pl[i].name), pl[i].pipeline)
  {
    assert pl[..i + 1][..i] == pl[..i];
  }

  /** Listing the i-th step after the first i extends the listing of the first i + 1. */
  lemma ExtendRefs(start: seq<StepRef>, parent: string, pl: seq<Step>, i: nat, done: seq<StepRef>, after: seq<StepRef>)
    requires i < |pl|
    requires done == start + Refs(parent, pl[..i])
    requires after == done + [StepRef(Join(parent, pl[i].name), pl[i])] + Refs(Join(parent, pl[i].name), pl[i].pipeline)
    ensures after == start + Refs(parent, pl[..i + 1])
  {
    RefsStep(parent, pl, i);
  }

  /** Each path's position in a listing; a repeated path keeps its last position. */
  function Positions(list: seq<StepRef>): map<string, int>
  {
    if list == [] then map[]
    else Positions(list[..|list| - 1])[list[|list| - 1].path := |list| - 1]
  }

  /** Appending a reference indexes its path at the new position. */
  lemma PositionsAppend(list: seq<StepRef>, r: StepRef)
    ensures Positions(list + [r]) == Positions(list)[r.path := |list|]
  {
    assert (list + [r])[..|list|] == list;
  }

  /** Every path of the listing is indexed, at its last position, and nothing else is. */
  lemma {:induction false} PositionsExact(list: seq<StepRef>)
    ensures forall p :: p in Positions(list) <==> exists j :: 0 <= j < |list| && list[j].path == p
    ensures forall p :: p in Positions(list) ==>
      0 <= Positions(list)[p] < |list| && list[Positions(list)[p]].path == p &&
      forall j :: Positions(list)[p] < j < |list| ==> list[j].path != p
  {
    if list != [] {
      var init := list[..|list| - 1];
      PositionsExact(init);
      assert forall j :: 0 <= j < |init| ==> list[j] == init[j];
    }
  }

  /** Paths that are pairwise distinct. */
  predicate DistinctPaths(list: seq<StepRef>)
  {
    forall i, j :: 0 <= i < j < |list| ==> list[i].path != list[j].path
  }

  /** With distinct paths, every position is indexed under its own path. */
  lemma DistinctPositions(list: seq<StepRef>, i: nat)
    requires DistinctPaths(list) && i < |list|
    ensures list[i].path in Positions(list) && Positions(list)[list[i].path] == i
  {
    PositionsExact(list);
  }

  /** A runtime: the listing and the path index. */
  class Runtime {
    var list: seq<StepRef>
    var index: map<string, int>

    /** The index records each listed path's last position. */
    ghost predicate Valid()
      reads this
    {
      index == Positions(list)
    }

    /** `Pipeline.Runtime`: a runtime built from the pipeline. */
    constructor Of(pipeline: seq<Step>)
      ensures Valid()
      ensures list == Refs("", pipeline)
    {
      list := [];
      index := map[];
      new;
      Build(pipeline);
    }

    /** `build`: list and index the pipeline from scratch. */
    method Build(pipeline: seq<Step>)
      modifies this`list, this`index
      ensures Valid()
      ensures list == Refs("", pipeline)
    {
      list := [];
      index := map[];
      var n := 0;
      n := BuildFrom("", pipeline, n);
    }

    /** The recursive `build` closure; `n` counts the steps listed so far. */
    method BuildFrom(parent: string, pl: seq<Step>, n: int) returns (n': int)
      requires Valid() && n == |list|
      modifies this`list, this`index
      ensures Valid() && n' == |list|
      ensures list == old(list) + Refs(parent, pl)
      decreases pl
    {
      ghost var start := list;
      n' := n;
      var i := 0;
      while i < |pl|
        invariant 0 <= i <= |pl|
        invariant Valid() && n' == |list|
        invariant list == start + Refs(parent, pl[..i])
      {
        ghost var done := list;
        RefsStep(parent, pl, i);
        n' := BuildStep(parent, pl[i], n');
        ExtendRefs(start, parent, pl, i, done, list);
        i := i + 1;
      }
      assert pl[..|pl|] == pl;
    }

    /** One pass of the closure's loop: list and index the step, then its nested pipeline. */
    method BuildStep(parent: string, step: Step, n: int) returns (n': int)
      requires Valid() && n == |list|
      modifies this`list, this`index
      ensures Valid() && n' == |list|
      ensures list == old(list) + [StepRef(Join(parent, step.name), step)] + Refs(Join(parent, step.name), step.pipeline)
      decreases step
    {
      var path := Join(parent, step.name);
      PositionsAppend(list, StepRef(path, step));
      list := list + [StepRef(path, step)];
      index := index[path := n];
      n' := BuildFrom(path, step.pipeline, n + 1);
    }

    /** `get`: the reference at the indexed position, else `StepNotFound`. */
    function GetRef(path: string): (r: Lookup)
      reads this
      requires Valid()
      ensures r.Found? <==> exists j :: 0 <= j < |list| && list[j].path == path
      ensures r.Found? ==> r.ref.path == path && path in index && 0 <= index[path] < |list| && r.ref == list[index[path]]
    {
      PositionsExact(list);
      if path in index && index[path] < |list| then
        Found(list[index[path]])
      else
        StepNotFound
    }

    /** `Get`: the step at the path, else `StepNotFound`. */
    function Get(path: string): (r: Option<Step>)
      reads this
      requires Valid()
      ensures r.Some? <==> GetRef(path).Found?
      ensures r.Some? ==> r.value == GetRef(path).ref.step
    {
      match GetRef(path)
      case Found(ref) => Some(ref.step)
      case StepNotFound => None
    }

    /** `Next`: the reference after the path's position, done when it was the last, `StepNotFound` (and done) when unknown. */
    function Next(path: string): (r: Advance)
      reads this
      requires Valid()
      ensures r.notFound <==> !exists j :: 0 <= j < |list| && list[j].path == path
      ensures r.notFound ==> r.done && r.next.None?
      ensures r.next.Some? <==> !r.done
      ensures !r.notFound ==> path in index && 0 <= index[path] < |list| && (r.done <==> index[path] == |list| - 1)
      ensures !r.done ==> path in index && 0 <= index[path] < |list| - 1 && r.next == Some(list[index[path] + 1])
    {
      PositionsExact(list);
      if path in index then
        var i := index[path] + 1;
        if i < |list| then Advance(Some(list[i]), false, false)
        else Advance(None, true, false)
      else
        Advance(None, true, true)
    }

    /** Calls of `Next` needed from the path until it reports done, within `fuel` calls; `None` on an unknown path. */
    ghost function CallsToDone(path: string, fuel: nat): Option<nat>
      reads this
      requires Valid()
      decreases fuel
    {
      var r := Next(path);
      if r.notFound then None
      else if r.done then Some(1)
      else if fuel == 0 then None
      else
        match CallsToDone(r.next.value.path, fuel - 1)
        case None => None
        case Some(c) => Some(c + 1)
    }

    /** Walking with `Next` from the i-th step is done within |list| - i calls. */
    lemma {:induction false} WalkReachesDone(i: nat, fuel: nat)
      requires Valid()
      requires i < |list| && fuel >= |list| - 1 - i
      ensures CallsToDone(list[i].path, fuel).Some?
      ensures CallsToDone(list[i].path, fuel).value <= |list| - i
      decreases |list| - i
    {
      PositionsExact(list);
      var j := index[list[i].path];
      if j + 1 < |list| {
        WalkReachesDone(j + 1, fuel - 1);
      }
    }

    /** With distinct paths, the walk visits every later step: exactly |list| - i calls. */
    lemma {:induction false} WalkVisitsAll(i: nat, fuel: nat)
      requires Valid() && DistinctPaths(list)
      requires i < |list| && fuel >= |list| - 1 - i
      ensures CallsToDone(list[i].path, fuel) == Some(|list| - i)
      decreases |list| - i
    {
      DistinctPositions(list, i);
      if i + 1 < |list| {
        WalkVisitsAll(i + 1, fuel - 1);
      }
    }
  }

  // ---------------------------------------------------------------------
  // Export

  /** Exported steps and the captured error. */
  datatype Exported = Exported(steps: seq<Step>, err: Option<string>)

  /** A step the two flag checks, as written, include without error. */
  predicate KeptAsWritten(p: Predicate, step: Step)
  {
    IncludedAsWritten(p, step.any, step.all) == Outcome(true, None)
  }

  /** The steps kept at one level by the checks as written, in order and unchanged. */
  function KeptStepsAsWritten(p: Predicate, steps: seq<Step>): (r: seq<Step>)
    ensures |r| <= |steps|
    ensures forall k :: 0 <= k < |r| ==> KeptAsWritten(p, r[k]) && r[k] in steps
    decreases |steps|
  {
    if steps == [] then []
    else if KeptAsWritten(p, steps[0]) then [steps[0]] + KeptStepsAsWritten(p, steps[1..])
    else KeptStepsAsWritten(p, steps[1..])
  }

  /** A step both flag checks, with the corrected `hasAny`, include without error. */
  predicate Kept(p: Predicate, step: Step)
  {
    Included(p, step.any, step.all) == Outcome(true, None)
  }

  /** The steps kept at one level with the corrected `hasAny`, in order and unchanged. */
  function KeptSteps(p: Predicate, steps: seq<Step>): (r: seq<Step>)
    ensures |r| <= |steps|
    ensures forall k :: 0 <= k < |r| ==> Kept(p, r[k]) && r[k] in steps
    decreases |steps|
  {
    if steps == [] then []
    else if Kept(p, steps[0]) then [steps[0]] + KeptSteps(p, steps[1..])
    else KeptSteps(p, steps[1..])
  }

  /**
   * `Export`'s closure as written: a kept step is copied whole, and the
   * recursive call on its nested pipeline contributes only its error.
   */
  function ExportAsWritten(p: Predicate, steps: seq<Step>, err: Option<string>): (r: Exported)
    ensures |r.steps| <= |steps|
    ensures forall k :: 0 <= k < |r.steps| ==> r.steps[k] in steps && KeptAsWritten(p, r.steps[k])
    decreases steps
  {
    if steps == [] then Exported([], err)
    else
      var step := steps[0];
      var inc := IncludedAsWritten(p, step.any, step.all);
      if inc.err.Some? then Exported([], inc.err)
      else if !inc.ok then ExportAsWritten(p, steps[1..], err)
      else
        var nested := ExportAsWritten(p, step.pipeline, err);
        var rest := ExportAsWritten(p, steps[1..], nested.err);
        Exported([step] + rest.steps, rest.err)
  }

  /** `Export` as written, with a predicate that never errs: exactly the kept top-level steps, nested pipelines untouched. */
  lemma {:induction false} ExportAsWrittenCopies(p: Predicate, steps: seq<Step>, err: Option<string>)
    requires NeverErrs(p)
    ensures ExportAsWritten(p, steps, err) == Exported(KeptStepsAsWritten(p, steps), err)
    decreases steps
  {
    if steps != [] {
      var step := steps[0];
      NeverErrsNoErrors(p, step.any, 0);
      NeverErrsNoErrors(p, step.all, 0);
      ExportAsWrittenCopies(p, step.pipeline, err);
      ExportAsWrittenCopies(p, steps[1..], err);
    }
  }

  /** The export as intended: a kept step carries its filtered nested pipeline. */
  function Export(p: Predicate, steps: seq<Step>, err: Option<string>): (r: Exported)
    ensures |r.steps| <= |steps|
    ensures forall k :: 0 <= k < |r.steps| ==> Kept(p, r.steps[k])
    decreases steps
  {
    if steps == [] then Exported([], err)
    else
      var step := steps[0];
      var inc := Included(p, step.any, step.all);
      if inc.err.Some? then Exported([], inc.err)
      else if !inc.ok then Export(p, steps[1..], err)
      else
        var nested := Export(p, step.pipeline, err);
        var rest := Export(p, steps[1..], nested.err);
        Exported([step.(pipeline := nested.steps)] + rest.steps, rest.err)
  }

  /** Every step, at every depth, is kept by the predicate. */
  predicate AllKept(p: Predicate, steps: seq<Step>)
    decreases steps
  {
    forall k :: 0 <= k < |steps| ==> Kept(p, steps[k]) && AllKept(p, steps[k].pipeline)
  }

  /** As intended, whatever the errors, no exported step at any depth is one the predicate excludes. */
  lemma {:induction false} ExportAllKept(p: Predicate, steps: seq<Step>, err: Option<string>)
    ensures AllKept(p, Export(p, steps, err).steps)
    decreases steps
  {
    if steps != [] {
      var step := steps[0];
      var inc := Included(p, step.any, step.all);
      if inc.err.None? {
        if !inc.ok {
          ExportAllKept(p, steps[1..], err);
        } else {
          var nested := Export(p, step.pipeline, err);
          ExportAllKept(p, step.pipeline, err);
          ExportAllKept(p, steps[1..], nested.err);
        }
      }
    }
  }

  /** As intended, with a predicate that never errs, no error arises and each level holds as many steps as it keeps. */
  lemma {:induction false} ExportErrorFree(p: Predicate, steps: seq<Step>, err: Option<string>)
    requires NeverErrs(p)
    ensures Export(p, steps, err).err == err
    ensures |Export(p, steps, err).steps| == |KeptSteps(p, steps)|
    decreases steps
  {
    if steps != [] {
      var step := steps[0];
      NeverErrsNoErrors(p, step.any, 0);
      NeverErrsNoErrors(p, step.all, 0);
      ExportErrorFree(p, step.pipeline, err);
      ExportErrorFree(p, steps[1..], err);
    }
  }

  /** One level of the intended export and of the kept steps, when the predicate never errs. */
  lemma ExportStep(p: Predicate, steps: seq<Step>, err: Option<string>)
    requires NeverErrs(p) && steps != []
    ensures Kept(p, steps[0]) ==> KeptSteps(p, steps) == [steps[0]] + KeptSteps(p, steps[1..])
    ensures Kept(p, steps[0]) ==> (Export(p, steps, err).steps ==
      [steps[0].(pipeline := Export(p, steps[0].pipeline, err).steps)] +
      Export(p, steps[1..], Export(p, steps[0].pipeline, err).err).steps)
    ensures !Kept(p, steps[0]) ==> KeptSteps(p, steps) == KeptSteps(p, steps[1..])
    ensures !Kept(p, steps[0]) ==> Export(p, steps, err) == Export(p, steps[1..], err)
  {
    NeverErrsNoErrors(p, steps[0].any, 0);
    NeverErrsNoErrors(p, steps[0].all, 0);
  }

  /** As intended, with a predicate that never errs, each level keeps the kept steps in order, each carrying its filtered nested pipeline, and no error arises. */
  lemma {:induction false} ExportKeepsIncluded(p: Predicate, steps: seq<Step>, err: Option<string>)
    requires NeverErrs(p)
    ensures Export(p, steps, err).err == err
    ensures |Export(p, steps, err).steps| == |KeptSteps(p, steps)|
    ensures forall k :: 0 <= k < |KeptSteps(p, steps)| ==>
      Export(p, steps, err).steps[k] == KeptSteps(p, steps)[k].(pipeline := Export(p, KeptSteps(p, steps)[k].pipeline, err).steps)
    decreases steps
  {
    ExportErrorFree(p, steps, err);
    if steps != [] {
      var step := steps[0];
      ExportStep(p, steps, err);
      ExportKeepsIncluded(p, steps[1..], err);
      if Kept(p, step) {
        ExportErrorFree(p, step.pipeline, err);
        FilteredCons(p, err, step, Export(p, steps[1..], err).steps, KeptSteps(p, steps[1..]));
      }
    }
  }

  /** Steps that are filtered copies of others stay so with one more of each in front. */
  lemma FilteredCons(p: Predicate, err: Option<string>, s: Step, ts: seq<Step>, ss: seq<Step>)
    requires |ts| == |ss|
    requires forall k :: 0 <= k < |ss| ==> ts[k] == ss[k].(pipeline := Export(p, ss[k].pipeline, err).steps)
    ensures var out := [s.(pipeline := Export(p, s.pipeline, err).steps)] + ts;
      forall k :: 0 <= k < |ss| + 1 ==>
        out[k] == ([s] + ss)[k].(pipeline := Export(p, ([s] + ss)[k].pipeline, err).steps)
  {
    var out := [s.(pipeline := Export(p, s.pipeline, err).steps)] + ts;
    forall k | 0 <= k < |ss| + 1
      ensures out[k] == ([s] + ss)[k].(pipeline := Export(p, ([s] + ss)[k].pipeline, err).steps)
    {
      if k > 0 {
        assert out[k] == ts[k - 1] && ([s] + ss)[k] == ss[k - 1];
      }
    }
  }

  /** The predicate of the itinerary test: flag 0x01 refuses, every other flag accepts. */
  function TestPredicate(): Predicate
  {
    Evaluator(f => if f == 0x01 then Outcome(false, None) else Outcome(true, None))
  }

  /** A step with no flags and no progress. */
  function Plain(name: string, pipeline: seq<Step>): Step
  {
    Step(name, "", pipeline, Progress(0, 0), None, 0, 0)
  }

  /** The first top-level step of the test itinerary: "B" carries the refused flag. */
  function TestOne(): Step
  {
    Plain("ONE", [Plain("A", []), Step("B", "", [], Progress(0, 0), None, 0x01, 0), Plain("C", [])])
  }

  /** The step "B" is excluded, the others are kept, by the checks as written and as intended alike. */
  lemma TestOneFlags()
    ensures Kept(TestPredicate(), TestOne()) && KeptAsWritten(TestPredicate(), TestOne())
    ensures Kept(TestPredicate(), TestOne().pipeline[0]) && Kept(TestPredicate(), TestOne().pipeline[2])
    ensures !Kept(TestPredicate(), TestOne().pipeline[1]) && !KeptAsWritten(TestPredicate(), TestOne().pipeline[1])
  {
    NoFlagsIncluded(TestPredicate(), 0);
    assert Bit(0x01, 0) && FlagAt(0) == 0x01;
  }

  /** As written, the exported "ONE" still holds "B", which the checks exclude. */
  lemma ExportKeepsExcludedChild()
    ensures ExportAsWritten(TestPredicate(), [TestOne()], None).steps == [TestOne()]
    ensures !KeptAsWritten(TestPredicate(), ExportAsWritten(TestPredicate(), [TestOne()], None).steps[0].pipeline[1])
  {
    var p := TestPredicate();
    assert NeverErrs(p);
    TestOneFlags();
    assert KeptStepsAsWritten(p, [TestOne()]) == [TestOne()];
    ExportAsWrittenCopies(p, [TestOne()], None);
  }

  /** A step whose only `Any` flag is refused is exported as written, and dropped as intended. */
  lemma ExportAnyRefused()
    ensures ExportAsWritten(Evaluator(f => Outcome(false, None)), [Step("X", "", [], Progress(0, 0), None, 0, 0x01)], None).steps ==
      [Step("X", "", [], Progress(0, 0), None, 0, 0x01)]
    ensures Export(Evaluator(f => Outcome(false, None)), [Step("X", "", [], Progress(0, 0), None, 0, 0x01)], None).steps == []
  {
    var p := Evaluator(f => Outcome(false, None));
    assert NeverErrs(p);
    NeverErrsNoErrors(p, 0x01, 0);
    NoFlagsIncluded(p, 0);
    AnyFixedExcludes(p, 0x01, 0);
    assert forall j :: 0 <= j < 16 && Bit(0x01, j) ==> p.eval(FlagAt(j)) == Outcome(false, None);
  }

  /** As intended, the exported "ONE" holds only "A" and "C". */
  lemma ExportDropsExcludedChild()
    ensures |Export(TestPredicate(), [TestOne()], None).steps| == 1
    ensures |Export(TestPredicate(), [TestOne()], None).steps[0].pipeline| == 2
  {
    var p := TestPredicate();
    var one := TestOne().pipeline;
    assert NeverErrs(p);
    TestOneFlags();
    assert KeptSteps(p, [TestOne()]) == [TestOne()];
    assert KeptSteps(p, one[2..]) == [one[2]];
    assert KeptSteps(p, one[1..]) == [one[2]];
    assert KeptSteps(p, one) == [one[0], one[2]];
    ExportKeepsIncluded(p, [TestOne()], None);
    ExportKeepsIncluded(p, one, None);
  }
}
