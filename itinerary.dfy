/**
 * An itinerary: a tree of conditional steps, compiled into a pipeline of
 * tasks by dropping the steps (with their subtrees) the predicate excludes.
 */
module Itinerary {
  import opened Wrappers
  import opened ItineraryFlags
  import opened ItineraryPipeline
  import Paths

  /** An itinerary step: name, description, nested steps and the two flag masks. */
  datatype Step = Step(name: string, description: string, children: seq<Step>, all: Flag, any: Flag)

  /** Built tasks and the error captured so far. */
  datatype Built = Built(tasks: seq<Task>, err: Option<string>)

  /** The path of a task named `name` under `parent` (none at the top level). */
  function PathUnder(parent: Option<string>, name: string): string
  {
    if parent.None? then name else Paths.PathJoin(parent.value, name)
  }

  /** A step the two flag checks, as written, include without error. */
  predicate Kept(p: Predicate, step: Step)
  {
    IncludedAsWritten(p, step.any, step.all) == Outcome(true, None)
  }

  /**
   * The recursive `build` closure. `err` is the captured error: a predicate
   * error stops this level (keeping the tasks built so far), while an error
   * from a nested level is recorded and this level carries on.
   */
  function BuildTasks(p: Predicate, parent: Option<string>, steps: seq<Step>, err: Option<string>): (r: Built)
    ensures |r.tasks| <= |steps|
    decreases steps
  {
    if steps == [] then Built([], err)
    else
      var step := steps[0];
      var inc := IncludedAsWritten(p, step.any, step.all);
      if inc.err.Some? then Built([], inc.err)
      else if !inc.ok then BuildTasks(p, parent, steps[1..], err)
      else
        var path := PathUnder(parent, step.name);
        var kids := BuildTasks(p, Some(path), step.children, err);
        var task := Task(step.name, path, step.description, true, kids.tasks, Progress(1, 0, ""), [], false);
        var rest := BuildTasks(p, parent, steps[1..], kids.err);
        Built([task] + rest.tasks, rest.err)
  }

  /** `Itinerary.Pipeline`: the top-level tasks and the error, if any. */
  function Compile(p: Predicate, itinerary: seq<Step>): (r: Built)
    ensures |r.tasks| <= |itinerary|
    ensures forall k :: 0 <= k < |r.tasks| ==> r.tasks[k].path == r.tasks[k].name
    ensures NeverErrs(p) ==> r.err.None?
  {
    BuildTasksFresh(p, None, itinerary, None);
    TopLevelErrorFree(p, itinerary);
    BuildTasks(p, None, itinerary, None)
  }

  lemma TopLevelErrorFree(p: Predicate, itinerary: seq<Step>)
    ensures NeverErrs(p) ==> BuildTasks(p, None, itinerary, None).err.None?
  {
    if NeverErrs(p) {
      BuildTasksErrorFree(p, None, itinerary, None);
    }
  }

  /** Every task, at every depth, is fresh: path under its parent, one unit of total progress, managed, no errors, not parallel. */
  predicate FreshTasks(parent: Option<string>, ts: seq<Task>)
    decreases ts
  {
    forall k :: 0 <= k < |ts| ==>
      ts[k].path == PathUnder(parent, ts[k].name) &&
      ts[k].progress == Progress(1, 0, "") && ts[k].managed && ts[k].errors == [] && !ts[k].parallel &&
      FreshTasks(Some(ts[k].path), ts[k].children)
  }

  /** Built tasks are fresh, with paths joined from their parents'. */
  lemma {:induction false} BuildTasksFresh(p: Predicate, parent: Option<string>, steps: seq<Step>, err: Option<string>)
    ensures FreshTasks(parent, BuildTasks(p, parent, steps, err).tasks)
    decreases steps
  {
    if steps != [] {
      var step := steps[0];
      var inc := IncludedAsWritten(p, step.any, step.all);
      if inc.err.None? {
        if !inc.ok {
          BuildTasksFresh(p, parent, steps[1..], err);
        } else {
          var path := PathUnder(parent, step.name);
          var kids := BuildTasks(p, Some(path), step.children, err);
          BuildTasksFresh(p, Some(path), step.children, err);
          BuildTasksFresh(p, parent, steps[1..], kids.err);
        }
      }
    }
  }

  /** A captured error is never cleared. */
  lemma {:induction false} ErrorSticks(p: Predicate, parent: Option<string>, steps: seq<Step>, err: Option<string>)
    requires err.Some?
    ensures BuildTasks(p, parent, steps, err).err.Some?
    decreases steps
  {
    if steps != [] {
      var step := steps[0];
      var inc := IncludedAsWritten(p, step.any, step.all);
      if inc.err.None? {
        if !inc.ok {
          ErrorSticks(p, parent, steps[1..], err);
        } else {
          var path := PathUnder(parent, step.name);
          var kids := BuildTasks(p, Some(path), step.children, err);
          ErrorSticks(p, Some(path), step.children, err);
          ErrorSticks(p, parent, steps[1..], kids.err);
        }
      }
    }
  }

  /** The steps kept at one level, in order. */
  function KeptSteps(p: Predicate, steps: seq<Step>): (r: seq<Step>)
    ensures |r| <= |steps|
    decreases |steps|
  {
    if steps == [] then []
    else if Kept(p, steps[0]) then [steps[0]] + KeptSteps(p, steps[1..])
    else KeptSteps(p, steps[1..])
  }

  /** With a predicate that never errs, each level holds exactly the kept steps, in order, and no error arises. */
  lemma {:induction false} BuildTasksKeepsIncluded(p: Predicate, parent: Option<string>, steps: seq<Step>, err: Option<string>)
    requires NeverErrs(p)
    ensures BuildTasks(p, parent, steps, err).err == err
    ensures |BuildTasks(p, parent, steps, err).tasks| == |KeptSteps(p, steps)|
    ensures forall k :: 0 <= k < |KeptSteps(p, steps)| ==>
      BuildTasks(p, parent, steps, err).tasks[k].name == KeptSteps(p, steps)[k].name &&
      BuildTasks(p, parent, steps, err).tasks[k].description == KeptSteps(p, steps)[k].description
    decreases steps
  {
    BuildTasksErrorFree(p, parent, steps, err);
    if steps != [] {
      var step := steps[0];
      var path := PathUnder(parent, step.name);
      BuildTasksStep(p, parent, steps, err);
      BuildTasksErrorFree(p, Some(path), step.children, err);
      BuildTasksKeepsIncluded(p, parent, steps[1..], err);
      if Kept(p, step) {
        var kids := BuildTasks(p, Some(path), step.children, err);
        var task := Task(step.name, path, step.description, true, kids.tasks, Progress(1, 0, ""), [], false);
        NamesMatchCons(task, step, BuildTasks(p, parent, steps[1..], err).tasks, KeptSteps(p, steps[1..]));
      }
    }
  }

  /** Tasks matching steps by name and description stay matched with one more of each in front. */
  lemma NamesMatchCons(t: Task, s: Step, ts: seq<Task>, ss: seq<Step>)
    requires t.name == s.name && t.description == s.description && |ts| == |ss|
    requires forall k :: 0 <= k < |ss| ==> ts[k].name == ss[k].name && ts[k].description == ss[k].description
    ensures forall k :: 0 <= k < |ss| + 1 ==>
      ([t] + ts)[k].name == ([s] + ss)[k].name && ([t] + ts)[k].description == ([s] + ss)[k].description
  {
    forall k | 0 <= k < |ss| + 1
      ensures ([t] + ts)[k].name == ([s] + ss)[k].name && ([t] + ts)[k].description == ([s] + ss)[k].description
    {
      if k > 0 {
        assert ([t] + ts)[k] == ts[k - 1] && ([s] + ss)[k] == ss[k - 1];
      }
    }
  }

  /** With a predicate that never errs, no error arises and each level holds as many tasks as it keeps steps. */
  lemma {:induction false} BuildTasksErrorFree(p: Predicate, parent: Option<string>, steps: seq<Step>, err: Option<string>)
    requires NeverErrs(p)
    ensures BuildTasks(p, parent, steps, err).err == err
    ensures |BuildTasks(p, parent, steps, err).tasks| == |KeptSteps(p, steps)|
    decreases steps
  {
    if steps != [] {
      var step := steps[0];
      BuildTasksStep(p, parent, steps, err);
      BuildTasksErrorFree(p, Some(PathUnder(parent, step.name)), step.children, err);
      BuildTasksErrorFree(p, parent, steps[1..], err);
    }
  }

  /** One level of the build and of the kept steps, when the predicate never errs. */
  lemma BuildTasksStep(p: Predicate, parent: Option<string>, steps: seq<Step>, err: Option<string>)
    requires NeverErrs(p) && steps != []
    ensures Kept(p, steps[0]) ==> KeptSteps(p, steps) == [steps[0]] + KeptSteps(p, steps[1..])
    ensures Kept(p, steps[0]) ==> (
      var path := PathUnder(parent, steps[0].name);
      var kids := BuildTasks(p, Some(path), steps[0].children, err);
      var rest := BuildTasks(p, parent, steps[1..], kids.err);
      BuildTasks(p, parent, steps, err) ==
        Built([Task(steps[0].name, path, steps[0].description, true, kids.tasks, Progress(1, 0, ""), [], false)] + rest.tasks, rest.err))
    ensures !Kept(p, steps[0]) ==> KeptSteps(p, steps) == KeptSteps(p, steps[1..])
    ensures !Kept(p, steps[0]) ==> BuildTasks(p, parent, steps, err) == BuildTasks(p, parent, steps[1..], err)
  {
    NeverErrsNoErrors(p, steps[0].any, 0);
    NeverErrsNoErrors(p, steps[0].all, 0);
  }

  /** Without a predicate every step at every level becomes a task. */
  lemma {:induction false} NilPredicateKeepsAll(steps: seq<Step>)
    ensures KeptSteps(NilPredicate, steps) == steps
    decreases |steps|
  {
    if steps != [] {
      NilPredicateIncludes(steps[0].any, 0);
      NilPredicateIncludes(steps[0].all, 0);
      NilPredicateKeepsAll(steps[1..]);
    }
  }

  /** As written, a step whose only `Any` flag the predicate refuses still becomes a task. */
  lemma AnyRefusedStepBuilt()
    ensures |Compile(Evaluator(f => Outcome(false, None)), [Step("X", "", [], 0, 0x01)]).tasks| == 1
  {
    var p := Evaluator(f => Outcome(false, None));
    assert NeverErrs(p);
    NeverErrsNoErrors(p, 0x01, 0);
    NoFlagsIncluded(p, 0);
  }

  /** The predicate of the itinerary test: flag 0x01 refuses, every other flag accepts. */
  function TestPredicate(): Predicate
  {
    Evaluator(f => if f == 0x01 then Outcome(false, None) else Outcome(true, None))
  }

  /** A step with no flags. */
  function Plain(name: string, children: seq<Step>): Step
  {
    Step(name, "", children, 0, 0)
  }

  /** The itinerary of the itinerary test. */
  function TestItinerary(): seq<Step>
  {
    [Plain("ONE", [Plain("A", []), Step("B", "", [], 0x01, 0), Plain("C", [])]),
     Plain("TWO", [Plain("D", []), Plain("E", []),
                   Plain("F", [Plain("fa", []), Plain("fb", []), Step("fc", "", [], 0x01, 0)]),
                   Plain("G", [])]),
     Plain("THREE", [])]
  }

  /** A step without flags is kept by any predicate. */
  lemma PlainKept(p: Predicate, name: string, children: seq<Step>)
    ensures Kept(p, Plain(name, children))
  {
    NoFlagsIncluded(p, 0);
  }

  /** A step whose `All` mask is 0x01 is dropped by the test predicate. */
  lemma FlaggedDropped(s: Step)
    requires s.all == 0x01 && s.any == 0
    ensures !Kept(TestPredicate(), s)
  {
    NoFlagsIncluded(TestPredicate(), 0);
    assert Bit(0x01, 0) && FlagAt(0) == 0x01;
  }

  /** The test's expectations: no error, the three top-level steps kept, and "B" dropped under "ONE". */
  lemma TestPipeline()
    ensures Compile(TestPredicate(), TestItinerary()).err.None?
    ensures |Compile(TestPredicate(), TestItinerary()).tasks| == 3
    ensures |Compile(TestPredicate(), TestItinerary()).tasks[0].children| == 2
  {
    var p := TestPredicate();
    var its := TestItinerary();
    assert NeverErrs(p);
    PlainKept(p, "ONE", its[0].children);
    PlainKept(p, "TWO", its[1].children);
    PlainKept(p, "THREE", []);
    PlainKept(p, "A", []);
    PlainKept(p, "C", []);
    FlaggedDropped(its[0].children[1]);
    assert KeptSteps(p, its[2..]) == [its[2]];
    assert KeptSteps(p, its[1..]) == its[1..];
    assert KeptSteps(p, its) == its;
    var one := its[0].children;
    assert KeptSteps(p, one[2..]) == [one[2]];
    assert KeptSteps(p, one[1..]) == [one[2]];
    assert KeptSteps(p, one) == [one[0], one[2]];
    BuildTasksKeepsIncluded(p, None, its, None);
    BuildTasksKeepsIncluded(p, Some("ONE"), one, None);
  }
}
