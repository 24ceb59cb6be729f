/**
 * Resource status conditions (package `condition`). A `Conditions` value
 * keeps a list of conditions, at most one per type, and a staging flag. A
 * staging cycle starts by unstaging every non-durable condition, re-stages the
 * conditions set or staged during the cycle, and ends by dropping the ones
 * still unstaged and reporting what was added, updated and deleted.
 *
 * The clock is the parameter `now`; a condition's transition time is the
 * `now` of the call that last changed it.
 */
module StatusConditions {
  import opened Wrappers

  const True := "True"
  const False := "False"

  const Ready := "Ready"
  const ReconcileFailed := "ReconcileFailed"

  const Critical := "Critical"
  const Error := "Error"
  const Warn := "Warn"
  const Required := "Required"
  const Advisory := "Advisory"

  /** A condition: its exported fields and the staged, added and updated flags. */
  datatype Condition = Condition(
    ctype: string, status: string, reason: string, category: string, message: string,
    lastTransition: int, durable: bool, items: seq<string>,
    staged: bool, added: bool, updated: bool)

  /** `Condition.Equal`: the exported fields other than the transition time agree. */
  predicate Equal(r: Condition, other: Condition) {
    r.ctype == other.ctype && r.status == other.status && r.category == other.category &&
    r.reason == other.reason && r.message == other.message && r.durable == other.durable &&
    r.items == other.items
  }

  /**
   * `Condition.Update`: always stages the condition; when it is not `Equal` to
   * `other`, takes `other`'s exported fields, sets the transition time and
   * marks it updated.
   */
  function Update(r: Condition, other: Condition, now: int): (u: Condition)
    ensures u.staged && u.added == r.added
    ensures Equal(u, other)
    ensures Equal(r, other) ==> u == r.(staged := true)
    ensures !Equal(r, other) ==> u.updated && u.lastTransition == now
  {
    if Equal(r, other) then r.(staged := true)
    else r.(ctype := other.ctype, status := other.status, reason := other.reason,
            category := other.category, message := other.message, durable := other.durable,
            items := other.items, lastTransition := now, updated := true, staged := true)
  }

  /** Updating twice with the same condition is updating once, up to the staged flag already set. */
  lemma UpdateIdempotent(r: Condition, other: Condition, now: int, later: int)
    ensures Update(Update(r, other, now), other, later) == Update(r, other, now)
  {
  }

  /** The index of the first condition of type `t`, or the length when there is none. */
  function FindIndex(list: seq<Condition>, t: string): (i: nat)
    ensures i <= |list|
    ensures i < |list| ==> list[i].ctype == t
    ensures forall j :: 0 <= j < i ==> list[j].ctype != t
  {
    if |list| == 0 then 0
    else if list[0].ctype == t then 0
    else 1 + FindIndex(list[1..], t)
  }

  /** `FindCondition`: the first condition of type `t`, hidden while staging unless staged. */
  function Visible(list: seq<Condition>, staging: bool, t: string): (r: Option<Condition>)
    ensures r.Some? <==>
      exists i :: 0 <= i < |list| && list[i].ctype == t &&
        (!staging || list[i].staged) && forall j :: 0 <= j < i ==> list[j].ctype != t
    ensures r.Some? ==> r.value == list[FindIndex(list, t)]
  {
    var i := FindIndex(list, t);
    if i == |list| then None
    else if staging && !list[i].staged then None
    else Some(list[i])
  }

  /** No two conditions of one type. */
  ghost predicate TypesDistinct(list: seq<Condition>) {
    forall i, j :: 0 <= i < j < |list| ==> list[i].ctype != list[j].ctype
  }

  /** The list after `SetCondition` with one condition: update the first of its type, or append it. */
  function SetOne(list: seq<Condition>, c: Condition, now: int): (r: seq<Condition>)
    ensures |list| <= |r| <= |list| + 1
    ensures |r| == |list| + 1 <==> FindIndex(list, c.ctype) == |list|
    ensures FindIndex(list, c.ctype) < |r| && r[FindIndex(list, c.ctype)].staged &&
      Equal(r[FindIndex(list, c.ctype)], c)
    ensures forall j :: 0 <= j < |list| && list[j].ctype != c.ctype ==> r[j] == list[j]
  {
    var i := FindIndex(list, c.ctype);
    if i == |list| then list + [c.(staged := true, added := true, lastTransition := now)]
    else list[i := Update(list[i], c.(staged := true, updated := true), now)]
  }

  /** The types of `cs`, in order. */
  function TypesOf(cs: seq<Condition>): (r: seq<string>)
    ensures |r| == |cs|
  {
    if |cs| == 0 then [] else TypesOf(cs[..|cs| - 1]) + [cs[|cs| - 1].ctype]
  }

  /** The list after `SetCondition` with each of `cs` in turn. */
  function SetAll(list: seq<Condition>, cs: seq<Condition>, now: int): (r: seq<Condition>)
    ensures |list| <= |r| <= |list| + |cs|
    ensures forall j :: 0 <= j < |list| && list[j].ctype !in TypesOf(cs) ==> r[j] == list[j]
    decreases |cs|
  {
    if |cs| == 0 then list
    else SetOne(SetAll(list, cs[..|cs| - 1], now), cs[|cs| - 1], now)
  }

  /** Setting one more condition of `cs` is one more `SetOne`. */
  lemma SetAllStep(list: seq<Condition>, cs: seq<Condition>, k: nat, now: int)
    requires k < |cs|
    ensures SetAll(list, cs[..k + 1], now) == SetOne(SetAll(list, cs[..k], now), cs[k], now)
  {
    assert cs[..k + 1][..k] == cs[..k];
  }

  /**
   * Setting a condition keeps one condition per type, makes the condition of
   * its type visible, staged and `Equal` to it, keeps every other condition,
   * and grows the list by at most one.
   */
  lemma SetOneSpec(list: seq<Condition>, c: Condition, now: int)
    requires TypesDistinct(list)
    ensures var r := SetOne(list, c, now);
      TypesDistinct(r) &&
      |list| <= |r| <= |list| + 1 &&
      (forall s :: Visible(r, s, c.ctype).Some? && Visible(r, s, c.ctype).value.staged &&
                   Equal(Visible(r, s, c.ctype).value, c)) &&
      (forall j :: 0 <= j < |list| && list[j].ctype != c.ctype ==> r[j] == list[j])
  {
    var r := SetOne(list, c, now);
    var i := FindIndex(list, c.ctype);
    FindIndexIsFirst(r, c.ctype, i);
  }

  /** Setting several conditions keeps one condition per type. */
  lemma {:induction false} SetAllDistinct(list: seq<Condition>, cs: seq<Condition>, now: int)
    requires TypesDistinct(list)
    ensures TypesDistinct(SetAll(list, cs, now))
    decreases |cs|
  {
    if |cs| > 0 {
      SetAllDistinct(list, cs[..|cs| - 1], now);
      SetOneSpec(SetAll(list, cs[..|cs| - 1], now), cs[|cs| - 1], now);
    }
  }

  /** The conditions still staged, in order. */
  function StagedOnly(list: seq<Condition>): (r: seq<Condition>)
    ensures |r| <= |list|
  {
    if |list| == 0 then []
    else StagedOnly(list[..|list| - 1]) + (if list[|list| - 1].staged then [list[|list| - 1]] else [])
  }

  /** Exactly the staged conditions are kept. */
  lemma {:induction false} StagedOnlyExact(list: seq<Condition>, c: Condition)
    ensures c in StagedOnly(list) <==> c in list && c.staged
  {
    if |list| > 0 {
      StagedOnlyExact(list[..|list| - 1], c);
      assert list == list[..|list| - 1] + [list[|list| - 1]];
    }
  }

  /** Keeping a subsequence keeps one condition per type. */
  lemma {:induction false} StagedOnlyDistinct(list: seq<Condition>)
    requires TypesDistinct(list)
    ensures TypesDistinct(StagedOnly(list))
    ensures forall c :: c in StagedOnly(list) ==> c in list
  {
    if |list| > 0 {
      var init := list[..|list| - 1];
      StagedOnlyDistinct(init);
      var last := list[|list| - 1];
      forall c | c in StagedOnly(init)
        ensures c.ctype != last.ctype
      {
        var k :| 0 <= k < |init| && init[k] == c;
        assert list[k] == c;
      }
    }
  }

  /** The list after `BeginStagingConditions`: each condition is staged iff it is durable. */
  function Unstage(list: seq<Condition>): (r: seq<Condition>)
    ensures |r| == |list|
    ensures forall i :: 0 <= i < |list| ==> r[i] == list[i].(staged := list[i].durable)
  {
    seq(|list|, i requires 0 <= i < |list| => list[i].(staged := list[i].durable))
  }

  /** A staging cycle in which nothing is set or staged keeps exactly the durable conditions. */
  lemma {:induction false} EmptyCycleKeepsDurable(list: seq<Condition>, c: Condition)
    ensures c in StagedOnly(Unstage(list)) <==> c.durable && c.staged && exists i :: 0 <= i < |list| && c == list[i].(staged := true)
  {
    StagedOnlyExact(Unstage(list), c);
  }

  /** The list after `StageCondition(types)`. */
  function Stage(list: seq<Condition>, types: seq<string>): (r: seq<Condition>)
    ensures |r| == |list|
    ensures forall i :: 0 <= i < |list| ==> r[i] == (if list[i].ctype in types then list[i].(staged := true) else list[i])
  {
    seq(|list|, i requires 0 <= i < |list| => if list[i].ctype in types then list[i].(staged := true) else list[i])
  }

  /** While staging, a condition of a staged type that exists becomes visible. */
  lemma StageMakesVisible(list: seq<Condition>, types: seq<string>, t: string)
    requires t in types && FindIndex(list, t) < |list|
    ensures Visible(Stage(list, types), true, t) == Some(list[FindIndex(list, t)].(staged := true))
  {
    var r := Stage(list, types);
    var i := FindIndex(list, t);
    assert forall j :: 0 <= j < |list| ==> r[j].ctype == list[j].ctype;
    assert FindIndex(r, t) == i by {
      FindIndexSameTypes(list, r, t);
    }
  }

  /** Two lists with the same types at each index find a type at the same index. */
  lemma {:induction false} FindIndexSameTypes(a: seq<Condition>, b: seq<Condition>, t: string)
    requires |a| == |b| && forall j :: 0 <= j < |a| ==> a[j].ctype == b[j].ctype
    ensures FindIndex(a, t) == FindIndex(b, t)
  {
    if |a| > 0 && a[0].ctype != t {
      FindIndexSameTypes(a[1..], b[1..], t);
    }
  }

  /** The list after `DeleteCondition(types)`: outside staging matching conditions go; while staging they are unstaged. */
  function Delete(list: seq<Condition>, types: seq<string>, staging: bool): (r: seq<Condition>)
    ensures |r| <= |list|
    ensures staging ==> |r| == |list|
  {
    if |list| == 0 then []
    else
      var c := list[|list| - 1];
      Delete(list[..|list| - 1], types, staging) +
        (if c.ctype !in types then [c] else if staging then [c.(staged := false)] else [])
  }

  /** Outside staging, deletion keeps exactly the conditions of other types. */
  lemma {:induction false} DeleteExact(list: seq<Condition>, types: seq<string>, c: Condition)
    ensures c in Delete(list, types, false) <==> c in list && c.ctype !in types
  {
    if |list| > 0 {
      DeleteExact(list[..|list| - 1], types, c);
      assert list == list[..|list| - 1] + [list[|list| - 1]];
    }
  }

  /** While staging, deletion unstages the matching conditions in place, which hides them. */
  lemma {:induction false} DeleteWhileStaging(list: seq<Condition>, types: seq<string>)
    ensures var r := Delete(list, types, true);
      |r| == |list| &&
      forall i :: 0 <= i < |list| ==>
        r[i] == (if list[i].ctype in types then list[i].(staged := false) else list[i])
  {
    if |list| > 0 {
      DeleteWhileStaging(list[..|list| - 1], types);
    }
  }

  /** While staging, a deleted type is no longer found. */
  lemma DeleteHides(list: seq<Condition>, types: seq<string>, t: string)
    requires t in types
    ensures Visible(Delete(list, types, true), true, t).None?
  {
    var r := Delete(list, types, true);
    DeleteWhileStaging(list, types);
    FindIndexSameTypes(list, r, t);
  }

  /** Which bucket of the delta a condition belongs to: 0 added, 1 updated, 2 deleted, 3 none. */
  function Bucket(c: Condition): nat {
    if c.added then 0 else if c.updated then 1 else if !c.staged then 2 else 3
  }

  /** The conditions of bucket `b`, in order. */
  function InBucket(list: seq<Condition>, b: nat): (r: seq<Condition>)
    ensures |r| <= |list|
    ensures forall k :: 0 <= k < |r| ==> r[k] in list && Bucket(r[k]) == b
  {
    if |list| == 0 then []
    else InBucket(list[..|list| - 1], b) + (if Bucket(list[|list| - 1]) == b then [list[|list| - 1]] else [])
  }

  /** `Delta`: the conditions added, updated and deleted. */
  datatype Delta = Delta(added: seq<Condition>, updated: seq<Condition>, deleted: seq<Condition>)

  /** `delta`. */
  function DeltaOf(list: seq<Condition>): (d: Delta)
    ensures forall k :: 0 <= k < |d.added| ==> d.added[k] in list && d.added[k].added
    ensures forall k :: 0 <= k < |d.updated| ==> d.updated[k] in list && !d.updated[k].added && d.updated[k].updated
    ensures forall k :: 0 <= k < |d.deleted| ==>
      d.deleted[k] in list && !d.deleted[k].added && !d.deleted[k].updated && !d.deleted[k].staged
  {
    Delta(InBucket(list, 0), InBucket(list, 1), InBucket(list, 2))
  }

  /** A condition is in a bucket iff it is in the list and classified there. */
  lemma {:induction false} InBucketExact(list: seq<Condition>, b: nat, c: Condition)
    ensures c in InBucket(list, b) <==> c in list && Bucket(c) == b
  {
    if |list| > 0 {
      InBucketExact(list[..|list| - 1], b, c);
      assert list == list[..|list| - 1] + [list[|list| - 1]];
    }
  }

  /** The buckets never hold more conditions than the list. */
  lemma {:induction false} DeltaSize(list: seq<Condition>)
    ensures var d := DeltaOf(list); |d.added| + |d.updated| + |d.deleted| <= |list|
  {
    if |list| > 0 {
      DeltaSize(list[..|list| - 1]);
    }
  }

  /**
   * The delta is disjoint, with priority added over updated over deleted: an
   * added condition is never reported updated or deleted, an updated one never
   * deleted.
   */
  lemma DeltaDisjoint(list: seq<Condition>, c: Condition)
    ensures c in DeltaOf(list).added <==> c in list && c.added
    ensures c in DeltaOf(list).updated <==> c in list && !c.added && c.updated
    ensures c in DeltaOf(list).deleted <==> c in list && !c.added && !c.updated && !c.staged
  {
    InBucketExact(list, 0, c);
    InBucketExact(list, 1, c);
    InBucketExact(list, 2, c);
  }

  /** `Delta.Len` as written: counts the updated conditions twice and the added ones not at all. */
  function LenAsWritten(d: Delta): (n: nat)
    ensures d.added == [] ==> (n == 0 <==> d.updated == [] && d.deleted == [])
  {
    |d.updated| + |d.updated| + |d.deleted|
  }

  /** `Delta.Empty` as written: blind to added conditions. */
  predicate EmptyAsWritten(d: Delta)
    ensures EmptyAsWritten(d) <==> d.updated == [] && d.deleted == []
  {
    LenAsWritten(d) == 0
  }

  /** A delta reporting one added condition is empty by `Len` as written. */
  lemma AddedDeltaReportsEmpty(c: Condition)
    ensures var d := Delta([c], [], []); EmptyAsWritten(d) && |d.added| == 1
  {
  }

  /** `Delta.Len`: the number of changes. */
  function Len(d: Delta): (n: nat)
    ensures n >= |d.added| && n >= |d.updated| && n >= |d.deleted|
  {
    |d.added| + |d.updated| + |d.deleted|
  }

  /** `Delta.Empty`: nothing was added, updated or deleted. */
  predicate Empty(d: Delta)
    ensures Empty(d) <==> d.added == [] && d.updated == [] && d.deleted == []
  {
    Len(d) == 0
  }

  /** The delta of a list is empty iff no condition was added or updated and none is unstaged. */
  lemma EmptyIffNoChange(list: seq<Condition>)
    ensures Empty(DeltaOf(list)) <==> forall i :: 0 <= i < |list| ==> Bucket(list[i]) == 3
  {
    if !Empty(DeltaOf(list)) {
      var d := DeltaOf(list);
      var c := if |d.added| > 0 then d.added[0] else if |d.updated| > 0 then d.updated[0] else d.deleted[0];
      DeltaDisjoint(list, c);
    } else {
      forall i | 0 <= i < |list|
        ensures Bucket(list[i]) == 3
      {
        DeltaDisjoint(list, list[i]);
      }
    }
  }

  /** Whether every type is visible with status "True", and there is at least one type. */
  predicate HasAll(list: seq<Condition>, staging: bool, types: seq<string>)
    ensures HasAll(list, staging, types) ==> HasAny(list, staging, types)
  {
    |types| > 0 &&
    (assert types[0] in types;
     forall t :: t in types ==> Visible(list, staging, t).Some? && Visible(list, staging, t).value.status == True)
  }

  /** Whether some type is visible with status "True". */
  predicate HasAny(list: seq<Condition>, staging: bool, types: seq<string>)
    ensures HasAny(list, staging, types) ==>
      exists i :: 0 <= i < |list| && list[i].ctype in types && list[i].status == True
  {
    exists t :: t in types && Visible(list, staging, t).Some? && Visible(list, staging, t).value.status == True
  }

  /** Whether some visible condition with status "True" has one of the categories. */
  predicate HasCategory(list: seq<Condition>, staging: bool, names: seq<string>)
    ensures |names| == 0 ==> !HasCategory(list, staging, names)
    ensures HasCategory(list, staging, names) ==>
      exists c :: c in list && c.category in names && c.status == True
  {
    exists i :: 0 <= i < |list| && list[i].category in names && list[i].status == True &&
      (!staging || list[i].staged)
  }

  /** For a single type, all and any agree. */
  lemma HasAllOneIsAny(list: seq<Condition>, staging: bool, t: string)
    ensures HasAll(list, staging, [t]) <==> HasAny(list, staging, [t])
  {
    if HasAny(list, staging, [t]) {
      var u :| u in [t] && Visible(list, staging, u).Some? && Visible(list, staging, u).value.status == True;
      assert u == t;
    }
  }

  /** A collection of conditions. */
  class Conditions {
    var list: seq<Condition>
    var staging: bool

    constructor ()
      ensures list == [] && !staging
    {
      list, staging := [], false;
    }

    /** `BeginStagingConditions`. */
    method BeginStaging()
      modifies this
      ensures staging && list == Unstage(old(list))
    {
      staging := true;
      var i := 0;
      while i < |list|
        invariant 0 <= i <= |list| == |old(list)|
        invariant forall j :: 0 <= j < i ==> list[j] == old(list)[j].(staged := old(list)[j].durable)
        invariant forall j :: i <= j < |list| ==> list[j] == old(list)[j]
        invariant staging
      {
        list := list[i := list[i].(staged := list[i].durable)];
        i := i + 1;
      }
    }

    /** The delta of the current list. */
    method ComputeDelta() returns (d: Delta)
      ensures d == DeltaOf(list)
    {
      d := Delta([], [], []);
      var i := 0;
      while i < |list|
        invariant 0 <= i <= |list|
        invariant d == DeltaOf(list[..i])
      {
        var c := list[i];
        assert list[..i + 1][..i] == list[..i];
        if c.added {
          d := d.(added := d.added + [c]);
        } else if c.updated {
          d := d.(updated := d.updated + [c]);
        } else if !c.staged {
          d := d.(deleted := d.deleted + [c]);
        }
        i := i + 1;
      }
      assert list[..i] == list;
    }

    /** `EndStagingConditions`: reports the delta, then keeps only the staged conditions. */
    method EndStaging() returns (d: Delta)
      modifies this
      ensures !staging && d == DeltaOf(old(list)) && list == StagedOnly(old(list))
    {
      staging := false;
      d := ComputeDelta();
      var kept: seq<Condition> := [];
      var i := 0;
      while i < |list|
        invariant 0 <= i <= |list|
        invariant list == old(list) && kept == StagedOnly(list[..i])
      {
        assert list[..i + 1][..i] == list[..i];
        if list[i].staged {
          kept := kept + [list[i]];
        }
        i := i + 1;
      }
      assert list[..i] == list;
      list := kept;
    }

    /** `find`: the index of the first condition of the type, staging ignored. */
    method Find(t: string) returns (i: nat)
      ensures i == FindIndex(list, t)
    {
      i := 0;
      while i < |list|
        invariant 0 <= i <= |list|
        invariant forall j :: 0 <= j < i ==> list[j].ctype != t
      {
        if list[i].ctype == t {
          FindIndexIsFirst(list, t, i);
          return;
        }
        i := i + 1;
      }
      FindIndexIsFirst(list, t, i);
    }

    /** `FindCondition`. */
    method FindCondition(t: string) returns (r: Option<Condition>)
      ensures r == Visible(list, staging, t)
    {
      var i := Find(t);
      if i == |list| {
        return None;
      }
      if staging && !list[i].staged {
        return None;
      }
      r := Some(list[i]);
    }

    /** `SetCondition`: sets each condition in turn. */
    method SetCondition(cs: seq<Condition>, now: int)
      modifies this
      ensures staging == old(staging) && list == SetAll(old(list), cs, now)
    {
      var k := 0;
      while k < |cs|
        invariant 0 <= k <= |cs|
        invariant staging == old(staging) && list == SetAll(old(list), cs[..k], now)
      {
        SetAllStep(old(list), cs, k, now);
        SetOneHere(cs[k], now);
        k := k + 1;
      }
      assert cs[..k] == cs;
    }

    /** The body of the `SetCondition` loop for one condition. */
    method SetOneHere(c: Condition, now: int)
      modifies this`list
      ensures list == SetOne(old(list), c, now)
    {
      var staged := c.(staged := true);
      var i := Find(staged.ctype);
      if i == |list| {
        list := list + [staged.(added := true, lastTransition := now)];
      } else {
        list := list[i := Update(list[i], staged.(updated := true), now)];
      }
    }

    /** `UpdateConditions`: sets each of the other collection's conditions. */
    method UpdateConditions(other: seq<Condition>, now: int)
      modifies this
      ensures staging == old(staging) && list == SetAll(old(list), other, now)
    {
      SetCondition(other, now);
    }

    /** `StageCondition`. */
    method StageCondition(types: seq<string>)
      modifies this
      ensures staging == old(staging) && list == Stage(old(list), types)
    {
      var i := 0;
      while i < |list|
        invariant 0 <= i <= |list| == |old(list)|
        invariant staging == old(staging)
        invariant forall j :: 0 <= j < i ==> list[j] == Stage(old(list), types)[j]
        invariant forall j :: i <= j < |list| ==> list[j] == old(list)[j]
      {
        if list[i].ctype in types {
          list := list[i := list[i].(staged := true)];
        }
        i := i + 1;
      }
    }

    /** `DeleteCondition`. */
    method DeleteCondition(types: seq<string>)
      modifies this
      ensures staging == old(staging) && list == Delete(old(list), types, staging)
    {
      var kept: seq<Condition> := [];
      var i := 0;
      while i < |list|
        invariant 0 <= i <= |list|
        invariant list == old(list) && staging == old(staging)
        invariant kept == Delete(list[..i], types, staging)
      {
        var c := list[i];
        assert list[..i + 1][..i] == list[..i];
        if c.ctype !in types {
          kept := kept + [c];
        } else if staging {
          kept := kept + [c.(staged := false)];
        }
        i := i + 1;
      }
      assert list[..i] == list;
      list := kept;
    }

    /** `HasCondition`: every type is visible with status "True", and there is at least one. */
    method HasCondition(types: seq<string>) returns (r: bool)
      ensures r <==> HasAll(list, staging, types)
    {
      var k := 0;
      while k < |types|
        invariant 0 <= k <= |types|
        invariant forall m :: 0 <= m < k ==> (Visible(list, staging, types[m]).Some? &&
          Visible(list, staging, types[m]).value.status == True)
      {
        var c := FindCondition(types[k]);
        if c.None? || c.value.status != True {
          return false;
        }
        k := k + 1;
      }
      r := |types| > 0;
    }

    /** `HasAnyCondition`: some type is visible with status "True". */
    method HasAnyCondition(types: seq<string>) returns (r: bool)
      ensures r <==> HasAny(list, staging, types)
    {
      var k := 0;
      while k < |types|
        invariant 0 <= k <= |types|
        invariant forall m :: 0 <= m < k ==>
          !(Visible(list, staging, types[m]).Some? && Visible(list, staging, types[m]).value.status == True)
      {
        var c := FindCondition(types[k]);
        if c.Some? && c.value.status == True {
          return true;
        }
        k := k + 1;
      }
      r := false;
    }

    /** `HasConditionCategory`: some visible condition with status "True" has one of the categories. */
    method HasConditionCategory(names: seq<string>) returns (r: bool)
      ensures r <==> HasCategory(list, staging, names)
    {
      var i := 0;
      while i < |list|
        invariant 0 <= i <= |list|
        invariant forall j :: 0 <= j < i ==>
          !(list[j].category in names && list[j].status == True && (!staging || list[j].staged))
      {
        var c := list[i];
        if c.category !in names || c.status != True {
          i := i + 1;
          continue;
        }
        if staging && !c.staged {
          i := i + 1;
          continue;
        }
        return true;
      }
      r := false;
    }

    /** `HasBlockerCondition`: a visible condition with status "True" is Critical or Error. */
    method HasBlockerCondition() returns (r: bool)
      ensures r <==>
        exists i :: 0 <= i < |list| && (list[i].category == Critical || list[i].category == Error) &&
          list[i].status == True && (!staging || list[i].staged)
    {
      r := HasConditionCategory([Critical, Error]);
      if r {
        var i :| 0 <= i < |list| && list[i].category in [Critical, Error] && list[i].status == True &&
          (!staging || list[i].staged);
      }
    }

    /** `HasCriticalCondition`. */
    method HasCriticalCondition() returns (r: bool)
      ensures r <==> HasCategory(list, staging, [Critical])
    {
      r := HasConditionCategory([Critical]);
    }

    /** `HasErrorCondition`. */
    method HasErrorCondition() returns (r: bool)
      ensures r <==> HasCategory(list, staging, [Error])
    {
      r := HasConditionCategory([Error]);
    }

    /** `HasWarnCondition`. */
    method HasWarnCondition() returns (r: bool)
      ensures r <==> HasCategory(list, staging, [Warn])
    {
      r := HasConditionCategory([Warn]);
    }

    /** `IsReady`: the Ready condition is visible with status "True". */
    method IsReady() returns (r: bool)
      ensures r <==> Visible(list, staging, Ready).Some? && Visible(list, staging, Ready).value.status == True
    {
      var c := FindCondition(Ready);
      r := c.Some? && c.value.status == True;
    }
  }

  /** `FindIndex` is the first index of the type. */
  lemma {:induction false} FindIndexIsFirst(list: seq<Condition>, t: string, i: nat)
    requires i <= |list| && (i < |list| ==> list[i].ctype == t)
    requires forall j :: 0 <= j < i ==> list[j].ctype != t
    ensures FindIndex(list, t) == i
  {
    if |list| > 0 && i > 0 {
      FindIndexIsFirst(list[1..], t, i - 1);
    }
  }

  /** A staging cycle that sets a new condition reports it added; `Empty` as written calls that delta empty. */
  method SetNewThenEnd() returns (d: Delta)
    ensures |d.added| == 1 && EmptyAsWritten(d) && !Empty(d)
  {
    var cs := new Conditions();
    cs.BeginStaging();
    var c := Condition("Ready", True, "", Required, "ready", 0, false, [], false, false, false);
    cs.SetCondition([c], 5);
    d := cs.EndStaging();
    assert SetAll([], [c], 5) == [c.(staged := true, added := true, lastTransition := 5)];
    assert InBucket([c.(staged := true, added := true, lastTransition := 5)], 1) == [];
    assert InBucket([c.(staged := true, added := true, lastTransition := 5)], 2) == [];
  }
}
