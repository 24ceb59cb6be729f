/**
 * Inclusion flags of itinerary steps. A step carries two 16-bit masks, `Any`
 * and `All`; each set bit is a flag the caller's predicate evaluates.
 * `hasAll` includes a step when every flagged evaluation is true; `hasAny` is
 * meant to include it when some flagged evaluation is true. Both stop at the
 * first evaluation error. The checks take the step's mask, so both step
 * variants (with `Children` and with `Pipeline`) use them.
 */
module ItineraryFlags {
  import opened Wrappers

  /** `Flag` is an `int16`; only its bit pattern matters. */
  type Flag = bv16

  /** What `Predicate.Evaluate` returns for one flag. */
  datatype Outcome = Outcome(ok: bool, err: Option<string>)

  /** The caller's predicate, or none. */
  datatype Predicate = NilPredicate | Evaluator(eval: Flag -> Outcome)

  /** `Flag(1 << i)`. */
  function FlagAt(i: nat): (f: Flag)
    requires i < 16
  {
    (1 as bv16) << i
  }

  /** Whether bit `i` of the mask is set. */
  predicate Bit(mask: Flag, i: nat)
    requires i < 16
  {
    mask & FlagAt(i) != 0
  }

  /** `o` is what the predicate answered for one of the flags set in `mask` at bit `i` or above. */
  predicate EvaluatedFrom(p: Predicate, mask: Flag, i: nat, o: Outcome)
  {
    p.Evaluator? && exists j :: i <= j < 16 && Bit(mask, j) && o == p.eval(FlagAt(j))
  }

  /**
   * `hasAny` as written, from bit `i` on: after the loop the result is true
   * whatever was evaluated. Otherwise it answers with the first flagged
   * evaluation that accepts or errs.
   */
  function AnyFrom(p: Predicate, mask: Flag, i: nat): (r: Outcome)
    requires i <= 16
    ensures r == Outcome(true, None) || EvaluatedFrom(p, mask, i, r)
    decreases 16 - i
  {
    if i == 16 then Outcome(true, None)
    else if !Bit(mask, i) || p.NilPredicate? then AnyFrom(p, mask, i + 1)
    else
      var o := p.eval(FlagAt(i));
      if o.ok || o.err.Some? then o else AnyFrom(p, mask, i + 1)
  }

  /** `hasAny` as intended, from bit `i` on: when some flag was evaluated and none accepted, the result is false. */
  function AnyFixedFrom(p: Predicate, mask: Flag, i: nat): (r: Outcome)
    requires i <= 16
    ensures r == Outcome(p.NilPredicate? || mask == 0, None) || EvaluatedFrom(p, mask, i, r)
    decreases 16 - i
  {
    if i == 16 then Outcome(p.NilPredicate? || mask == 0, None)
    else if !Bit(mask, i) || p.NilPredicate? then AnyFixedFrom(p, mask, i + 1)
    else
      var o := p.eval(FlagAt(i));
      if o.ok || o.err.Some? then o else AnyFixedFrom(p, mask, i + 1)
  }

  /** `hasAll`, from bit `i` on: the first flagged evaluation that refuses or errs, else true. */
  function AllFrom(p: Predicate, mask: Flag, i: nat): (r: Outcome)
    requires i <= 16
    ensures r == Outcome(true, None) || EvaluatedFrom(p, mask, i, r)
    decreases 16 - i
  {
    if i == 16 then Outcome(true, None)
    else if !Bit(mask, i) || p.NilPredicate? then AllFrom(p, mask, i + 1)
    else
      var o := p.eval(FlagAt(i));
      if !o.ok || o.err.Some? then o else AllFrom(p, mask, i + 1)
  }

  /** As written, `hasAny` never excludes a step: without an error its answer is true. */
  lemma {:induction false} AnyNeverExcludes(p: Predicate, mask: Flag, i: nat)
    requires i <= 16
    ensures AnyFrom(p, mask, i).err.None? ==> AnyFrom(p, mask, i).ok
    decreases 16 - i
  {
    if i < 16 {
      AnyNeverExcludes(p, mask, i + 1);
    }
  }

  /** A predicate refusing every flag still lets a step with its `Any` bit 0 set through. */
  lemma AnyRefusedStillIncluded()
    ensures AnyFrom(Evaluator(f => Outcome(false, None)), 1, 0) == Outcome(true, None)
  {
    var p := Evaluator(f => Outcome(false, None));
    assert Bit(1, 0);
    AnyNeverExcludes(p, 1, 1);
    AnyNoErrors(p, 1, 1);
  }

  /** A predicate that never errs makes `hasAny` as written err-free. */
  lemma {:induction false} AnyNoErrors(p: Predicate, mask: Flag, i: nat)
    requires i <= 16
    requires NeverErrs(p)
    ensures AnyFrom(p, mask, i).err.None?
    decreases 16 - i
  {
    if i < 16 {
      AnyNoErrors(p, mask, i + 1);
    }
  }

  /**
   * As intended, `hasAny` excludes a step exactly when a predicate is given,
   * some `Any` bit is set, and every flagged evaluation refuses without error.
   */
  lemma {:induction false} AnyFixedExcludes(p: Predicate, mask: Flag, i: nat)
    requires i <= 16
    ensures AnyFixedFrom(p, mask, i) == Outcome(false, None) <==>
      p.Evaluator? && mask != 0 &&
      forall j :: i <= j < 16 && Bit(mask, j) ==> p.eval(FlagAt(j)) == Outcome(false, None)
    decreases 16 - i
  {
    if i < 16 {
      AnyFixedExcludes(p, mask, i + 1);
    }
  }

  /** `hasAll` includes a step, without error, exactly when every flagged evaluation accepts without error. */
  lemma {:induction false} AllIncludes(p: Predicate, mask: Flag, i: nat)
    requires i <= 16
    ensures AllFrom(p, mask, i) == Outcome(true, None) <==>
      p.NilPredicate? ||
      forall j :: i <= j < 16 && Bit(mask, j) ==> p.eval(FlagAt(j)) == Outcome(true, None)
    decreases 16 - i
  {
    if i < 16 {
      AllIncludes(p, mask, i + 1);
    }
  }

  /** With no bit set, no check evaluates anything and all include. */
  lemma {:induction false} NoFlagsIncluded(p: Predicate, i: nat)
    requires i <= 16
    ensures AllFrom(p, 0, i) == Outcome(true, None)
    ensures AnyFrom(p, 0, i) == Outcome(true, None)
    ensures AnyFixedFrom(p, 0, i) == Outcome(true, None)
    decreases 16 - i
  {
    if i < 16 {
      assert !Bit(0, i);
      NoFlagsIncluded(p, i + 1);
    }
  }

  /** Without a predicate, every check includes every step. */
  lemma {:induction false} NilPredicateIncludes(mask: Flag, i: nat)
    requires i <= 16
    ensures AllFrom(NilPredicate, mask, i) == Outcome(true, None)
    ensures AnyFrom(NilPredicate, mask, i) == Outcome(true, None)
    ensures AnyFixedFrom(NilPredicate, mask, i) == Outcome(true, None)
    decreases 16 - i
  {
    if i < 16 {
      NilPredicateIncludes(mask, i + 1);
    }
  }

  /** The predicate never reports an error. */
  ghost predicate NeverErrs(p: Predicate)
  {
    p.Evaluator? ==> forall f :: p.eval(f).err.None?
  }

  /** A predicate that never errs makes every check err-free. */
  lemma {:induction false} NeverErrsNoErrors(p: Predicate, mask: Flag, i: nat)
    requires i <= 16 && NeverErrs(p)
    ensures AllFrom(p, mask, i).err.None? && AnyFixedFrom(p, mask, i).err.None?
    ensures AnyFrom(p, mask, i) == Outcome(true, None)
    decreases 16 - i
  {
    if i < 16 {
      NeverErrsNoErrors(p, mask, i + 1);
    }
  }

  /** `hasAny` as written. */
  method HasAny(p: Predicate, any: Flag) returns (r: Outcome)
    ensures r == AnyFrom(p, any, 0)
    ensures r.err.None? ==> r.ok
  {
    AnyNeverExcludes(p, any, 0);
    var i := 0;
    while i < 16
      invariant 0 <= i <= 16
      invariant AnyFrom(p, any, i) == AnyFrom(p, any, 0)
    {
      var flag := FlagAt(i);
      if !Bit(any, i) {
        i := i + 1;
        continue;
      }
      if p.NilPredicate? {
        i := i + 1;
        continue;
      }
      r := p.eval(flag);
      if r.ok || r.err.Some? {
        return;
      }
      i := i + 1;
    }
    r := Outcome(true, None);
  }

  /** `hasAny` returning false when flags were evaluated and none accepted. */
  method HasAnyFixed(p: Predicate, any: Flag) returns (r: Outcome)
    ensures r == AnyFixedFrom(p, any, 0)
  {
    var i := 0;
    while i < 16
      invariant 0 <= i <= 16
      invariant AnyFixedFrom(p, any, i) == AnyFixedFrom(p, any, 0)
    {
      var flag := FlagAt(i);
      if !Bit(any, i) {
        i := i + 1;
        continue;
      }
      if p.NilPredicate? {
        i := i + 1;
        continue;
      }
      r := p.eval(flag);
      if r.ok || r.err.Some? {
        return;
      }
      i := i + 1;
    }
    r := Outcome(p.NilPredicate? || any == 0, None);
  }

  /** `hasAll`. */
  method HasAll(p: Predicate, all: Flag) returns (r: Outcome)
    ensures r == AllFrom(p, all, 0)
  {
    var i := 0;
    while i < 16
      invariant 0 <= i <= 16
      invariant AllFrom(p, all, i) == AllFrom(p, all, 0)
    {
      var flag := FlagAt(i);
      if !Bit(all, i) {
        i := i + 1;
        continue;
      }
      if p.NilPredicate? {
        i := i + 1;
        continue;
      }
      r := p.eval(flag);
      if !r.ok || r.err.Some? {
        return;
      }
      i := i + 1;
    }
    r := Outcome(true, None);
  }

  /**
   * Whether the step is included, or the first evaluation error, as both
   * builds do it: `hasAny` as written, then `hasAll`. Since `hasAny` as
   * written never refuses without an error, the step is kept exactly when
   * `hasAny` does not err and `hasAll` accepts.
   */
  function IncludedAsWritten(p: Predicate, any: Flag, all: Flag): (r: Outcome)
    ensures r == Outcome(true, None) <==>
      AnyFrom(p, any, 0).err.None? && AllFrom(p, all, 0) == Outcome(true, None)
    ensures r.err.Some? ==> r.err == AnyFrom(p, any, 0).err || r.err == AllFrom(p, all, 0).err
  {
    AnyNeverExcludes(p, any, 0);
    var a := AnyFrom(p, any, 0);
    if a.err.Some? then a
    else if !a.ok then a
    else
      var b := AllFrom(p, all, 0);
      if b.err.Some? then b else if !b.ok then b else Outcome(true, None)
  }

  /** Whether the step is included, or the first evaluation error: `hasAny` as intended, then `hasAll`. */
  function Included(p: Predicate, any: Flag, all: Flag): (r: Outcome)
    ensures r == Outcome(true, None) <==>
      AnyFixedFrom(p, any, 0) == Outcome(true, None) && AllFrom(p, all, 0) == Outcome(true, None)
    ensures r.err.Some? ==> r.err == AnyFixedFrom(p, any, 0).err || r.err == AllFrom(p, all, 0).err
  {
    var a := AnyFixedFrom(p, any, 0);
    if a.err.Some? then a
    else if !a.ok then a
    else
      var b := AllFrom(p, all, 0);
      if b.err.Some? then b else if !b.ok then b else Outcome(true, None)
  }
}
