/**
 * The error-wrapping utility: `Wrap` attaches a captured stack and optional
 * key/value context to an error exactly once, `Unwrap` reaches the root cause,
 * and `Context` turns each recorded key/value list into a map.
 *
 * Go errors are modelled as values. An `*Error` is the `Lib` variant; an error
 * that has its own `Unwrap()` method (such as another library's wrapper) is the
 * `Cause` variant; every other error is `Plain`. The stack that
 * `runtime.Callers` would capture is a parameter.
 */
module ErrorWrap {
  import opened Wrappers

  /** A value stored in an error's context (Go `interface{}`). */
  datatype Value = Str(s: string) | Num(n: int)

  datatype GoError =
    | Plain(msg: string)
    | Cause(msg: string, cause: GoError)
    | Lib(wrapped: GoError, context: seq<seq<Value>>, stack: seq<string>)

  /** An `*Error` never wraps another `*Error` directly. */
  ghost predicate NotNested(e: GoError) {
    e.Lib? ==> !e.wrapped.Lib?
  }

  /** Size of an error chain, used to bound the unwrap loop. */
  function Size(e: GoError): nat {
    match e
    case Plain(_) => 1
    case Cause(_, c) => 1 + Size(c)
    case Lib(w, _, _) => 1 + Size(w)
  }

  /** `addContext`: a non-empty key/value list is appended; an empty one is ignored. */
  function AddContext(e: GoError, kv: seq<Value>): (r: GoError)
    requires e.Lib?
    ensures r.Lib? && r.wrapped == e.wrapped && r.stack == e.stack && Message(r) == Message(e)
    ensures |r.context| == |e.context| + (if |kv| > 0 then 1 else 0) && r.context[..|e.context|] == e.context
    ensures |kv| > 0 ==> r.context[|e.context|] == kv
  {
    if |kv| > 0 then e.(context := e.context + [kv]) else e
  }

  /**
   * `Wrap(err, context...)`: nil stays nil; an `*Error` gets the context added
   * and is returned itself; any other error becomes a fresh `*Error`.
   */
  function Wrap(err: Option<GoError>, ctx: seq<Value>, stack: seq<string>): (r: Option<GoError>)
    ensures err.None? <==> r.None?
    ensures r.Some? ==> r.value.Lib?
    ensures err.Some? && err.value.Lib? ==>
      r.value.wrapped == err.value.wrapped && r.value.stack == err.value.stack &&
      r.value.context == (if |ctx| > 0 then err.value.context + [ctx] else err.value.context)
    ensures err.Some? && !err.value.Lib? ==>
      r.value.wrapped == err.value && r.value.stack == stack &&
      r.value.context == (if |ctx| > 0 then [ctx] else [])
  {
    match err
    case None => None
    case Some(e) =>
      if e.Lib? then Some(AddContext(e, ctx))
      else Some(AddContext(Lib(e, [], stack), ctx))
  }

  /** `New(m)`: a wrapped plain error carrying the message and no context. */
  function New(m: string, stack: seq<string>): (r: GoError)
    ensures r == Lib(Plain(m), [], stack)
    ensures Message(r) == m
  {
    Wrap(Some(Plain(m)), [], stack).value
  }

  /** Every link of the chain is an `*Error`, down to a plain root. */
  predicate LibLinksOnly(e: GoError) {
    match e
    case Plain(_) => true
    case Cause(_, _) => false
    case Lib(w, _, _) => LibLinksOnly(w)
  }

  /**
   * `Error()`: the message; an `*Error` reports its wrapped error's message,
   * so a chain of `*Error` wrappers reports its root cause's message.
   */
  function Message(e: GoError): (r: string)
    ensures LibLinksOnly(e) ==> r == Innermost(e).msg
    ensures e.Cause? ==> r == e.msg
  {
    match e
    case Plain(m) => m
    case Cause(m, _) => m
    case Lib(w, _, _) => Message(w)
  }

  /** The root cause: the error reached by following `Unwrap()` links until none is left. */
  function Innermost(e: GoError): (r: GoError)
    ensures r.Plain?
    ensures Size(r) <= Size(e)
  {
    match e
    case Plain(_) => e
    case Cause(_, c) => Innermost(c)
    case Lib(w, _, _) => Innermost(w)
  }

  /**
   * `Unwrap(err)`: walks `Unwrap()` links while the current error has one.
   * The `Unwrap()` of an `*Error` is itself a call to this function on the
   * wrapped error.
   */
  method Unwrap(err: Option<GoError>) returns (out: Option<GoError>)
    ensures err.None? ==> out.None?
    ensures err.Some? ==> out == Some(Innermost(err.value))
    decreases if err.Some? then Size(err.value) else 0, 1
  {
    if err.None? {
      return None;
    }
    var cur := err.value;
    while !cur.Plain?
      invariant Innermost(cur) == Innermost(err.value)
      invariant Size(cur) <= Size(err.value)
      decreases Size(cur)
    {
      match cur
      case Cause(_, c) =>
        cur := c;
      case Lib(_, _, _) =>
        var next := ErrorUnwrap(cur);
        cur := next;
    }
    out := Some(cur);
  }

  /** `(Error).Unwrap()`: the root cause of the wrapped error. */
  method ErrorUnwrap(e: GoError) returns (r: GoError)
    requires e.Lib?
    ensures r == Innermost(e.wrapped)
    ensures Size(r) < Size(e)
    decreases Size(e), 0
  {
    var out := Unwrap(Some(e.wrapped));
    r := out.value;
  }

  /** The key of the `j`-th pair of a key/value list. */
  function KeyAt(l: seq<Value>, j: nat): Value
    requires 2 * j + 1 < |l|
  {
    l[2 * j]
  }

  /** The value of the `j`-th pair of a key/value list. */
  function ValAt(l: seq<Value>, j: nat): Value
    requires 2 * j + 1 < |l|
  {
    l[2 * j + 1]
  }

  /** The map made of the first `n` pairs, a later pair overriding an earlier one. */
  function Pairs(l: seq<Value>, n: nat): map<Value, Value>
    requires 2 * n <= |l|
  {
    if n == 0 then map[] else Pairs(l, n - 1)[KeyAt(l, n - 1) := ValAt(l, n - 1)]
  }

  /** The map of one context entry: every complete pair, a trailing odd value dropped. */
  function PairMap(l: seq<Value>): map<Value, Value> {
    Pairs(l, |l| / 2)
  }

  /** What `Context()` returns: nil without context, else one map per recorded list. */
  function ContextMaps(e: GoError): Option<seq<map<Value, Value>>>
    requires e.Lib?
  {
    if |e.context| == 0 then None
    else Some(seq(|e.context|, i requires 0 <= i < |e.context| => PairMap(e.context[i])))
  }

  /** A key is in the pair map iff it is the key of one of the pairs. */
  lemma {:induction false} PairsKeys(l: seq<Value>, n: nat, key: Value)
    requires 2 * n <= |l|
    ensures key in Pairs(l, n) <==> exists j :: 0 <= j < n && KeyAt(l, j) == key
  {
    if n > 0 {
      PairsKeys(l, n - 1, key);
    }
  }

  /** The value stored for a key is that of the last pair carrying the key. */
  lemma {:induction false} PairsLastWins(l: seq<Value>, n: nat, j: nat)
    requires 2 * n <= |l| && j < n
    requires forall k :: j < k < n ==> KeyAt(l, k) != KeyAt(l, j)
    ensures KeyAt(l, j) in Pairs(l, n) && Pairs(l, n)[KeyAt(l, j)] == ValAt(l, j)
  {
    if j < n - 1 {
      PairsLastWins(l, n - 1, j);
    }
  }

  /** `Context()`: builds one map per recorded key/value list. */
  method Context(e: GoError) returns (ctx: Option<seq<map<Value, Value>>>)
    requires e.Lib?
    ensures ctx == ContextMaps(e)
  {
    if |e.context| == 0 {
      return None;
    }
    var maps: seq<map<Value, Value>> := [];
    var c := 0;
    while c < |e.context|
      invariant 0 <= c <= |e.context|
      invariant |maps| == c
      invariant forall i :: 0 <= i < c ==> maps[i] == PairMap(e.context[i])
    {
      var l := e.context[c];
      var mp: map<Value, Value> := map[];
      var i, k := 0, 0;
      while i + 1 < |l|
        invariant i == 2 * k && i <= |l|
        invariant mp == Pairs(l, k)
      {
        mp := mp[l[i] := l[i + 1]];
        i, k := i + 2, k + 1;
      }
      assert k == |l| / 2;
      maps := maps + [mp];
      c := c + 1;
    }
    ctx := Some(maps);
    assert maps == ContextMaps(e).value;
  }

  /** Wrapping never nests: wrapping a second time without context changes nothing. */
  lemma WrapIdempotent(e: GoError, s1: seq<string>, s2: seq<string>)
    ensures Wrap(Wrap(Some(e), [], s1), [], s2) == Wrap(Some(e), [], s1)
  {
  }

  /** Wrapping keeps the message and the root cause, and never produces a nested `*Error`. */
  lemma {:induction false} WrapPreserves(e: GoError, ctx: seq<Value>, s: seq<string>)
    requires NotNested(e)
    ensures var r := Wrap(Some(e), ctx, s).value;
      NotNested(r) && Message(r) == Message(e) && Innermost(r) == Innermost(e)
  {
  }

  /** Unwrapping is idempotent: the root cause has no further cause. */
  lemma {:induction false} InnermostIdempotent(e: GoError)
    ensures Innermost(Innermost(e)) == Innermost(e)
  {
  }

  /** Six context values with distinct keys give one map with three keys. */
  lemma ContextOfThreePairs(cause: GoError, s1: seq<string>, s2: seq<string>)
    requires !cause.Lib?
    ensures var le := Wrap(Some(cause), [], s1);
      ContextMaps(le.value).None? &&
      var le4 := Wrap(le, [Str("description"), Str("Failed to create user."),
                           Str("name"), Str("larry"), Str("age"), Num(10)], s2);
      var c := ContextMaps(le4.value);
      c.Some? && |c.value| == 1 && |c.value[0]| == 3
  {
    var l := [Str("description"), Str("Failed to create user."),
              Str("name"), Str("larry"), Str("age"), Num(10)];
    assert Pairs(l, 1) == map[Str("description") := Str("Failed to create user.")];
    assert Pairs(l, 2) == Pairs(l, 1)[Str("name") := Str("larry")];
    assert Pairs(l, 3) == Pairs(l, 2)[Str("age") := Num(10)];
    assert PairMap(l).Keys == {Str("description"), Str("name"), Str("age")};
  }
}
