/**
 * Slash-separated task paths: `strings.Split(path, "/")`,
 * `strings.Join(parts, "/")`, and `path.Join` of two elements.
 */
module Paths {

  /** `strings.Split(s, "/")`: the empty string splits into one empty part. */
  function Split(s: string): (parts: seq<string>)
    ensures |parts| >= 1
    decreases |s|
  {
    if |s| == 0 then [""]
    else
      var init := Split(s[..|s| - 1]);
      var c := s[|s| - 1];
      if c == '/' then init + [""]
      else init[..|init| - 1] + [init[|init| - 1] + [c]]
  }

  /** `strings.Join(parts, "/")`. */
  function JoinParts(parts: seq<string>): string
    decreases |parts|
  {
    if |parts| == 0 then ""
    else if |parts| == 1 then parts[0]
    else JoinParts(parts[..|parts| - 1]) + "/" + parts[|parts| - 1]
  }

  /** `path.Join(a, b)`: empty elements are ignored; the lexical cleaning of `path.Clean` is not modelled. */
  function PathJoin(a: string, b: string): (r: string)
    ensures a != "" && b != "" ==> Split(r) == Split(a) + Split(b)
  {
    if a == "" then b else if b == "" then a else
      SplitConcat(a, b);
      a + "/" + b
  }

  /** Splitting at an added slash splits each side. */
  lemma {:induction false} SplitConcat(a: string, b: string)
    ensures Split(a + "/" + b) == Split(a) + Split(b)
    decreases |b|
  {
    if |b| == 0 {
      SplitSlash(a);
      assert a + "/" + b == a + "/";
    } else {
      var b' := b[..|b| - 1];
      var c := b[|b| - 1];
      var x := a + "/" + b';
      SplitConcat(a, b');
      assert a + "/" + b == x + [c];
      assert b == b' + [c];
      if c == '/' {
        SplitSlash(x);
        SplitSlash(b');
      } else {
        SplitChar(x, c);
        SplitChar(b', c);
        ExtendLastConcat(Split(a), Split(b'), c);
      }
    }
  }

  /** The parts with `c` appended to the last one. */
  function ExtendLast(parts: seq<string>, c: char): seq<string>
    requires |parts| >= 1
  {
    parts[..|parts| - 1] + [parts[|parts| - 1] + [c]]
  }

  lemma ExtendLastConcat(p: seq<string>, q: seq<string>, c: char)
    requires |q| >= 1
    ensures ExtendLast(p + q, c) == p + ExtendLast(q, c)
  {
    assert (p + q)[..|p + q| - 1] == p + q[..|q| - 1];
  }

  /** A trailing slash adds an empty part. */
  lemma SplitSlash(a: string)
    ensures Split(a + "/") == Split(a) + [""]
  {
    assert (a + "/")[..|a|] == a;
  }

  /** Any other character extends the last part. */
  lemma SplitChar(s: string, c: char)
    requires c != '/'
    ensures Split(s + [c]) == ExtendLast(Split(s), c)
  {
    assert (s + [c])[..|s|] == s;
  }

  /** A string without a slash is a single part. */
  lemma {:induction false} SplitNoSlash(s: string)
    requires '/' !in s
    ensures Split(s) == [s]
    decreases |s|
  {
    if |s| > 0 {
      assert '/' !in s[..|s| - 1];
      SplitNoSlash(s[..|s| - 1]);
      assert s[..|s| - 1] + [s[|s| - 1]] == s;
    }
  }

  /** Joining the parts of a split gives back the string. */
  lemma {:induction false} JoinSplit(s: string)
    ensures JoinParts(Split(s)) == s
    decreases |s|
  {
    if |s| > 0 {
      var init := Split(s[..|s| - 1]);
      var c := s[|s| - 1];
      JoinSplit(s[..|s| - 1]);
      if c == '/' {
        assert (init + [""])[..|init|] == init;
      } else {
        JoinLast(init, c);
      }
      assert s[..|s| - 1] + [c] == s;
    }
  }

  /** Appending a character to the last part appends it to the joined string. */
  lemma JoinLast(parts: seq<string>, c: char)
    requires |parts| >= 1
    ensures JoinParts(parts[..|parts| - 1] + [parts[|parts| - 1] + [c]]) == JoinParts(parts) + [c]
  {
    var q := parts[..|parts| - 1] + [parts[|parts| - 1] + [c]];
    assert q[..|q| - 1] == parts[..|parts| - 1];
  }

  /** Splitting a join of slash-free parts gives back the parts. */
  lemma {:induction false} SplitJoin(parts: seq<string>)
    requires |parts| >= 1
    requires forall i :: 0 <= i < |parts| ==> '/' !in parts[i]
    ensures Split(JoinParts(parts)) == parts
    decreases |parts|
  {
    if |parts| == 1 {
      SplitNoSlash(parts[0]);
    } else {
      var init := parts[..|parts| - 1];
      SplitJoin(init);
      SplitConcat(JoinParts(init), parts[|parts| - 1]);
      SplitNoSlash(parts[|parts| - 1]);
    }
  }
}
