/**
 * Pagination of the inventory model: `Page.Slice` replaces a collection with the
 * window of at most `Limit` items starting at `Offset`. A negative offset skips
 * nothing; a negative limit places no bound.
 */
module Paging {

  datatype Page = Page(offset: int, limit: int)

  /** Index of the first item of the window: the offset, clamped to the collection. */
  function Start<T>(s: seq<T>, p: Page): (i: nat)
    ensures i <= |s|
    ensures p.offset <= 0 ==> i == 0
    ensures 0 <= p.offset <= |s| ==> i == p.offset
    ensures p.offset >= |s| ==> i == |s|
  {
    if p.offset < 0 then 0 else if p.offset > |s| then |s| else p.offset
  }

  /** The window of `s` described by `p`. */
  function PageOf<T>(s: seq<T>, p: Page): (r: seq<T>)
    ensures Start(s, p) + |r| <= |s|
    ensures r == s[Start(s, p)..Start(s, p) + |r|]
    ensures 0 <= p.limit ==> |r| == if p.limit < |s| - Start(s, p) then p.limit else |s| - Start(s, p)
    ensures p.limit < 0 ==> Start(s, p) + |r| == |s|
  {
    var rest := s[Start(s, p)..];
    if 0 <= p.limit < |rest| then rest[..p.limit] else rest
  }

  /** A page and everything after it make up everything from the page's offset on. */
  lemma PagesTile<T>(s: seq<T>, offset: nat, limit: nat)
    ensures PageOf(s, Page(offset, limit)) + PageOf(s, Page(offset + limit, -1))
         == PageOf(s, Page(offset, -1))
  {
    var a := PageOf(s, Page(offset, limit));
    var b := PageOf(s, Page(offset + limit, -1));
    var c := PageOf(s, Page(offset, -1));
    if offset + limit <= |s| {
      assert a == s[offset..offset + limit];
      assert b == s[offset + limit..];
    } else {
      assert b == [];
    }
  }

  /** The window grows one item at a time as the prefix of the collection grows. */
  lemma {:induction false} PageOfPrefixStep<T>(s: seq<T>, p: Page, i: nat)
    requires i < |s|
    requires i >= p.offset ==> |PageOf(s[..i], p)| != p.limit
    ensures PageOf(s[..i + 1], p) ==
      if i < p.offset then PageOf(s[..i], p) else PageOf(s[..i], p) + [s[i]]
  {
    var u := s[..i];
    var v := s[..i + 1];
    if i >= p.offset {
      assert Start(v, p) == Start(u, p);
      assert v[Start(v, p)..] == u[Start(u, p)..] + [s[i]];
    }
  }

  /** Once the window is full, further items leave it unchanged. */
  lemma {:induction false} PageOfFull<T>(s: seq<T>, p: Page, i: nat)
    requires i <= |s|
    requires |PageOf(s[..i], p)| == p.limit
    ensures PageOf(s, p) == PageOf(s[..i], p)
  {
    var u := s[..i];
    if p.limit > 0 {
      assert Start(u, p) == Start(s, p);
      assert u[Start(u, p)..Start(u, p) + p.limit] == s[Start(s, p)..Start(s, p) + p.limit];
    }
  }

  /** A variable holding a slice, reached through a pointer. */
  class SliceVar<T> {
    var items: seq<T>

    constructor (items: seq<T>)
      ensures this.items == items
    {
      this.items := items;
    }
  }

  /** The argument of `Slice`: a pointer to a slice, a pointer to something else, or no pointer. */
  datatype Collection<T> = SlicePtr(v: SliceVar<T>) | OtherPtr | NotPtr

  /** `Page.Slice`: replaces the pointed-to slice with its window; other arguments are left alone. */
  method Slice<T>(p: Page, collection: Collection<T>)
    modifies if collection.SlicePtr? then {collection.v} else {}
    ensures collection.SlicePtr? ==> collection.v.items == PageOf(old(collection.v.items), p)
  {
    if !collection.SlicePtr? {
      return;
    }
    var v := collection.v.items;
    var sliced: seq<T> := [];
    var i := 0;
    while i < |v|
      invariant 0 <= i <= |v|
      invariant sliced == PageOf(v[..i], p)
    {
      if i < p.offset {
        PageOfPrefixStep(v, p, i);
        i := i + 1;
        continue;
      }
      if |sliced| == p.limit {
        break;
      }
      PageOfPrefixStep(v, p, i);
      sliced := sliced + [v[i]];
      i := i + 1;
    }
    if i < |v| {
      PageOfFull(v, p, i);
    } else {
      assert v[..i] == v;
    }
    collection.v.items := sliced;
  }

  /** Slicing with offset 2 and limit 3 keeps the third to fifth items. */
  lemma SliceExample()
    ensures PageOf([10, 11, 12, 13, 14, 15], Page(2, 3)) == [12, 13, 14]
    ensures PageOf([10, 11, 12], Page(-1, -1)) == [10, 11, 12]
    ensures PageOf([10, 11, 12], Page(5, 2)) == []
  {
  }
}
