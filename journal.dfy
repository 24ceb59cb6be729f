/**
 * The inventory event journal. While at least one watch is registered, every
 * create, update and delete of a model appends a row to the event history
 * table under the next event ID. Each watch keeps a cursor (the ID of the last
 * history row it has seen); when woken it reads the next page of rows after its
 * cursor, moves the cursor across every row of the page, and calls its handler
 * once for each row of its own kind.
 *
 * The history table is a `History` object holding its rows in insertion order;
 * a page query returns the rows after the cursor in that order. The handler is
 * the trace of callbacks it receives. The watch's goroutine is the pair of
 * explicit steps `Wake` (one receive from the queue) and `Finish` (the queue
 * closed and drained); a queued wake is a counter.
 */
module EventJournal {
  import opened Wrappers

  type Kind = string

  /** Event actions. */
  const ActionCreated: int := 0x01
  const ActionUpdated: int := 0x02
  const ActionDeleted: int := 0x04

  /** The number of history rows one page query returns. */
  const PageLimit: nat := 100

  /** A model as the journal sees it: its table name and its JSON encoding. */
  datatype Model = Model(kind: Kind, json: string)

  /** A row of the event history table. */
  datatype EventHistory = EventHistory(id: int, kind: Kind, model: string, action: int, updated: string)

  /** A call made on a watch's event handler. */
  datatype Callback =
    | OnCreated(model: string)
    | OnUpdated(model: string, updated: string)
    | OnDeleted(model: string)
    | OnError(msg: string)
    | OnEnd

  /** `EventHistory.With`: kind and encoding of the model; an absent updated model is empty. */
  function Row(id: int, action: int, model: Model, updated: Option<Model>): (h: EventHistory)
    ensures h.id == id && h.action == action && h.kind == model.kind && h.model == model.json
    ensures h.updated == (if updated.Some? then updated.value.json else "")
  {
    EventHistory(id, model.kind, model.json, action,
                 if updated.Some? then updated.value.json else "")
  }

  /** The handler call for one row of the watched kind, chosen by its action. */
  function Dispatch(h: EventHistory): (c: Callback)
    ensures c.OnCreated? <==> h.action == ActionCreated
    ensures c.OnUpdated? <==> h.action == ActionUpdated
    ensures c.OnDeleted? <==> h.action == ActionDeleted
    ensures c.OnError? <==> h.action !in {ActionCreated, ActionUpdated, ActionDeleted}
    ensures c.OnError? ==> c.msg == "unknown action"
    ensures !c.OnEnd?
  {
    if h.action == ActionCreated then OnCreated(h.model)
    else if h.action == ActionUpdated then OnUpdated(h.model, h.updated)
    else if h.action == ActionDeleted then OnDeleted(h.model)
    else OnError("unknown action")
  }

  /** The calls a page of rows produces for a watch of `kind`, row by row. */
  function Callbacks(kind: Kind, rows: seq<EventHistory>): (r: seq<Callback>)
    ensures |r| <= |rows|
    ensures forall k :: 0 <= k < |r| ==> !r[k].OnEnd?
  {
    if |rows| == 0 then []
    else Callbacks(kind, rows[..|rows| - 1]) + Emit(kind, rows[|rows| - 1])
  }

  /** The call one row produces: a dispatch when the row is of the watched kind, else none. */
  function Emit(kind: Kind, row: EventHistory): (r: seq<Callback>)
    ensures |r| == (if row.kind == kind then 1 else 0)
    ensures forall k :: 0 <= k < |r| ==> !r[k].OnEnd?
  {
    if row.kind == kind then [Dispatch(row)] else []
  }

  /** The rows of `kind`, in order. */
  function OfKind(kind: Kind, rows: seq<EventHistory>): (r: seq<EventHistory>)
    ensures |r| <= |rows|
    ensures forall h :: h in r ==> h in rows && h.kind == kind
  {
    if |rows| == 0 then []
    else (if rows[0].kind == kind then [rows[0]] else []) + OfKind(kind, rows[1..])
  }

  /** Callbacks of concatenated pages are the concatenated callbacks. */
  lemma {:induction false} CallbacksAppend(kind: Kind, a: seq<EventHistory>, b: seq<EventHistory>)
    ensures Callbacks(kind, a + b) == Callbacks(kind, a) + Callbacks(kind, b)
    decreases |b|
  {
    if |b| > 0 {
      var ab := a + b;
      var init := b[..|b| - 1];
      var x := b[|b| - 1];
      assert ab[..|ab| - 1] == a + init;
      assert ab[|ab| - 1] == x;
      CallbacksAppend(kind, a, init);
      assert Callbacks(kind, ab) == Callbacks(kind, a + init) + Emit(kind, x);
      assert Callbacks(kind, b) == Callbacks(kind, init) + Emit(kind, x);
    } else {
      assert a + b == a;
    }
  }

  /** Calls dispatched row by row stay so with one more row in front. */
  lemma DispatchCons(x: EventHistory, cbs: seq<Callback>, hs: seq<EventHistory>)
    requires |cbs| == |hs| && forall i :: 0 <= i < |hs| ==> cbs[i] == Dispatch(hs[i])
    ensures forall i :: 0 <= i < |hs| + 1 ==> ([Dispatch(x)] + cbs)[i] == Dispatch(([x] + hs)[i])
  {
    forall i | 0 <= i < |hs| + 1
      ensures ([Dispatch(x)] + cbs)[i] == Dispatch(([x] + hs)[i])
    {
      if i > 0 {
        assert ([Dispatch(x)] + cbs)[i] == cbs[i - 1] && ([x] + hs)[i] == hs[i - 1];
      }
    }
  }

  /** Exactly one call per row of the watched kind, in row order, and none for other kinds. */
  lemma {:induction false} CallbacksPerRow(kind: Kind, rows: seq<EventHistory>)
    ensures var ok := OfKind(kind, rows);
      |Callbacks(kind, rows)| == |ok| &&
      forall i :: 0 <= i < |ok| ==> Callbacks(kind, rows)[i] == Dispatch(ok[i])
  {
    if |rows| > 0 {
      var tail := rows[1..];
      CallbacksPerRow(kind, tail);
      CallbacksAppend(kind, [rows[0]], tail);
      assert [rows[0]] + tail == rows;
      assert Callbacks(kind, [rows[0]]) == Emit(kind, rows[0]) by {
        assert [rows[0]][..0] == [];
      }
      var cb := Callbacks(kind, rows);
      var ok := OfKind(kind, rows);
      assert cb == Emit(kind, rows[0]) + Callbacks(kind, tail);
      if rows[0].kind == kind {
        assert ok == [rows[0]] + OfKind(kind, tail);
        DispatchCons(rows[0], Callbacks(kind, tail), OfKind(kind, tail));
      } else {
        assert ok == OfKind(kind, tail);
      }
    }
  }

  /** The rows after the cursor `c`, in order. */
  function After(rows: seq<EventHistory>, c: int): (r: seq<EventHistory>)
    ensures |r| <= |rows|
  {
    if |rows| == 0 then []
    else (if rows[0].id > c then [rows[0]] else []) + After(rows[1..], c)
  }

  /** Every row returned lies after the cursor and comes from the history. */
  lemma {:induction false} AfterMember(rows: seq<EventHistory>, c: int, i: nat)
    requires i < |After(rows, c)|
    ensures After(rows, c)[i] in rows && After(rows, c)[i].id > c
  {
    if rows[0].id > c && i == 0 {
    } else {
      var j := if rows[0].id > c then i - 1 else i;
      assert After(rows, c)[i] == After(rows[1..], c)[j];
      AfterMember(rows[1..], c, j);
    }
  }

  /** The page a watch with cursor `c` reads: the first rows after the cursor, at most a page full. */
  function NextPage(rows: seq<EventHistory>, c: int): (r: seq<EventHistory>)
    ensures |r| <= PageLimit && |r| <= |After(rows, c)|
    ensures r == After(rows, c)[..|r|]
    ensures |r| < PageLimit ==> r == After(rows, c)
  {
    var a := After(rows, c);
    if |a| <= PageLimit then a else a[..PageLimit]
  }

  /** Row IDs strictly increase in insertion order. */
  ghost predicate Increasing(rows: seq<EventHistory>) {
    forall i, j :: 0 <= i < j < |rows| ==> rows[i].id < rows[j].id
  }

  /** Rows that all lie after the cursor are all returned. */
  lemma {:induction false} AfterAll(rows: seq<EventHistory>, c: int)
    requires forall i :: 0 <= i < |rows| ==> rows[i].id > c
    ensures After(rows, c) == rows
  {
    if |rows| > 0 {
      AfterAll(rows[1..], c);
    }
  }

  /**
   * Moving the cursor to the `k`-th row after `c` leaves exactly the rows that
   * followed it: no row is skipped and none is seen twice.
   */
  lemma {:induction false} AfterAdvance(rows: seq<EventHistory>, c: int, k: nat)
    requires Increasing(rows)
    requires k < |After(rows, c)|
    ensures After(rows, After(rows, c)[k].id) == After(rows, c)[k + 1..]
  {
    var rest := rows[1..];
    var a := After(rows, c);
    var h := a[k];
    if rows[0].id > c && k == 0 {
      AdvanceFirst(rows, c);
    } else {
      IncreasingRest(rows);
      if rows[0].id > c {
        var t := After(rest, c);
        assert a == [rows[0]] + t;
        assert h == t[k - 1];
        AfterMember(rest, c, k - 1);
        InTailAbove(rows, h);
        AfterAdvance(rest, c, k - 1);
        AfterSkipHead(rows, h.id);
        assert a[k + 1..] == t[k..];
      } else {
        assert a == After(rest, c);
        AfterMember(rows, c, k);
        AfterAdvance(rest, c, k);
        AfterSkipHead(rows, h.id);
      }
    }
  }

  /** Advancing to a returned head row leaves the rest of the history, which is exactly what followed it. */
  lemma AdvanceFirst(rows: seq<EventHistory>, c: int)
    requires Increasing(rows) && |rows| > 0 && rows[0].id > c
    ensures After(rows, c)[0] == rows[0]
    ensures After(rows, rows[0].id) == After(rows, c)[1..]
  {
    var rest := rows[1..];
    IncreasingTail(rows);
    AfterAll(rest, rows[0].id);
    AfterAll(rest, c);
    AfterSkipHead(rows, rows[0].id);
    assert After(rows, c) == [rows[0]] + rest;
  }

  /** The tail of an increasing history is increasing. */
  lemma IncreasingRest(rows: seq<EventHistory>)
    requires Increasing(rows) && |rows| > 0
    ensures Increasing(rows[1..])
  {
  }

  /** A head row at or below the cursor is not returned. */
  lemma AfterSkipHead(rows: seq<EventHistory>, d: int)
    requires |rows| > 0 && rows[0].id <= d
    ensures After(rows, d) == After(rows[1..], d)
  {
  }

  /** The tail of an increasing history is increasing and lies above its head. */
  lemma IncreasingTail(rows: seq<EventHistory>)
    requires Increasing(rows) && |rows| > 0
    ensures Increasing(rows[1..])
    ensures forall i :: 0 <= i < |rows| - 1 ==> rows[1..][i].id > rows[0].id
  {
  }

  /** A row of the tail lies above the head. */
  lemma InTailAbove(rows: seq<EventHistory>, h: EventHistory)
    requires Increasing(rows) && |rows| > 0 && h in rows[1..]
    ensures h.id > rows[0].id
  {
    var i :| 0 <= i < |rows[1..]| && rows[1..][i] == h;
    assert rows[i + 1] == h;
  }

  /** After a non-empty page, the next page starts right behind it. */
  lemma PageContinues(rows: seq<EventHistory>, c: int)
    requires Increasing(rows)
    requires |NextPage(rows, c)| > 0
    ensures var page := NextPage(rows, c);
      After(rows, page[|page| - 1].id) == After(rows, c)[|page|..]
  {
    AfterAdvance(rows, c, |NextPage(rows, c)| - 1);
  }

  /** The event history table. */
  class History {
    var rows: seq<EventHistory>

    constructor ()
      ensures rows == []
    {
      rows := [];
    }
  }

  /** A watch on the models of one kind. */
  class Watch {
    /** Table name of the watched model. */
    const kind: Kind
    /** ID of the last history row this watch has seen. */
    var eventID: int
    var started: bool
    /** Whether the event queue is still open. */
    var queueOpen: bool
    /** Wakes queued and not yet received. */
    var pending: nat
    /** Whether the handler has been told the watch ended. */
    var ended: bool
    /** Calls received by the handler, oldest first. */
    var trace: seq<Callback>

    constructor (kind: Kind, eventID: int)
      ensures this.kind == kind && this.eventID == eventID
      ensures !started && queueOpen && pending == 0 && !ended && trace == []
    {
      this.kind := kind;
      this.eventID := eventID;
      started, queueOpen, pending, ended, trace := false, true, 0, false, [];
    }

    /** `Match`: whether the watch is on models of `kind`. */
    function Match(kind: Kind): (r: bool)
    {
      this.kind == kind
    }

    /** `notify`: queues one wake; on a closed queue the send panics and the panic is recovered. */
    method Notify()
      modifies this
      ensures pending == old(pending) + (if queueOpen then 1 else 0)
      ensures queueOpen == old(queueOpen) && eventID == old(eventID) && started == old(started)
      ensures ended == old(ended) && trace == old(trace)
    {
      if queueOpen {
        pending := pending + 1;
      }
    }

    /**
     * `Start`: a started watch is left alone. Otherwise the snapshot of existing
     * models is delivered as created events, and the watch is marked started.
     */
    method Start(snapshot: seq<string>)
      modifies this
      ensures started
      ensures old(started) ==> trace == old(trace)
      ensures !old(started) ==> trace == old(trace) + seq(|snapshot|, i requires 0 <= i < |snapshot| => OnCreated(snapshot[i]))
      ensures eventID == old(eventID) && pending == old(pending) && queueOpen == old(queueOpen)
      ensures ended == old(ended)
    {
      if started {
        return;
      }
      var i := 0;
      while i < |snapshot|
        invariant 0 <= i <= |snapshot|
        invariant trace == old(trace) + seq(i, j requires 0 <= j < i => OnCreated(snapshot[j]))
        invariant !started && eventID == old(eventID) && pending == old(pending)
        invariant queueOpen == old(queueOpen) && ended == old(ended)
      {
        trace := trace + [OnCreated(snapshot[i])];
        i := i + 1;
      }
      started := true;
    }

    /**
     * One receive of the run loop: read the page after the cursor, or report the
     * query's failure. Every row of the page moves the cursor; only rows of the
     * watched kind reach the handler.
     */
    method Wake(h: History, failure: Option<string>)
      requires started && pending > 0
      modifies this
      ensures pending == old(pending) - 1
      ensures failure.Some? ==> eventID == old(eventID) && trace == old(trace) + [OnError(failure.value)]
      ensures failure.None? ==>
        var page := NextPage(h.rows, old(eventID));
        trace == old(trace) + Callbacks(kind, page) &&
        eventID == (if |page| == 0 then old(eventID) else page[|page| - 1].id)
      ensures started && queueOpen == old(queueOpen) && ended == old(ended)
    {
      pending := pending - 1;
      if failure.Some? {
        trace := trace + [OnError(failure.value)];
        return;
      }
      var page := NextPage(h.rows, eventID);
      Consume(page);
    }

    /** The loop over one page: every row moves the cursor, rows of the watched kind are dispatched. */
    method Consume(page: seq<EventHistory>)
      modifies this`trace, this`eventID
      ensures trace == old(trace) + Callbacks(kind, page)
      ensures eventID == if |page| == 0 then old(eventID) else page[|page| - 1].id
    {
      var i := 0;
      while i < |page|
        invariant 0 <= i <= |page|
        invariant trace == old(trace) + Callbacks(kind, page[..i])
        invariant eventID == if i == 0 then old(eventID) else page[i - 1].id
      {
        var row := page[i];
        assert Callbacks(kind, page[..i + 1]) == Callbacks(kind, page[..i]) + Emit(kind, row) by {
          assert page[..i + 1][..i] == page[..i];
        }
        eventID := row.id;
        if Match(row.kind) {
          trace := trace + [Dispatch(row)];
        }
        i := i + 1;
      }
      assert page[..i] == page;
    }

    /** The queue is closed and drained: the run loop exits and the handler is told. */
    method Finish()
      requires started && !queueOpen && pending == 0 && !ended
      modifies this
      ensures ended && trace == old(trace) + [OnEnd]
      ensures eventID == old(eventID) && pending == 0 && !queueOpen && started
    {
      ended := true;
      trace := trace + [OnEnd];
    }

    /** `End`: closes the queue; closing a closed queue panics. */
    method End() returns (panicked: bool)
      modifies this
      ensures panicked <==> !old(queueOpen)
      ensures !queueOpen
      ensures eventID == old(eventID) && pending == old(pending) && started == old(started)
      ensures ended == old(ended) && trace == old(trace)
    {
      panicked := !queueOpen;
      queueOpen := false;
    }
  }

  /** `watchList` without the entries identical to `w`, in order. */
  function Without(list: seq<Watch>, w: Watch): (r: seq<Watch>)
    ensures w !in r
    ensures |r| <= |list|
    ensures forall i :: 0 <= i < |r| ==> r[i] in list
  {
    if |list| == 0 then []
    else Without(list[..|list| - 1], w) + (if list[|list| - 1] != w then [list[|list| - 1]] else [])
  }

  /** Exactly the watches other than `w` are kept. */
  lemma {:induction false} WithoutMembers(list: seq<Watch>, w: Watch, x: Watch)
    ensures x in Without(list, w) <==> x in list && x != w
  {
    if |list| > 0 {
      WithoutMembers(list[..|list| - 1], w, x);
      assert list == list[..|list| - 1] + [list[|list| - 1]];
    }
  }

  /** Removing an absent watch changes nothing. */
  lemma {:induction false} WithoutAbsent(list: seq<Watch>, w: Watch)
    requires w !in list
    ensures Without(list, w) == list
  {
    if |list| > 0 {
      WithoutAbsent(list[..|list| - 1], w);
      assert list[..|list| - 1] + [list[|list| - 1]] == list;
    }
  }

  /** Removing keeps the other watches in their relative order: it distributes over concatenation. */
  lemma {:induction false} WithoutAppend(a: seq<Watch>, b: seq<Watch>, w: Watch)
    ensures Without(a + b, w) == Without(a, w) + Without(b, w)
    decreases |b|
  {
    if |b| > 0 {
      var ab := a + b;
      assert ab[..|ab| - 1] == a + b[..|b| - 1];
      assert ab[|ab| - 1] == b[|b| - 1];
      WithoutAppend(a, b[..|b| - 1], w);
    } else {
      assert a + b == a;
    }
  }

  /** The watch registry. */
  class Journal {
    var watchList: seq<Watch>
    /** ID of the last history row written. */
    var eventID: int

    /** Watches are registered once each. */
    ghost predicate Valid()
      reads this
    {
      forall i, j :: 0 <= i < j < |watchList| ==> watchList[i] != watchList[j]
    }

    /** History rows were written in ID order, and none is above the counter. */
    ghost predicate Consistent(h: History)
      reads this, h
    {
      Increasing(h.rows) && forall i :: 0 <= i < |h.rows| ==> h.rows[i].id <= eventID
    }

    constructor ()
      ensures watchList == [] && eventID == 0 && Valid()
    {
      watchList, eventID := [], 0;
    }

    /** `Watch`: registers a new, unstarted watch whose cursor is the current event ID. */
    method Watch(kind: Kind) returns (w: Watch)
      requires Valid()
      modifies this
      ensures Valid()
      ensures fresh(w) && watchList == old(watchList) + [w]
      ensures w.kind == kind && w.eventID == eventID && !w.started && w.queueOpen
      ensures w.pending == 0 && !w.ended && w.trace == []
      ensures eventID == old(eventID)
    {
      w := new Watch(kind, eventID);
      watchList := watchList + [w];
    }

    /**
     * `End`: drops every registered entry identical to `watch` and ends it.
     * Ending a watch whose queue is already closed panics before the list is
     * replaced.
     */
    method End(watch: Watch) returns (panicked: bool)
      requires Valid()
      modifies this, watch
      ensures Valid()
      ensures eventID == old(eventID)
      ensures panicked ==> watch in old(watchList) && !old(watch.queueOpen) && watchList == old(watchList)
      ensures !panicked ==> watchList == Without(old(watchList), watch)
      ensures watch in old(watchList) ==> !watch.queueOpen
      ensures watch !in old(watchList) ==> watchList == old(watchList) && watch.queueOpen == old(watch.queueOpen)
      ensures watch.pending == old(watch.pending) && watch.trace == old(watch.trace)
      ensures watch.eventID == old(watch.eventID) && watch.started == old(watch.started)
      ensures watch.ended == old(watch.ended)
    {
      var kept: seq<Watch> := [];
      var i := 0;
      while i < |watchList|
        invariant 0 <= i <= |watchList|
        invariant kept == Without(watchList[..i], watch)
        invariant watchList == old(watchList) && eventID == old(eventID)
        invariant watch in watchList[..i] ==> !watch.queueOpen
        invariant watch !in watchList[..i] ==> watch.queueOpen == old(watch.queueOpen)
        invariant watch.pending == old(watch.pending) && watch.trace == old(watch.trace)
        invariant watch.eventID == old(watch.eventID) && watch.started == old(watch.started)
        invariant watch.ended == old(watch.ended)
      {
        var w := watchList[i];
        assert watchList[..i + 1][..i] == watchList[..i];
        if w != watch {
          kept := kept + [w];
          i := i + 1;
          continue;
        }
        var p := w.End();
        if p {
          return true;
        }
        i := i + 1;
      }
      assert watchList[..i] == watchList;
      if watch !in watchList {
        WithoutAbsent(watchList, watch);
      }
      WithoutKeepsDistinct(watchList, watch);
      watchList := kept;
      panicked := false;
    }

    /** Appends one history row under the next event ID when any watch is registered. */
    method Record(h: History, action: int, model: Model, updated: Option<Model>, inserted: bool)
      requires Consistent(h)
      modifies this, h
      ensures Consistent(h)
      ensures watchList == old(watchList)
      ensures |watchList| == 0 ==> eventID == old(eventID) && h.rows == old(h.rows)
      ensures |watchList| > 0 ==> eventID == old(eventID) + 1
      ensures |watchList| > 0 && inserted ==> h.rows == old(h.rows) + [Row(eventID, action, model, updated)]
      ensures |watchList| > 0 && !inserted ==> h.rows == old(h.rows)
    {
      if |watchList| == 0 {
        return;
      }
      eventID := eventID + 1;
      if inserted {
        h.rows := h.rows + [Row(eventID, action, model, updated)];
      }
    }

    /** `Created`: journals the creation of `model`; `inserted` is the outcome of the row insert. */
    method Created(h: History, model: Model, inserted: bool)
      requires Consistent(h)
      modifies this, h
      ensures Consistent(h)
      ensures watchList == old(watchList)
      ensures |watchList| == 0 ==> eventID == old(eventID) && h.rows == old(h.rows)
      ensures |watchList| > 0 ==> eventID == old(eventID) + 1
      ensures |watchList| > 0 && inserted ==> h.rows == old(h.rows) + [Row(eventID, ActionCreated, model, None)]
      ensures |watchList| > 0 && !inserted ==> h.rows == old(h.rows)
    {
      Record(h, ActionCreated, model, None, inserted);
    }

    /** `Updated`: journals the update of `model` to `updated`. */
    method Updated(h: History, model: Model, updated: Model, inserted: bool)
      requires Consistent(h)
      modifies this, h
      ensures Consistent(h)
      ensures watchList == old(watchList)
      ensures |watchList| == 0 ==> eventID == old(eventID) && h.rows == old(h.rows)
      ensures |watchList| > 0 ==> eventID == old(eventID) + 1
      ensures |watchList| > 0 && inserted ==> h.rows == old(h.rows) + [Row(eventID, ActionUpdated, model, Some(updated))]
      ensures |watchList| > 0 && !inserted ==> h.rows == old(h.rows)
    {
      Record(h, ActionUpdated, model, Some(updated), inserted);
    }

    /** `Deleted`: journals the deletion of `model`. */
    method Deleted(h: History, model: Model, inserted: bool)
      requires Consistent(h)
      modifies this, h
      ensures Consistent(h)
      ensures watchList == old(watchList)
      ensures |watchList| == 0 ==> eventID == old(eventID) && h.rows == old(h.rows)
      ensures |watchList| > 0 ==> eventID == old(eventID) + 1
      ensures |watchList| > 0 && inserted ==> h.rows == old(h.rows) + [Row(eventID, ActionDeleted, model, None)]
      ensures |watchList| > 0 && !inserted ==> h.rows == old(h.rows)
    {
      Record(h, ActionDeleted, model, None, inserted);
    }

    /** `Committed`: notifies every registered watch once. */
    method Committed()
      requires Valid()
      modifies watchList
      ensures forall w :: w in watchList ==>
        w.pending == old(w.pending) + (if w.queueOpen then 1 else 0) &&
        w.queueOpen == old(w.queueOpen) && w.eventID == old(w.eventID) &&
        w.trace == old(w.trace) && w.started == old(w.started) && w.ended == old(w.ended)
    {
      var i := 0;
      while i < |watchList|
        invariant 0 <= i <= |watchList|
        invariant forall j :: 0 <= j < i ==>
          watchList[j].pending == old(watchList[j].pending) + (if watchList[j].queueOpen then 1 else 0)
        invariant forall j :: i <= j < |watchList| ==> watchList[j].pending == old(watchList[j].pending)
        invariant forall w :: w in watchList ==>
          w.queueOpen == old(w.queueOpen) && w.eventID == old(w.eventID) &&
          w.trace == old(w.trace) && w.started == old(w.started) && w.ended == old(w.ended)
      {
        watchList[i].Notify();
        i := i + 1;
      }
    }
  }

  /** Dropping a watch from a list of distinct watches leaves them distinct. */
  lemma WithoutKeepsDistinct(list: seq<Watch>, w: Watch)
    requires forall i, j :: 0 <= i < j < |list| ==> list[i] != list[j]
    ensures forall a, b :: 0 <= a < b < |Without(list, w)| ==> Without(list, w)[a] != Without(list, w)[b]
  {
    forall a, b | 0 <= a < b < |Without(list, w)|
      ensures Without(list, w)[a] != Without(list, w)[b]
    {
      WithoutDistinct(list, w, a, b);
    }
  }

  lemma {:induction false} WithoutDistinct(list: seq<Watch>, w: Watch, a: nat, b: nat)
    requires forall i, j :: 0 <= i < j < |list| ==> list[i] != list[j]
    requires a < b < |Without(list, w)|
    ensures Without(list, w)[a] != Without(list, w)[b]
  {
    if |list| > 0 {
      var init := list[..|list| - 1];
      var last := list[|list| - 1];
      if b < |Without(init, w)| {
        WithoutDistinct(init, w, a, b);
      } else {
        assert Without(list, w)[b] == last;
        assert Without(list, w)[a] in Without(init, w);
        assert Without(list, w)[a] in init;
      }
    }
  }
}
