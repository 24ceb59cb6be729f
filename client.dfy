/**
 * The inventory database client. Writes go straight to the database, each
 * under the store-wide write lock, unless a transaction is open: `Begin` takes
 * the write lock and keeps it until the transaction is committed or ended.
 * Every write keeps the label side table in step with the model (inserting a
 * model inserts its labels; updating replaces them, deleting and re-inserting;
 * deleting removes them) and records a journal entry, which is flushed at once
 * outside a transaction and on commit inside one.
 *
 * Tables are maps keyed by (kind, primary key); the label table is a sequence
 * of rows in insertion order. The outcome of each database call is a parameter
 * (a `Faults` value for the writes, a flag for begin, commit, rollback and
 * close). A write that must take the write lock while it is already held waits
 * forever; that outcome is `Deadlock`.
 */
module InventoryClient {
  import opened Wrappers

  datatype Key = Key(kind: string, pk: string)

  /** A model: table name, primary key, stored fields, and its labels if it is `Labeled`. */
  datatype Model = Model(kind: string, pk: string, body: string, labels: Option<seq<(string, string)>>)

  function KeyOf(m: Model): Key {
    Key(m.kind, m.pk)
  }

  /** A row of the label table. */
  datatype Label = Label(parent: string, kind: string, name: string, value: string)

  /** Whether a label row belongs to the model with key `k`. */
  predicate OwnedBy(l: Label, k: Key) {
    l.kind == k.kind && l.parent == k.pk
  }

  /** The label rows `insertLabels` writes for a model: one per label, none if it has no labels. */
  function LabelsOf(m: Model): (r: seq<Label>)
    ensures m.labels.None? ==> r == []
    ensures m.labels.Some? ==> |r| == |m.labels.value|
    ensures forall i :: 0 <= i < |r| ==> OwnedBy(r[i], KeyOf(m))
    ensures m.labels.Some? ==> forall i :: 0 <= i < |r| ==>
      r[i].name == m.labels.value[i].0 && r[i].value == m.labels.value[i].1
  {
    match m.labels
    case None => []
    case Some(ls) => seq(|ls|, i requires 0 <= i < |ls| => Label(m.pk, m.kind, ls[i].0, ls[i].1))
  }

  /** The label rows of the model with key `k`, in table order. */
  function Owned(ls: seq<Label>, k: Key): (r: seq<Label>)
    ensures |r| <= |ls|
    ensures forall i :: 0 <= i < |r| ==> OwnedBy(r[i], k) && r[i] in ls
  {
    if |ls| == 0 then []
    else (if OwnedBy(ls[0], k) then [ls[0]] else []) + Owned(ls[1..], k)
  }

  /** The label rows of all other models, in table order. */
  function Others(ls: seq<Label>, k: Key): (r: seq<Label>)
    ensures |r| <= |ls|
    ensures forall i :: 0 <= i < |r| ==> !OwnedBy(r[i], k) && r[i] in ls
  {
    if |ls| == 0 then []
    else (if OwnedBy(ls[0], k) then [] else [ls[0]]) + Others(ls[1..], k)
  }

  /** The table after deleting every row equal to one of `d`. */
  function Remove(ls: seq<Label>, d: seq<Label>): (r: seq<Label>)
    ensures |r| <= |ls|
    ensures forall i :: 0 <= i < |r| ==> r[i] !in d && r[i] in ls
  {
    if |ls| == 0 then []
    else (if ls[0] in d then [] else [ls[0]]) + Remove(ls[1..], d)
  }

  /** The membership of `Owned`: exactly the table's rows of `k`. */
  lemma {:induction false} OwnedMembers(ls: seq<Label>, k: Key, l: Label)
    ensures l in Owned(ls, k) <==> l in ls && OwnedBy(l, k)
  {
    if |ls| > 0 {
      OwnedMembers(ls[1..], k, l);
      assert ls == [ls[0]] + ls[1..];
    }
  }

  lemma {:induction false} OwnedAppend(a: seq<Label>, b: seq<Label>, k: Key)
    ensures Owned(a + b, k) == Owned(a, k) + Owned(b, k)
  {
    if |a| == 0 {
      assert a + b == b;
    } else {
      assert (a + b)[1..] == a[1..] + b;
      OwnedAppend(a[1..], b, k);
    }
  }

  lemma {:induction false} OthersAppend(a: seq<Label>, b: seq<Label>, k: Key)
    ensures Others(a + b, k) == Others(a, k) + Others(b, k)
  {
    if |a| == 0 {
      assert a + b == b;
    } else {
      assert (a + b)[1..] == a[1..] + b;
      OthersAppend(a[1..], b, k);
    }
  }

  /** A table of nothing but rows of `k` is all owned and has no other rows. */
  lemma {:induction false} AllOwned(ls: seq<Label>, k: Key)
    requires forall i :: 0 <= i < |ls| ==> OwnedBy(ls[i], k)
    ensures Owned(ls, k) == ls && Others(ls, k) == []
  {
    if |ls| > 0 {
      AllOwned(ls[1..], k);
    }
  }

  /** The other models' rows include none of `k`. */
  lemma {:induction false} OwnedOfOthers(ls: seq<Label>, k: Key)
    ensures Owned(Others(ls, k), k) == []
  {
    if |ls| > 0 {
      OwnedOfOthers(ls[1..], k);
      var head := if OwnedBy(ls[0], k) then [] else [ls[0]];
      OwnedAppend(head, Others(ls[1..], k), k);
      assert Owned(head, k) == [] by {
        if !OwnedBy(ls[0], k) {
          assert [ls[0]][1..] == [];
        }
      }
    }
  }

  /** Deleting one more row extends the deleted list. */
  lemma {:induction false} RemoveStep(ls: seq<Label>, d: seq<Label>, x: Label)
    ensures Remove(Remove(ls, d), [x]) == Remove(ls, d + [x])
  {
    if |ls| > 0 {
      RemoveStep(ls[1..], d, x);
      var head := if ls[0] in d then [] else [ls[0]];
      assert Remove(ls, d) == head + Remove(ls[1..], d);
      RemoveAppend(head, Remove(ls[1..], d), [x]);
      if ls[0] !in d {
        assert [ls[0]][1..] == [];
      }
    }
  }

  lemma {:induction false} RemoveAppend(a: seq<Label>, b: seq<Label>, d: seq<Label>)
    ensures Remove(a + b, d) == Remove(a, d) + Remove(b, d)
  {
    if |a| == 0 {
      assert a + b == b;
    } else {
      assert (a + b)[1..] == a[1..] + b;
      RemoveAppend(a[1..], b, d);
    }
  }

  /** Deleting the listed rows of `k` leaves exactly the other models' rows. */
  lemma {:induction false} RemoveOwnedIsOthers(ls: seq<Label>, d: seq<Label>, k: Key)
    requires forall l :: l in ls ==> (l in d <==> OwnedBy(l, k))
    ensures Remove(ls, d) == Others(ls, k)
  {
    if |ls| > 0 {
      assert ls[0] in ls;
      assert forall l :: l in ls[1..] ==> l in ls;
      RemoveOwnedIsOthers(ls[1..], d, k);
    }
  }

  /**
   * Replacing labels, delete-all then insert, leaves exactly the model's labels
   * for its key and every other model's labels as they were.
   */
  lemma ReplaceLabelsExact(ls: seq<Label>, m: Model)
    ensures var after := Remove(ls, Owned(ls, KeyOf(m))) + LabelsOf(m);
      Owned(after, KeyOf(m)) == LabelsOf(m) && Others(after, KeyOf(m)) == Others(ls, KeyOf(m))
  {
    var k := KeyOf(m);
    forall l | l in ls
      ensures l in Owned(ls, k) <==> OwnedBy(l, k)
    {
      OwnedMembers(ls, k, l);
    }
    RemoveOwnedIsOthers(ls, Owned(ls, k), k);
    OwnedAppend(Others(ls, k), LabelsOf(m), k);
    OthersAppend(Others(ls, k), LabelsOf(m), k);
    OwnedOfOthers(ls, k);
    AllOwned(LabelsOf(m), k);
    OthersOfOthers(ls, k);
  }

  /** After deleting a model's labels none of them remain, and the others are untouched. */
  lemma DeleteLabelsExact(ls: seq<Label>, k: Key)
    ensures var after := Remove(ls, Owned(ls, k));
      Owned(after, k) == [] && Others(after, k) == Others(ls, k)
  {
    forall l | l in ls
      ensures l in Owned(ls, k) <==> OwnedBy(l, k)
    {
      OwnedMembers(ls, k, l);
    }
    RemoveOwnedIsOthers(ls, Owned(ls, k), k);
    OwnedOfOthers(ls, k);
    OthersOfOthers(ls, k);
  }

  lemma {:induction false} OthersOfOthers(ls: seq<Label>, k: Key)
    ensures Others(Others(ls, k), k) == Others(ls, k)
  {
    if |ls| > 0 {
      OthersOfOthers(ls[1..], k);
      var head := if OwnedBy(ls[0], k) then [] else [ls[0]];
      OthersAppend(head, Others(ls[1..], k), k);
      if !OwnedBy(ls[0], k) {
        assert [ls[0]][1..] == [];
      }
    }
  }

  /** Deleting rows of `k` only leaves every other model's rows as they were. */
  lemma {:induction false} RemoveOwnedKeepsOthers(ls: seq<Label>, d: seq<Label>, k: Key)
    requires forall i :: 0 <= i < |d| ==> OwnedBy(d[i], k)
    ensures Others(Remove(ls, d), k) == Others(ls, k)
  {
    if |ls| > 0 {
      RemoveOwnedKeepsOthers(ls[1..], d, k);
      var head := if ls[0] in d then [] else [ls[0]];
      OthersAppend(head, Remove(ls[1..], d), k);
      if ls[0] !in d {
        assert [ls[0]][1..] == [];
      }
    }
  }

  /** Appending rows of `k` only leaves every other model's rows as they were. */
  lemma AppendOwnedKeepsOthers(ls: seq<Label>, a: seq<Label>, k: Key)
    requires forall i :: 0 <= i < |a| ==> OwnedBy(a[i], k)
    ensures Others(ls + a, k) == Others(ls, k)
  {
    OthersAppend(ls, a, k);
    AllOwned(a, k);
  }

  /**
   * The label table after `deleteLabels` for `k` under the faults `f`: unchanged
   * if the listing fails, otherwise without the listed rows deleted before the
   * failing delete.
   */
  function DeletedLabels(ls: seq<Label>, k: Key, f: Faults): (r: seq<Label>)
    ensures f.listLabels ==> r == ls
    ensures forall i :: 0 <= i < |r| ==> r[i] in ls
    ensures !f.listLabels && f.deleteLabelAt.None? ==> Owned(r, k) == []
  {
    if f.listLabels then ls
    else
      DeleteLabelsExact(ls, k);
      Remove(ls, Upto(Owned(ls, k), f.deleteLabelAt))
  }

  /** Whatever fails, `deleteLabels` for `k` leaves every other model's rows as they were. */
  lemma DeletedKeepsOthers(ls: seq<Label>, k: Key, f: Faults)
    ensures Others(DeletedLabels(ls, k, f), k) == Others(ls, k)
  {
    if !f.listLabels {
      var d := Upto(Owned(ls, k), f.deleteLabelAt);
      assert forall i :: 0 <= i < |d| ==> d[i] == Owned(ls, k)[i];
      RemoveOwnedKeepsOthers(ls, d, k);
    }
  }

  /** The first `n` of `s`, or all of `s` when it is shorter. */
  function Upto<T>(s: seq<T>, n: Option<nat>): (r: seq<T>)
    ensures n.None? ==> r == s
    ensures |r| <= |s| && r == s[..|r|]
  {
    if n.Some? && n.value < |s| then s[..n.value] else s
  }

  /** Whether a loop over `s` meets the failure placed at `n`. */
  predicate Fails<T>(s: seq<T>, n: Option<nat>) {
    n.Some? && n.value < |s|
  }

  /** A journal entry. */
  datatype Entry = CreatedEntry(m: Model) | UpdatedEntry(current: Model, m: Model) | DeletedEntry(m: Model)

  /** The journal as the client uses it: entries are staged, then flushed or discarded. */
  class JournalLog {
    var staged: seq<Entry>
    var flushed: seq<Entry>

    constructor ()
      ensures staged == [] && flushed == []
    {
      staged, flushed := [], [];
    }

    method Record(e: Entry)
      modifies this
      ensures staged == old(staged) + [e] && flushed == old(flushed)
    {
      staged := staged + [e];
    }

    /** `Commit`: staged entries are published to the watches. */
    method Flush()
      modifies this
      ensures staged == [] && flushed == old(flushed) + old(staged)
    {
      flushed := flushed + staged;
      staged := [];
    }

    /** `Unstage`: staged entries are dropped. */
    method Discard()
      modifies this
      ensures staged == [] && flushed == old(flushed)
    {
      staged := [];
    }
  }

  /** The outcome of one database call made by a write. */
  datatype Faults = Faults(
    table: bool,                  // the insert, update or delete of the model's row fails
    get: bool,                    // the read of the current row fails
    listLabels: bool,             // listing the model's labels fails
    deleteLabelAt: Option<nat>,   // the delete of that label row fails
    insertLabelAt: Option<nat>)   // the insert of that label row fails

  /** Every database call succeeds. */
  const NoFaults := Faults(false, false, false, None, None)

  /** A write's outcome; `Panicked` is a nil-pointer panic inside `database/sql` on a closed client. */
  datatype Outcome = Ok | TxInvalid | Failed(step: string) | Deadlock | Panicked

  class Client {
    var open: bool
    /** Whether the write lock (`dbMutex`) is held. */
    var dbLocked: bool
    /** The open transaction, by the identity of its database transaction. */
    var tx: Option<nat>
    /** The identity the next database transaction gets. */
    var nextRef: nat
    var rows: map<Key, Model>
    var labels: seq<Label>
    /** The tables when the open transaction began, restored when it is rolled back. */
    var baseRows: map<Key, Model>
    var baseLabels: seq<Label>
    const journal: JournalLog

    /** An open transaction holds the write lock and refers to an earlier identity. */
    ghost predicate Valid()
      reads this
    {
      (tx.Some? ==> dbLocked && tx.value < nextRef)
    }

    /**
     * A write has a live database handle: the client is open, or the write
     * goes through the open transaction's own handle. `Close` sets `db` to
     * nil, so a write outside a transaction on a closed client calls into a
     * nil `*sql.DB`.
     */
    predicate HasHandle()
      reads this
    {
      open || tx.Some?
    }

    /** The write lock is held without a transaction: every write outside one would wait forever. */
    predicate Wedged()
      reads this
    {
      tx.None? && dbLocked
    }

    constructor (journal: JournalLog)
      ensures Valid() && !Wedged() && open && !dbLocked && tx.None?
      ensures rows == map[] && labels == [] && this.journal == journal
    {
      this.journal := journal;
      open, dbLocked, tx, nextRef := true, false, None, 0;
      rows, labels, baseRows, baseLabels := map[], [], map[], [];
    }

    /** `Close`: a closed client stays closed; a failed close keeps it open. */
    method Close(closeOk: bool) returns (r: Outcome)
      modifies this`open
      ensures !old(open) ==> r == Ok && !open
      ensures old(open) && !closeOk ==> r.Failed? && open
      ensures old(open) && closeOk ==> r == Ok && !open
    {
      if !open {
        return Ok;
      }
      if !closeOk {
        return Failed("close");
      }
      open := false;
      r := Ok;
    }

    /**
     * `Begin` as written: the write lock is taken before the database
     * transaction is begun and is not released when that fails, nor when
     * beginning on a closed client's nil handle panics.
     */
    method Begin(beginOk: bool) returns (ref: Option<nat>, r: Outcome)
      requires Valid()
      modifies this`dbLocked, this`tx, this`nextRef, this`baseRows, this`baseLabels
      ensures Valid()
      ensures old(dbLocked) ==> r == Deadlock && ref.None? && tx == old(tx) && dbLocked
      ensures !old(dbLocked) && !open ==> r == Panicked && ref.None? && tx.None? && dbLocked
      ensures !old(dbLocked) && open && !beginOk ==> r.Failed? && ref.None? && tx.None? && dbLocked
      ensures !old(dbLocked) && open && beginOk ==>
        r == Ok && ref == tx && tx == Some(old(nextRef)) && dbLocked &&
        baseRows == rows && baseLabels == labels
    {
      if dbLocked {
        return None, Deadlock;
      }
      dbLocked := true;
      if !open {
        return None, Panicked;
      }
      if !beginOk {
        return None, Failed("begin");
      }
      tx := Some(nextRef);
      nextRef := nextRef + 1;
      baseRows, baseLabels := rows, labels;
      ref, r := tx, Ok;
    }

    /**
     * `Begin` releasing the write lock whenever no transaction is handed out,
     * as a deferred release would, including the panic on a closed client.
     */
    method BeginReleasing(beginOk: bool) returns (ref: Option<nat>, r: Outcome)
      requires Valid() && !Wedged()
      modifies this`dbLocked, this`tx, this`nextRef, this`baseRows, this`baseLabels
      ensures Valid() && !Wedged()
      ensures old(tx).Some? ==> r == Deadlock && ref.None? && tx == old(tx)
      ensures old(tx).None? && !open ==> r == Panicked && ref.None? && tx.None? && !dbLocked
      ensures old(tx).None? && open && !beginOk ==> r.Failed? && ref.None? && tx.None? && !dbLocked
      ensures old(tx).None? && open && beginOk ==>
        r == Ok && ref == tx && tx == Some(old(nextRef)) &&
        baseRows == rows && baseLabels == labels
    {
      if dbLocked {
        return None, Deadlock;
      }
      dbLocked := true;
      if !open {
        dbLocked := false;
        return None, Panicked;
      }
      if !beginOk {
        dbLocked := false;
        return None, Failed("begin");
      }
      tx := Some(nextRef);
      nextRef := nextRef + 1;
      baseRows, baseLabels := rows, labels;
      ref, r := tx, Ok;
    }

    /** `insertLabels`: inserts the model's label rows one by one, stopping at a failure. */
    method InsertLabels(m: Model, failAt: Option<nat>) returns (ok: bool)
      modifies this`labels
      ensures ok <==> !Fails(LabelsOf(m), failAt)
      ensures labels == old(labels) + Upto(LabelsOf(m), failAt)
    {
      var added := LabelsOf(m);
      var i := 0;
      while i < |added|
        invariant 0 <= i <= |added|
        invariant labels == old(labels) + added[..i]
        invariant failAt.Some? ==> failAt.value >= i
      {
        if failAt == Some(i) {
          return false;
        }
        labels := labels + [added[i]];
        i := i + 1;
      }
      assert added[..i] == added;
      ok := true;
    }

    /**
     * `deleteLabels`: lists the model's label rows and deletes them one by one,
     * stopping at a failure.
     */
    method DeleteLabels(k: Key, listFails: bool, failAt: Option<nat>) returns (ok: bool)
      modifies this`labels
      ensures listFails ==> !ok && labels == old(labels)
      ensures !listFails ==> ((ok <==> !Fails(Owned(old(labels), k), failAt)) &&
        labels == Remove(old(labels), Upto(Owned(old(labels), k), failAt)))
    {
      if listFails {
        return false;
      }
      var list := Owned(labels, k);
      ok := DeleteListed(list, failAt);
    }

    /** The delete loop of `deleteLabels` over the listed rows, stopping at the failure placed at `failAt`. */
    method DeleteListed(list: seq<Label>, failAt: Option<nat>) returns (ok: bool)
      modifies this`labels
      ensures ok <==> !Fails(list, failAt)
      ensures labels == Remove(old(labels), Upto(list, failAt))
    {
      ghost var ls := labels;
      RemoveNothing(ls);
      var i := 0;
      while i < |list|
        invariant 0 <= i <= |list|
        invariant labels == Remove(ls, list[..i])
        invariant failAt.Some? ==> failAt.value >= i
      {
        if failAt == Some(i) {
          assert Upto(list, failAt) == list[..i];
          return false;
        }
        RemoveStep(ls, list[..i], list[i]);
        assert list[..i] + [list[i]] == list[..i + 1];
        labels := Remove(labels, [list[i]]);
        i := i + 1;
      }
      assert list[..i] == list == Upto(list, failAt);
      ok := true;
    }

    /**
     * The label half of `Update`: `deleteLabels` then, if that succeeded,
     * `insertLabels`. Other models' rows are untouched whatever fails.
     */
    method ReplaceLabels(m: Model, f: Faults) returns (ok: bool)
      modifies this`labels
      ensures var deleteOk := !f.listLabels && !Fails(Owned(old(labels), KeyOf(m)), f.deleteLabelAt);
        labels == DeletedLabels(old(labels), KeyOf(m), f) +
          (if deleteOk then Upto(LabelsOf(m), f.insertLabelAt) else []) &&
        (ok <==> deleteOk && !Fails(LabelsOf(m), f.insertLabelAt))
      ensures Others(labels, KeyOf(m)) == Others(old(labels), KeyOf(m))
    {
      ghost var ls := labels;
      ok := DeleteLabels(KeyOf(m), f.listLabels, f.deleteLabelAt);
      DeletedKeepsOthers(ls, KeyOf(m), f);
      if !ok {
        assert labels == labels + [];
        return;
      }
      ghost var deleted := labels;
      ok := InsertLabels(m, f.insertLabelAt);
      AppendOwnedKeepsOthers(deleted, Upto(LabelsOf(m), f.insertLabelAt), KeyOf(m));
    }

    /**
     * `Insert`: the row, then its labels, then a created entry, flushed outside
     * a transaction. Outside a transaction on a closed client the row insert
     * panics on the nil handle, and the deferred release leaves nothing changed.
     */
    method Insert(m: Model, f: Faults) returns (r: Outcome)
      requires Valid()
      modifies this`rows, this`labels, journal
      ensures Valid()
      ensures old(Wedged()) ==> (r == Deadlock && rows == old(rows) && labels == old(labels) &&
        unchanged(journal))
      ensures !old(Wedged()) && !HasHandle() ==>
        r == Panicked && rows == old(rows) && labels == old(labels) && unchanged(journal)
      ensures !old(Wedged()) && HasHandle() && (f.table || KeyOf(m) in old(rows)) ==>
        r == Failed("insert") && rows == old(rows) && labels == old(labels) && unchanged(journal)
      ensures !old(Wedged()) && HasHandle() && !f.table && KeyOf(m) !in old(rows) ==>
        rows == old(rows)[KeyOf(m) := m] &&
        labels == old(labels) + Upto(LabelsOf(m), f.insertLabelAt) &&
        (r == Ok <==> !Fails(LabelsOf(m), f.insertLabelAt)) &&
        (r != Ok ==> r == Failed("labels") && unchanged(journal)) &&
        (r == Ok ==> Journaled(old(journal.staged), old(journal.flushed), CreatedEntry(m)))
    {
      if Wedged() {
        return Deadlock;
      }
      if !HasHandle() {
        return Panicked;
      }
      if f.table || KeyOf(m) in rows {
        return Failed("insert");
      }
      rows := rows[KeyOf(m) := m];
      var ok := InsertLabels(m, f.insertLabelAt);
      if !ok {
        return Failed("labels");
      }
      journal.Record(CreatedEntry(m));
      if tx.None? {
        journal.Flush();
      }
      r := Ok;
    }

    /** The journal after recording `e`: staged inside a transaction, flushed with everything staged outside one. */
    ghost predicate Journaled(staged0: seq<Entry>, flushed0: seq<Entry>, e: Entry)
      reads this, journal
    {
      if tx.Some? then journal.staged == staged0 + [e] && journal.flushed == flushed0
      else journal.staged == [] && journal.flushed == flushed0 + staged0 + [e]
    }

    /**
     * `Update`: reads the current row, writes the new one, replaces its labels,
     * then records the before/after pair. Outside a transaction on a closed
     * client the read panics on the nil handle and nothing changes.
     */
    method Update(m: Model, f: Faults) returns (r: Outcome)
      requires Valid()
      modifies this`rows, this`labels, journal
      ensures Valid()
      ensures old(Wedged()) ==> (r == Deadlock && rows == old(rows) && labels == old(labels) &&
        unchanged(journal))
      ensures !old(Wedged()) && !HasHandle() ==>
        r == Panicked && rows == old(rows) && labels == old(labels) && unchanged(journal)
      ensures !old(Wedged()) && HasHandle() && (KeyOf(m) !in old(rows) || f.get) ==>
        r == Failed("get") && rows == old(rows) && labels == old(labels) && unchanged(journal)
      ensures !old(Wedged()) && HasHandle() && KeyOf(m) in old(rows) && !f.get && f.table ==>
        r == Failed("update") && rows == old(rows) && labels == old(labels) && unchanged(journal)
      ensures !old(Wedged()) && HasHandle() && KeyOf(m) in old(rows) && !f.get && !f.table ==>
        rows == old(rows)[KeyOf(m) := m] && (r == Ok || r == Failed("labels")) &&
        (r == Ok ==> Journaled(old(journal.staged), old(journal.flushed), UpdatedEntry(old(rows)[KeyOf(m)], m))) &&
        (r != Ok ==> unchanged(journal))
      ensures !old(Wedged()) && HasHandle() && KeyOf(m) in old(rows) && !f.get && !f.table ==>
        var deleteOk := !f.listLabels && !Fails(Owned(old(labels), KeyOf(m)), f.deleteLabelAt);
        labels == DeletedLabels(old(labels), KeyOf(m), f) +
          (if deleteOk then Upto(LabelsOf(m), f.insertLabelAt) else []) &&
        (r == Ok <==> deleteOk && !Fails(LabelsOf(m), f.insertLabelAt))
      ensures !old(Wedged()) && HasHandle() && KeyOf(m) in old(rows) && !f.get && !f.table &&
              !f.listLabels && f.deleteLabelAt.None? && f.insertLabelAt.None? ==>
        r == Ok && labels == Remove(old(labels), Owned(old(labels), KeyOf(m))) + LabelsOf(m)
      ensures Others(labels, KeyOf(m)) == Others(old(labels), KeyOf(m))
    {
      if Wedged() {
        return Deadlock;
      }
      if !HasHandle() {
        return Panicked;
      }
      if KeyOf(m) !in rows || f.get {
        return Failed("get");
      }
      if f.table {
        return Failed("update");
      }
      r := Rewrite(m, f);
    }

    /** The write half of `Update`, once the current row has been read and the row update succeeds. */
    method Rewrite(m: Model, f: Faults) returns (r: Outcome)
      requires KeyOf(m) in rows
      modifies this`rows, this`labels, journal
      ensures rows == old(rows)[KeyOf(m) := m]
      ensures var deleteOk := !f.listLabels && !Fails(Owned(old(labels), KeyOf(m)), f.deleteLabelAt);
        labels == DeletedLabels(old(labels), KeyOf(m), f) +
          (if deleteOk then Upto(LabelsOf(m), f.insertLabelAt) else []) &&
        (r == Ok <==> deleteOk && !Fails(LabelsOf(m), f.insertLabelAt))
      ensures r == Ok || r == Failed("labels")
      ensures r == Ok ==> Journaled(old(journal.staged), old(journal.flushed), UpdatedEntry(old(rows)[KeyOf(m)], m))
      ensures r != Ok ==> unchanged(journal)
      ensures Others(labels, KeyOf(m)) == Others(old(labels), KeyOf(m))
    {
      var current := rows[KeyOf(m)];
      rows := rows[KeyOf(m) := m];
      var ok := ReplaceLabels(m, f);
      if !ok {
        return Failed("labels");
      }
      journal.Record(UpdatedEntry(current, m));
      if tx.None? {
        journal.Flush();
      }
      r := Ok;
    }

    /**
     * `Delete`: the row, then its labels, then a deleted entry. Outside a
     * transaction on a closed client the row delete panics on the nil handle
     * and nothing changes.
     */
    method Delete(m: Model, f: Faults) returns (r: Outcome)
      requires Valid()
      modifies this`rows, this`labels, journal
      ensures Valid()
      ensures old(Wedged()) ==> (r == Deadlock && rows == old(rows) && labels == old(labels) &&
        unchanged(journal))
      ensures !old(Wedged()) && !HasHandle() ==>
        r == Panicked && rows == old(rows) && labels == old(labels) && unchanged(journal)
      ensures !old(Wedged()) && HasHandle() && f.table ==>
        r == Failed("delete") && rows == old(rows) && labels == old(labels) && unchanged(journal)
      ensures !old(Wedged()) && HasHandle() && !f.table ==>
        rows == old(rows) - {KeyOf(m)} && (r == Ok || r == Failed("labels")) &&
        (r == Ok ==> Journaled(old(journal.staged), old(journal.flushed), DeletedEntry(m))) &&
        (r != Ok ==> unchanged(journal))
      ensures !old(Wedged()) && HasHandle() && !f.table ==>
        labels == DeletedLabels(old(labels), KeyOf(m), f) &&
        (r == Ok <==> !f.listLabels && !Fails(Owned(old(labels), KeyOf(m)), f.deleteLabelAt))
      ensures !old(Wedged()) && HasHandle() && !f.table && !f.listLabels && f.deleteLabelAt.None? ==>
        r == Ok && labels == Remove(old(labels), Owned(old(labels), KeyOf(m)))
      ensures Others(labels, KeyOf(m)) == Others(old(labels), KeyOf(m))
    {
      ghost var ls := labels;
      if Wedged() {
        return Deadlock;
      }
      if !HasHandle() {
        return Panicked;
      }
      if f.table {
        return Failed("delete");
      }
      rows := rows - {KeyOf(m)};
      var ok := DeleteLabels(KeyOf(m), f.listLabels, f.deleteLabelAt);
      DeletedKeepsOthers(ls, KeyOf(m), f);
      if !ok {
        return Failed("labels");
      }
      journal.Record(DeletedEntry(m));
      if tx.None? {
        journal.Flush();
      }
      r := Ok;
    }

    /**
     * `commit`: a transaction other than the open one is refused with nothing
     * changed. Otherwise the transaction ends and the write lock is released
     * whatever the database commit reports; the journal is flushed only after a
     * successful commit. A failed commit leaves the tables as they were when the
     * transaction began.
     */
    method Commit(ref: nat, commitOk: bool) returns (r: Outcome)
      requires Valid()
      modifies this`dbLocked, this`tx, this`rows, this`labels, journal
      ensures Valid()
      ensures old(tx) != Some(ref) ==> (r == TxInvalid && tx == old(tx) && dbLocked == old(dbLocked) &&
        rows == old(rows) && labels == old(labels) && unchanged(journal))
      ensures old(tx) == Some(ref) ==> tx.None? && !dbLocked
      ensures old(tx) == Some(ref) && commitOk ==> (r == Ok && rows == old(rows) && labels == old(labels) &&
        journal.staged == [] && journal.flushed == old(journal.flushed) + old(journal.staged))
      ensures old(tx) == Some(ref) && !commitOk ==> (r.Failed? && rows == baseRows && labels == baseLabels &&
        unchanged(journal))
    {
      if tx != Some(ref) {
        return TxInvalid;
      }
      dbLocked, tx := false, None;
      if !commitOk {
        rows, labels := baseRows, baseLabels;
        return Failed("commit");
      }
      journal.Flush();
      r := Ok;
    }

    /**
     * `end`: a transaction other than the open one is refused with nothing
     * changed. Otherwise the transaction is rolled back and the write lock
     * released; staged journal entries are dropped only after a successful
     * rollback.
     */
    method End(ref: nat, rollbackOk: bool) returns (r: Outcome)
      requires Valid()
      modifies this`dbLocked, this`tx, this`rows, this`labels, journal
      ensures Valid()
      ensures old(tx) != Some(ref) ==> (r == TxInvalid && tx == old(tx) && dbLocked == old(dbLocked) &&
        rows == old(rows) && labels == old(labels) && unchanged(journal))
      ensures old(tx) == Some(ref) ==> tx.None? && !dbLocked && rows == baseRows && labels == baseLabels
      ensures old(tx) == Some(ref) && rollbackOk ==> (r == Ok &&
        journal.staged == [] && journal.flushed == old(journal.flushed))
      ensures old(tx) == Some(ref) && !rollbackOk ==> r.Failed? && unchanged(journal)
    {
      if tx != Some(ref) {
        return TxInvalid;
      }
      dbLocked, tx := false, None;
      rows, labels := baseRows, baseLabels;
      if !rollbackOk {
        return Failed("rollback");
      }
      journal.Discard();
      r := Ok;
    }
  }

  lemma {:induction false} RemoveNothing(ls: seq<Label>)
    ensures Remove(ls, []) == ls
  {
    if |ls| > 0 {
      RemoveNothing(ls[1..]);
    }
  }

  /**
   * With `Begin` as written, a failed database begin leaves the write lock held
   * with no transaction, so the next write outside a transaction waits forever.
   */
  method BeginFailureWedges() returns (r: Outcome)
    ensures r == Deadlock
  {
    var j := new JournalLog();
    var c := new Client(j);
    var ref, b := c.Begin(false);
    r := c.Insert(Model("Vm", "1", "", None), NoFaults);
  }

  /** With `BeginReleasing`, the same failure leaves the client usable: the write goes through. */
  method BeginFailureRecovers() returns (r: Outcome)
    ensures r == Ok
  {
    var j := new JournalLog();
    var c := new Client(j);
    var ref, b := c.BeginReleasing(false);
    r := c.Insert(Model("Vm", "1", "", None), NoFaults);
  }

  /**
   * After a successful `Close`, a write outside a transaction panics and
   * stores nothing, and a following `Begin` panics holding the write lock, so
   * the next write waits forever.
   */
  method ClosedClientPanics() returns (insert: Outcome, begin: Outcome, after: Outcome, stored: bool)
    ensures insert == Panicked && !stored
    ensures begin == Panicked && after == Deadlock
  {
    var j := new JournalLog();
    var c := new Client(j);
    var closed := c.Close(true);
    var m := Model("Vm", "1", "", None);
    insert := c.Insert(m, NoFaults);
    stored := KeyOf(m) in c.rows;
    var ref;
    ref, begin := c.Begin(true);
    after := c.Insert(m, NoFaults);
  }
}
