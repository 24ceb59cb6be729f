# konveyor/controller core, modelled in Dafny

This project models the self-contained bookkeeping at the heart of the
konveyor controller library and proves properties of it. The Kubernetes,
SQL, JSON and goroutine layers around that bookkeeping are abstracted away.

- **Event journal** (`journal.dfy`, module `EventJournal`). This is the
  inventory model's event journal. While any watch is registered, every
  create, update and delete appends a history row under the next event ID.
  Each watch keeps a cursor, reads the page of rows after it, moves the
  cursor across the page and calls its handler once per row of its kind.
- **Database client** (`client.dfy`, module `InventoryClient`). This is the
  inventory client's transaction and label state machine:
  - one open transaction at a time, holding the write lock;
  - commit and end are validated against the open transaction;
  - the label side table is kept in step by delete-all-then-insert;
  - journal entries are flushed at once outside a transaction and on commit
    inside one.
- **Page window** (`page.dfy`, module `Paging`). `Page.Slice` is the
  offset/limit window.
- **Remote registries**, in two historical variants. Each is a keyed map of
  remote clusters whose watches and relays are de-duplicated, taken over
  from a replaced remote, and fanned out to by a forward or router step.
  - `remote_watch.dfy` (module `RemoteRegistry`) is `pkg/remote`.
  - `watch_remote.dfy` (module `RemoteWatch`) is `pkg/watch`.
  - `kube.dfy` (module `Kube`) holds the Kubernetes values they share.
- **Condition collection** (`condition.dfy`, module `StatusConditions`). A
  list of status conditions keyed by type, with:
  - begin/end staging cycles;
  - delete-while-staging;
  - category queries;
  - the delta report.
- **Itineraries** (modules `ItineraryFlags`, `Itinerary`,
  `ItineraryPipeline`, `ItinerarySimple` and `ItineraryRuntime`; `paths.dfy`
  holds the slash-separated path helpers). An itinerary is a tree of steps
  filtered by 16-bit flag masks against a caller's predicate. It is compiled
  into a pipeline of tasks, listed in pre-order, indexed by path and walked
  with `Next`.
  - The package holds two conflicting variants: `itinerary.go` with
    `pipeline.go`, and `simple.go` with `runtime/pipeline.go`. Each variant
    is modelled separately.
  - `hasAny` and `hasAll` are identical in both variants, so they are
    modelled once, on masks, in `ItineraryFlags`.
- **File-backed queue** (`fbq_queue.dfy`, module `Fbq`). Frames are a 2-byte
  little-endian kind, an 8-byte little-endian length and the payload. The
  type catalog is a first-fit index.
- **Error wrapping** (`error_wrap.dfy`, module `ErrorWrap`). Wrapping never
  nests, context comes in key/value pairs, and `Unwrap` reaches the
  innermost error.

Code that changes state in place is modelled as classes whose methods are
proved against specification functions. The classes are:

- the journal and its watches;
- the client;
- the remotes and their registries;
- the condition collection;
- the pipeline and runtimes;
- the queue.

Pure code is modelled as functions and lemmas. Calls into code that is not
modelled are parameters of the operation that makes them: database calls,
`controller.Watch`, file writes and the predicate's `Evaluate`.

Where the documented design and the code disagree, the model follows the code:

- `Client.Begin` keeps the write lock when the database begin fails, although
  a failed begin is meant to leave the client usable. The finding below
  records this.
- `hasAny` never excludes a step, because of the unconditional `pTrue = true`.
  The finding below records this.
- The two itinerary variants, and the two journals (client.go calls
  `journal.Commit`/`Unstage`, journal.go defines `Committed`), are each
  modelled against their own file's semantics.
- A failed label write leaves the labels written so far, as the loop does.
  It is not an all-or-nothing update.

## Model

| member | source | states |
|---|---|---|
| ErrorWrap.Wrap | pkg/error/wrap.go:19-51 | nil wraps to nil; the result is always an `*Error`; an `*Error` keeps its cause and stack and gets the context appended only when non-empty; any other error becomes the wrapped cause, with one context entry iff context was given |
| ErrorWrap.New | pkg/error/wrap.go:12-14 | `New` wraps a plain error carrying the message and no context, and its `Error()` is that message |
| ErrorWrap.AddContext | pkg/error/wrap.go:135-139 | a non-empty key/value list is appended as one more context entry after the existing ones; an empty one leaves the error as it was; cause, stack and message never change |
| ErrorWrap.Message | pkg/error/wrap.go:87-89 | `Error()` of a chain of `*Error` wrappers is its root cause's message; an error with its own message reports that message |
| ErrorWrap.Innermost | pkg/error/wrap.go:56-70 | the root cause has no further cause and is no larger than the error it was reached from |
| ErrorWrap.Unwrap | pkg/error/wrap.go:56-70 | the unwrap loop returns nil for nil and otherwise the innermost error of the chain |
| ErrorWrap.ErrorUnwrap | pkg/error/wrap.go:129-131 | `(*Error).Unwrap` returns the root cause of the wrapped error, which is strictly smaller than the `*Error` |
| ErrorWrap.PairsKeys | pkg/error/wrap.go:105-125 | a key is in a context map iff it is the key of one of the complete pairs |
| ErrorWrap.PairsLastWins | pkg/error/wrap.go:105-125 | the value stored for a key is that of the last pair carrying it |
| ErrorWrap.Context | pkg/error/wrap.go:105-125 | `Context()` is nil without context, else one map per recorded list, each pairing l[2j] with l[2j+1] and dropping a trailing odd value |
| ErrorWrap.WrapIdempotent | pkg/error/wrap.go:19-26 | wrapping twice without context equals wrapping once: wrapping never nests |
| ErrorWrap.WrapPreserves | pkg/error/wrap.go:19-51 | wrapping keeps the message and the root cause, and never produces an `*Error` inside an `*Error` |
| ErrorWrap.InnermostIdempotent | pkg/error/error_test.go:48-56 | unwrapping the root cause again gives the root cause |
| ErrorWrap.ContextOfThreePairs | pkg/error/error_test.go:36-43 | six context values with distinct keys give one map holding three keys |
| Fbq.Pow256 | pkg/fbq/queue.go:74-84 | the bound of an n-byte field is positive |
| Fbq.LE | pkg/fbq/queue.go:74-84 | `PutUint16`/`PutUint64` produce exactly n bytes |
| Fbq.FromLE | pkg/fbq/queue.go:120-133 | `Uint16`/`Uint64` decode a value that fits in the field's bytes |
| Fbq.FromLEOfLE | pkg/fbq/queue.go:74-84 | decoding a little-endian encoding gives the value back |
| Fbq.LEOfFromLE | pkg/fbq/queue.go:120-133 | re-encoding a decoded field gives the bytes back |
| Fbq.EncodeFrame | pkg/fbq/queue.go:72-98 | a frame is 2 kind bytes, 8 length bytes and the payload |
| Fbq.ReadAt | pkg/fbq/queue.go:108-144 | a read yields exactly the requested bytes and advances within the file |
| Fbq.Lookup | pkg/fbq/queue.go:188-197 | a kind is found iff it is below the catalog length, and then it is that catalog entry |
| Fbq.FrameRoundTrip | pkg/fbq/queue.go:62-160 | reading a frame that `Put` wrote gives back its kind's type and its payload, and the reader lands right after the frame |
| Fbq.FrameFields | pkg/fbq/queue.go:108-144 | over a written frame, `Next`'s three reads return the kind bytes, the length bytes and the payload, and the two fields decode to the kind and the payload length |
| Fbq.NextAtEnd | pkg/fbq/queue.go:108-118 | at the end of the file `Next` reports end with no error |
| Fbq.UnknownKind | pkg/fbq/queue.go:148-152 | a frame whose kind has no catalog entry yields "unknown kind." |
| Fbq.Queue.constructor | pkg/fbq/queue.go:31-49 | a new queue has an empty catalog and an empty file |
| Fbq.Queue.Add | pkg/fbq/queue.go:172-184 | a known type keeps the catalog and returns its first position; a new type is appended and gets the old length, both as uint16; catalog types stay distinct |
| Fbq.Queue.Find | pkg/fbq/queue.go:188-197 | found iff kind < len(catalog), and then the entry at kind |
| Fbq.Queue.Write | pkg/fbq/queue.go:76-91 | one file write appends the accepted prefix of the buffer |
| Fbq.Queue.Put | pkg/fbq/queue.go:62-101 | an encode failure writes nothing; otherwise the type is catalogued; with the kind and length writes complete the file grows by the encoded frame cut after the payload bytes written, with no error iff the whole payload was written and a short write otherwise; a failed write reports a write error |
| Fbq.Queue.WriteFrame | pkg/fbq/queue.go:72-98 | the three writes stop at the first failure with a write error; when kind and length are written whole, the file gains exactly the frame's first bytes up to the accepted payload, and a short payload write is reported; the file only grows |
| Fbq.Queue.Read | pkg/fbq/queue.go:108-144 | one file read returns the bytes at the reader and advances it; EOF leaves it in place |
| Fbq.Queue.Next | pkg/fbq/queue.go:105-160 | `Next` returns exactly the frame decoded at the reader and leaves the reader just past the fields it read, past the whole frame for an item |
| Fbq.ReadEnd | pkg/fbq/queue.go:105-144 | the reader never moves back, and never past the end of the file |
| Fbq.PutComplete | pkg/fbq/queue.go:62-101 | a `Put` whose three writes are all complete catalogues the type and appends exactly its frame, leaving the reader where it was |
| Fbq.PutTwice | pkg/fbq/queue_test.go:30-36 | two complete `Put`s of objects of different types on a new queue catalogue them as kinds 0 and 1 and leave their two frames in order |
| Fbq.PutTwiceNextTwice | pkg/fbq/queue_test.go:30-42 | the two `Next`s that follow return the two objects in the order they were put, each with its own kind, type and payload, neither at end nor in error |
| Fbq.Index | pkg/fbq/queue.go:172-184 | the position of a type is its first occurrence, and equals the length iff the type is absent |
| Fbq.IndexOfDistinct | pkg/fbq/queue.go:172-184 | in a catalog of distinct types an entry's first position is its kind |
| Fbq.AppendNewKeepsDistinct | pkg/fbq/queue.go:180-183 | appending a new type keeps catalog types pairwise distinct |
| Paging.Start | pkg/inventory/model/model.go:54-57 | the first index kept is the offset clamped to the collection, 0 for a negative offset |
| Paging.PageOf | pkg/inventory/model/model.go:43-65 | the window is the contiguous run from the clamped offset; a limit ≥ 0 truncates it to min(limit, rest); a negative limit keeps everything to the end |
| Paging.PagesTile | pkg/inventory/model/model.go:54-62 | a page followed by everything after it is everything from the page's offset on |
| Paging.PageOfPrefixStep | pkg/inventory/model/model.go:54-62 | the loop's window grows by the i-th item exactly when i is at or past the offset and the window is not yet full |
| Paging.PageOfFull | pkg/inventory/model/model.go:58-60 | once the window holds limit items, later items leave it unchanged |
| Paging.SliceVar.constructor | pkg/inventory/model/model.go:43-51 | a slice variable holds the given items |
| Paging.Slice | pkg/inventory/model/model.go:43-65 | a pointer to a slice is overwritten with its window; any other argument is left untouched |
| Paging.SliceExample | pkg/inventory/model/model.go:43-65 | offset 2 limit 3 keeps the third to fifth items; offset -1 limit -1 keeps everything; an offset past the end keeps nothing |
| EventJournal.Row | pkg/inventory/model/journal.go:182-190 | a history row carries its ID, action, the model's kind and encoding, and the updated model's encoding or "" |
| EventJournal.Dispatch | pkg/inventory/model/journal.go:115-134 | actions 0x01, 0x02 and 0x04 call Created, Updated and Deleted, and any other action calls Error("unknown action"); End is never called per row |
| EventJournal.OfKind | pkg/inventory/model/journal.go:109-113 | the rows of the watched kind come from the page, in order |
| EventJournal.Callbacks | pkg/inventory/model/journal.go:109-135 | a page produces at most one handler call per row and never an end call |
| EventJournal.Emit | pkg/inventory/model/journal.go:110-134 | a row produces exactly one handler call when it is of the watched kind and none otherwise, never an end call |
| EventJournal.CallbacksAppend | pkg/inventory/model/journal.go:109-135 | the calls for two pages in a row are the calls for each, in order |
| EventJournal.CallbacksPerRow | pkg/inventory/model/journal.go:109-135 | exactly one handler call per row of the watched kind, in row order, chosen by the row's action |
| EventJournal.After | pkg/inventory/model/journal.go:98-104 | the page query returns only rows of the history |
| EventJournal.AfterMember | pkg/inventory/model/journal.go:98-104 | every row returned lies after the cursor |
| EventJournal.NextPage | pkg/inventory/model/journal.go:98-104 | a page is the first at most 100 rows after the cursor, and all of them when fewer than 100 remain |
| EventJournal.AfterAll | pkg/inventory/model/journal.go:98-104 | rows all above the cursor are all returned |
| EventJournal.AfterAdvance | pkg/inventory/model/journal.go:109-110 | in an increasing history, moving the cursor to the k-th returned row leaves exactly the rows after it |
| EventJournal.PageContinues | pkg/inventory/model/journal.go:95-137 | after a non-empty page the cursor is its last row's ID, so the next page starts right behind it: no row is skipped or repeated |
| EventJournal.History.constructor | pkg/inventory/model/journal.go:167-178 | the history table starts empty |
| EventJournal.Watch.constructor | pkg/inventory/model/journal.go:211-218 | a watch is created on a kind with a given cursor, unstarted, with an open queue |
| EventJournal.Watch.Notify | pkg/inventory/model/journal.go:71-76 | `notify` queues one wake on an open queue; on a closed one the panic is recovered and nothing changes |
| EventJournal.Watch.Start | pkg/inventory/model/journal.go:81-143 | a started watch is left alone; otherwise every snapshot model is delivered as a Created event, in order, before any history row, and the watch is marked started |
| EventJournal.Watch.Wake | pkg/inventory/model/journal.go:95-137 | a failed page query calls Error and keeps the cursor; otherwise the handler gets the page's callbacks and the cursor ends on the page's last row ID, rows of other kinds included |
| EventJournal.Watch.Consume | pkg/inventory/model/journal.go:109-135 | looping over a page, the handler gets exactly the page's callbacks and the cursor ends on the last row's ID, or stays put for an empty page |
| EventJournal.Watch.Finish | pkg/inventory/model/journal.go:95-138 | once the queue is closed and drained the handler's End is called once |
| EventJournal.Watch.End | pkg/inventory/model/journal.go:147-149 | `End` closes the queue; it panics iff the queue was already closed |
| EventJournal.Without | pkg/inventory/model/journal.go:228-237 | the kept list never holds the ended watch and holds only listed watches |
| EventJournal.WithoutMembers | pkg/inventory/model/journal.go:228-237 | exactly the watches other than the ended one are kept |
| EventJournal.WithoutAbsent | pkg/inventory/model/journal.go:228-237 | ending an unregistered watch keeps the list as it is |
| EventJournal.WithoutAppend | pkg/inventory/model/journal.go:228-237 | the kept watches keep their relative order |
| EventJournal.WithoutDistinct | pkg/inventory/model/journal.go:228-237 | ending a watch keeps the registered watches pairwise distinct |
| EventJournal.WithoutKeepsDistinct | pkg/inventory/model/journal.go:228-237 | ending a watch in a list of distinct watches leaves them distinct |
| EventJournal.Journal.constructor | pkg/inventory/model/journal.go:194-202 | a journal starts with no watches and event ID 0 |
| EventJournal.Journal.Watch | pkg/inventory/model/journal.go:208-221 | appends exactly one fresh, unstarted watch whose cursor is the journal's event ID; nothing else changes |
| EventJournal.Journal.End | pkg/inventory/model/journal.go:225-238 | removes every entry identical to the watch, keeps the others in order and closes its queue; a second close panics, as in Go; the watch's other fields, `ended` included, are kept |
| EventJournal.Journal.Record | pkg/inventory/model/journal.go:243-286 | with no watch nothing changes; otherwise the event ID grows by one and, if the insert succeeds, exactly one row with that ID is appended; history stays increasing |
| EventJournal.Journal.Created | pkg/inventory/model/journal.go:243-254 | as `Record`, with action 0x01 and no updated model |
| EventJournal.Journal.Updated | pkg/inventory/model/journal.go:259-270 | as `Record`, with action 0x02 and the updated model |
| EventJournal.Journal.Deleted | pkg/inventory/model/journal.go:275-286 | as `Record`, with action 0x04 and no updated model |
| EventJournal.Journal.Committed | pkg/inventory/model/journal.go:290-296 | every registered watch with an open queue gets exactly one wake and closed ones get none; every other field of each watch, `ended` included, is kept, and no panic escapes |
| InventoryClient.LabelsOf | pkg/inventory/model/client.go:296-313 | one label row per `Labels()` entry, each with Parent = pk, Kind = table name and the entry's name and value; none for a model that is not `Labeled` |
| InventoryClient.Owned | pkg/inventory/model/client.go:318-328 | the listed label rows of a model are rows of the table that belong to it |
| InventoryClient.Others | pkg/inventory/model/client.go:317-337 | the other models' rows are rows of the table that do not belong to the model |
| InventoryClient.Remove | pkg/inventory/model/client.go:332-337 | deleting rows never adds any, and leaves none of the deleted rows |
| InventoryClient.OwnedMembers | pkg/inventory/model/client.go:318-328 | the label query returns exactly the table's rows with the model's kind and parent |
| InventoryClient.AllOwned | pkg/inventory/model/client.go:296-313 | freshly inserted rows all belong to the model |
| InventoryClient.OwnedOfOthers | pkg/inventory/model/client.go:317-337 | after deletion no row of the model remains |
| InventoryClient.RemoveOwnedIsOthers | pkg/inventory/model/client.go:317-337 | deleting the listed rows of a model leaves exactly the other models' rows, in order |
| InventoryClient.ReplaceLabelsExact | pkg/inventory/model/client.go:341-352 | after replacement the model's rows are exactly its current labels, and other models' rows are untouched |
| InventoryClient.DeleteLabelsExact | pkg/inventory/model/client.go:317-337 | after `deleteLabels` no row of the model remains and the other rows are untouched |
| InventoryClient.RemoveOwnedKeepsOthers | pkg/inventory/model/client.go:332-337 | deleting rows of one model leaves every other model's rows as they were |
| InventoryClient.AppendOwnedKeepsOthers | pkg/inventory/model/client.go:296-313 | inserting rows of one model leaves every other model's rows as they were |
| InventoryClient.DeletedLabels | pkg/inventory/model/client.go:317-337 | `deleteLabels` under any faults: a failed listing changes nothing; it only ever removes rows; without faults no row of the model remains |
| InventoryClient.DeletedKeepsOthers | pkg/inventory/model/client.go:317-337 | whatever fails, `deleteLabels` leaves every other model's rows as they were |
| InventoryClient.OthersOfOthers | pkg/inventory/model/client.go:317-337 | deleting a model's labels twice is deleting them once |
| InventoryClient.RemoveNothing | pkg/inventory/model/client.go:332-337 | deleting no rows leaves the table as it is |
| InventoryClient.Upto | pkg/inventory/model/client.go:298-310 | a loop stopped by a failure has written a prefix of its rows, all of them when nothing fails |
| InventoryClient.JournalLog.constructor | pkg/inventory/model/client.go:66-67 | the journal starts with nothing staged or flushed |
| InventoryClient.JournalLog.Record | pkg/inventory/model/client.go:164-252 | an entry is staged after the earlier ones |
| InventoryClient.JournalLog.Flush | pkg/inventory/model/client.go:164-376 | the staged entries are published after the earlier ones, and nothing stays staged |
| InventoryClient.JournalLog.Discard | pkg/inventory/model/client.go:397 | staged entries are dropped and nothing is published |
| InventoryClient.Client.constructor | pkg/inventory/model/client.go:52-68 | a client starts open and unlocked, with no transaction, empty tables and the given journal |
| InventoryClient.Client.Close | pkg/inventory/model/client.go:107-121 | closing a closed client succeeds; a failed close keeps it open; a successful one closes it |
| InventoryClient.Client.Begin | pkg/inventory/model/client.go:150-160 | with the lock held, `Begin` waits forever; on a closed client the nil handle panics and the lock stays held; a failed begin keeps the lock with no transaction; a successful one opens a transaction with a fresh identity and records the tables to restore |
| InventoryClient.Client.BeginReleasing | pkg/inventory/model/client.go:150-160 | the corrected `Begin` releases the lock whenever it hands out no transaction (a failed begin, or the panic on a closed client), so the client never wedges |
| InventoryClient.Client.InsertLabels | pkg/inventory/model/client.go:296-313 | succeeds iff no label insert fails, and appends the model's label rows up to the first failure |
| InventoryClient.Client.DeleteLabels | pkg/inventory/model/client.go:317-337 | a failed list deletes nothing; otherwise it succeeds iff no delete fails, and removes the model's rows up to the first failure |
| InventoryClient.Client.DeleteListed | pkg/inventory/model/client.go:332-337 | the delete loop succeeds iff it meets no failure, and removes exactly the listed rows before the failure |
| InventoryClient.Client.Insert | pkg/inventory/model/client.go:164-189 | a wedged client deadlocks; outside a transaction on a closed client it panics on the nil handle and changes nothing; a failed or duplicate row insert returns before labels or journal are touched; otherwise the row is stored, its labels written, and a created entry recorded, flushed at once outside a transaction |
| InventoryClient.Client.Update | pkg/inventory/model/client.go:193-223 | a wedged client deadlocks; outside a transaction on a closed client it panics on the nil handle and changes nothing; a missing row fails at the initial get before any write; a failed update writes nothing more; otherwise the row is replaced and, under any faults, the labels are the table after `deleteLabels` followed, if that succeeded, by the labels inserted before any failing insert; it succeeds iff no label step fails, and then records an updated entry with the previous row; other models' rows never change |
| InventoryClient.Client.ReplaceLabels | pkg/inventory/model/client.go:341-352 | `replaceLabels` under any faults: the table after `deleteLabels`, then, only if that succeeded, the labels inserted before any failing insert; it succeeds iff neither step fails; other models' rows never change |
| InventoryClient.Client.Rewrite | pkg/inventory/model/client.go:209-219 | after the read and the row update succeed, the row is replaced, the labels are replaced as `replaceLabels` does, and an updated entry with the previous row is recorded iff that succeeded; a label failure is reported as such and records nothing |
| InventoryClient.Client.Delete | pkg/inventory/model/client.go:227-252 | a wedged client deadlocks; outside a transaction on a closed client it panics on the nil handle and changes nothing; a failed row delete touches nothing else; otherwise the row is gone and, under any faults, the labels are the table after `deleteLabels`; it succeeds iff neither the listing nor a label delete fails, and then records a deleted entry; other models' rows never change |
| InventoryClient.Client.Commit | pkg/inventory/model/client.go:358-376 | a transaction other than the open one gets TxInvalid with nothing changed; otherwise the lock is released and the transaction cleared even on failure; the journal is flushed only after a successful commit |
| InventoryClient.Client.End | pkg/inventory/model/client.go:382-400 | a transaction other than the open one gets TxInvalid with nothing changed; otherwise the tables return to their state at `Begin`, the lock is released and the transaction cleared; staged entries are dropped only after a successful rollback |
| InventoryClient.BeginFailureWedges | pkg/inventory/model/client.go:153-157 | after a failed `Begin` as written, the next write outside a transaction deadlocks |
| InventoryClient.BeginFailureRecovers | pkg/inventory/model/client.go:153-157 | after a failed `BeginReleasing`, the same write goes through |
| InventoryClient.ClosedClientPanics | pkg/inventory/model/client.go:107-189 | after a successful `Close` (which sets `db` to nil), an insert outside a transaction panics and stores nothing, and `Begin` panics holding the write lock, so the next insert waits forever |
| RemoteRegistry.Kinds | pkg/remote/watch.go:341-349 | the kinds of the watches, one per watch, by `ref.ToKind` |
| RemoteRegistry.EnsureWatchSpec | pkg/remote/watch.go:326-349 | `ensureWatch` always leaves the kind watched and keeps the watches it had, in place; it appends one watch iff the kind was not watched, installed iff it already was or the remote is started and the watch succeeds; it errs iff it had to install a new watch and the watch failed |
| RemoteRegistry.Install | pkg/remote/watch.go:394-407 | `Relay.Install` marks the relay installed iff it already was or the controller watch succeeds, opening its channel when it installs it, and changes nothing else |
| RemoteRegistry.EnsureRelaySpec | pkg/remote/watch.go:284-306 | `EnsureRelay` keeps the relays and watches it had, in place; a matching relay present changes nothing; otherwise it appends the installed relay, or reports an error and appends no relay |
| RemoteRegistry.EnsureWatchKeepsDistinct | pkg/remote/watch.go:326-349 | `ensureWatch` never leaves two watches of one kind, and the kind is watched afterwards |
| RemoteRegistry.RelayMatchEquivalence | pkg/remote/watch.go:411-414 | `Relay.Match` is reflexive, symmetric and transitive |
| RemoteRegistry.EnsureRelayKeepsValid | pkg/remote/watch.go:284-306 | `EnsureRelay` keeps relays pairwise non-matching and installed and watches distinct, and a new relay's subject kind is watched |
| RemoteRegistry.TakeWatchesCovers | pkg/remote/watch.go:223-229 | taking over watches keeps one per kind and leaves every taken-over kind watched |
| RemoteRegistry.TakeWatches | pkg/remote/watch.go:223-227 | taking over watches keeps the receiver's watches in place and adds at most one per watch taken over |
| RemoteRegistry.TakeRelays | pkg/remote/watch.go:228-231 | taking over relays ignores every failure, keeps the receiver's relays and watches in place, and adds at most one relay per relay taken over |
| RemoteRegistry.TakeRelaysKeepsValid | pkg/remote/watch.go:229-233 | taking over relays keeps the relay and watch invariants |
| RemoteRegistry.TakeRelaysCovers | pkg/remote/watch.go:229-233 | taking over relays never drops a watched kind |
| RemoteRegistry.TakeRelaysKeepsTheirs | pkg/remote/watch.go:228-231 | when each relay taken over is installed or can be, and the subject watch cannot fail (the remote is unstarted or the watch succeeds), every relay present before and every relay taken over has a match afterwards: none is lost |
| RemoteRegistry.TakeRelaysDropsUnwatched | pkg/remote/watch.go:228-231 | a started remote whose watch install fails drops a relay of a kind it does not yet watch, since the error of `EnsureRelay` is ignored |
| RemoteRegistry.RemoveMatching | pkg/remote/watch.go:312-321 | removing relays never adds any |
| RemoteRegistry.RemoveNoMatch | pkg/remote/watch.go:312-321 | with no matching relay the list is unchanged |
| RemoteRegistry.RemoveMatchingExact | pkg/remote/watch.go:312-321 | exactly the non-matching relays are kept |
| RemoteRegistry.AtMostOneMatch | pkg/remote/watch.go:284-306 | in a valid relay list at most one relay matches a given one |
| RemoteRegistry.ShutdownRelay | pkg/remote/watch.go:450-456 | shutdown closes an open channel and leaves a closed one as it is, the second close's panic being recovered; nothing else about the relay changes |
| RemoteRegistry.Deliveries | pkg/remote/watch.go:506-548 | a forward sends at most one event per relay, and none when no relay channel is open |
| RemoteRegistry.DeliveriesExact | pkg/remote/watch.go:506-548 | an event reaches a relay's target iff the relay's subject kind is the object's kind and its channel is open |
| RemoteRegistry.Remote.constructor | pkg/remote/watch.go:161-180 | a new remote has no watches or relays, is not started and has a nil done channel |
| RemoteRegistry.Remote.StartWatch | pkg/remote/watch.go:481-497 | `Watch.start` does nothing on an unstarted remote or a started watch; otherwise it installs the watch when the controller call succeeds |
| RemoteRegistry.Remote.Start | pkg/remote/watch.go:184-219 | a started remote is left alone; without a configuration it fails with "not configured"; otherwise it starts iff manager and controller are made, and the watch list is unchanged |
| RemoteRegistry.Remote.StartFixed | pkg/remote/watch.go:184-219 | the corrected `Start` keeps the watched kinds, and on success every watch is installed |
| RemoteRegistry.Remote.FindWatch | pkg/remote/watch.go:341-349 | `hasWatch` is true iff a watch of the object's kind is present |
| RemoteRegistry.Remote.FindRelay | pkg/remote/watch.go:353-361 | `hasRelay` is true iff a matching relay is present |
| RemoteRegistry.Remote.EnsureWatch | pkg/remote/watch.go:271-280 | the new watch list and error are those of `ensureWatch`: a watch of a new kind is appended, then installed if the remote is started |
| RemoteRegistry.Remote.EnsureRelay | pkg/remote/watch.go:284-306 | the lists and error are those of `EnsureRelay`: a relay matching none present is installed, its subject watched and the relay appended; otherwise nothing changes; the caller's relay is returned installed as `Install` leaves it, even when the later watch fails |
| RemoteRegistry.Remote.EndRelay | pkg/remote/watch.go:312-321 | the matching relay is removed and shut down; the others keep their order |
| RemoteRegistry.Remote.Reset | pkg/remote/watch.go:247-252 | `Reset` drops every watch and relay |
| RemoteRegistry.Remote.Shutdown | pkg/remote/watch.go:256-267 | every relay is shut down; with the never-made done channel the close panics and `started` is not cleared |
| RemoteRegistry.Remote.TakeWorkload | pkg/remote/watch.go:223-235 | the receiver ensures each of the other remote's watches, reset to not started, then each of its relays, ignoring failures, exactly as `TakeWatches` and `TakeRelays`; the other remote is left with none |
| RemoteRegistry.Remote.AdoptWatches | pkg/remote/watch.go:224-227 | the watch loop of `TakeWorkload` leaves exactly the watches of `TakeWatches` |
| RemoteRegistry.Remote.AdoptRelays | pkg/remote/watch.go:228-231 | the relay loop of `TakeWorkload` leaves exactly the relays and watches of `TakeRelays` |
| RemoteRegistry.Remote.Forward | pkg/remote/watch.go:506-548 | `Forward` returns false and sends to exactly the open relays whose subject kind matches the object's kind, in order |
| RemoteRegistry.Container.constructor | pkg/remote/watch.go:38-45 | the container starts empty |
| RemoteRegistry.Container.Add | pkg/remote/watch.go:85-90 | maps the owner's key to the remote |
| RemoteRegistry.Container.Delete | pkg/remote/watch.go:94-99 | unmaps the owner's key |
| RemoteRegistry.Container.Find | pkg/remote/watch.go:103-109 | found iff the owner's key is mapped, and then that remote |
| RemoteRegistry.Container.Ensure | pkg/remote/watch.go:62-81 | a mapped remote with an equal configuration is returned untouched; otherwise the candidate watches every kind the old remote watched and, unless it was started and the watch install fails, holds a match for every relay the old remote had; the old one is left empty, and keeps `started` when its `done` channel is nil (the close panics); the key maps to the candidate only when it starts |
| RemoteRegistry.Container.Supersede | pkg/remote/watch.go:70-71 | the old remote is left empty and shut down, keeping `started` when its `done` channel is nil; every kind it watched is watched by the candidate; unless the candidate is started and the watch install fails, every relay of both remotes has a match in the candidate; an unstarted candidate only appends uninstalled watches after its own |
| RemoteRegistry.Container.EnsureWatch | pkg/remote/watch.go:113-122 | ensures the watch on the owner's remote as `ensureWatch` does, touching only its watch list; with no remote mapped it acts on a throwaway empty remote, so no mapped remote changes |
| RemoteRegistry.Container.EnsureRelay | pkg/remote/watch.go:127-136 | ensures the relay on the owner's remote as `EnsureRelay` does, touching only its lists; with no remote mapped it acts on a throwaway empty remote, so no mapped remote changes and the caller's relay is still installed |
| RemoteRegistry.Container.EndRelay | pkg/remote/watch.go:143-150 | removes the matching relays from the owner's remote when mapped, touching only its relay list; otherwise no remote changes |
| RemoteRegistry.EnsureWatchUnstarted | pkg/remote/watch.go:271-280 | on an unstarted remote, an unstarted watch is only ever appended uninstalled after the watches present |
| RemoteRegistry.TakeWatchesUnstarted | pkg/remote/watch.go:223-227 | watches taken over by an unstarted remote are appended uninstalled after its own |
| RemoteRegistry.TakeRelaysUnstarted | pkg/remote/watch.go:228-231 | the subject watches of relays taken over by an unstarted remote are appended uninstalled after its own |
| RemoteRegistry.TakeoverCovers | pkg/remote/watch.go:223-231 | after a takeover of watches then relays every kind taken over is watched |
| RemoteRegistry.TakeoverUnstarted | pkg/remote/watch.go:223-231 | a takeover into an unstarted remote keeps its watches in place and only appends uninstalled ones |
| RemoteRegistry.StartLeavesWatchesUninstalled | pkg/remote/watch.go:207-215 | a watch ensured before `Start` as written is still not installed after a successful start |
| RemoteRegistry.StartFixedInstallsWatches | pkg/remote/watch.go:207-215 | with `StartFixed` the same watch is installed |
| RemoteWatch.Objects | pkg/watch/remote.go:184-188 | the watched objects, one per watch, in order |
| RemoteWatch.WatchSpec | pkg/watch/remote.go:178-201 | `Watch` errors iff there is no controller or the controller call fails for a new object; it installs at most one watch, routed, only for an object not recorded; it never records one |
| RemoteWatch.WatchAll | pkg/watch/remote.go:152-157 | the loop over `Watch` installs at most one watch per given watch, never an already recorded object, each with the router appended as its last predicate; without a controller it installs nothing and errs |
| RemoteWatch.WatchAllStops | pkg/watch/remote.go:152-157 | once a watch fails, the remaining ones are never attempted |
| RemoteWatch.WatchAllRecorded | pkg/watch/remote.go:152-157 | watching the recorded watches installs nothing |
| RemoteWatch.WatchAllFresh | pkg/watch/remote.go:229-236 | with every call succeeding, each new object is installed, routed, in order |
| RemoteWatch.CountAccepting | pkg/watch/remote.go:338-355 | at most one forward per watch |
| RemoteWatch.RouteEach | pkg/watch/remote.go:338-355 | `Create` sends nothing when no relay channel is open or no watch accepts |
| RemoteWatch.RouteFirst | pkg/watch/remote.go:357-415 | `Update/Delete/Generic` send at most one event per relay, and none when no relay channel is open |
| RemoteWatch.Repeat | pkg/watch/remote.go:338-355 | forwarding n times sends n copies of the relay's events |
| RemoteWatch.CountAcceptingPositive | pkg/watch/remote.go:357-375 | some watch accepts iff the count is positive |
| RemoteWatch.RouteFirstVersusEach | pkg/watch/remote.go:338-415 | `Update/Delete/Generic` send at most one event per relay, no more than `Create` does, and reach the same targets |
| RemoteWatch.RouteFirstExact | pkg/watch/remote.go:357-415 | an event reaches a target iff an open relay for it has a watch of the event's Go type whose predicates all accept |
| RemoteWatch.ShutdownRelay | pkg/watch/remote.go:277-283 | shutdown closes an open channel and changes nothing else |
| RemoteWatch.Remote.constructor | pkg/watch/remote.go:94-115 | a new remote has no relays or watches, is not started and has a nil done channel |
| RemoteWatch.Remote.Watch | pkg/watch/remote.go:178-201 | `Watch` behaves as `WatchSpec`: "not started" without a controller, a no-op for a recorded object, and it never appends to `watches` |
| RemoteWatch.Remote.WatchEach | pkg/watch/remote.go:152-157 | the loop over `Watch` installs what `WatchAll` says and stops at the first error |
| RemoteWatch.Remote.StartOnce | pkg/watch/remote.go:119-162 | a started remote is left alone; otherwise the list is recorded before the loop, and the manager and controller are made |
| RemoteWatch.Remote.Start | pkg/watch/remote.go:119-162 | the first `Start` records the list and installs none of it; later calls change nothing |
| RemoteWatch.Remote.StartFixed | pkg/watch/remote.go:119-162 | the corrected `Start` installs every given watch, routed, before recording the list |
| RemoteWatch.Remote.Shutdown | pkg/watch/remote.go:164-174 | with the never-made done channel the close panics and the relays are not shut down; otherwise every relay is shut down |
| RemoteWatch.Remote.FindController | pkg/watch/remote.go:212-217 | true iff a relay for the controller is present |
| RemoteWatch.Remote.Relay | pkg/watch/remote.go:205-238 | "not started" without a controller; a no-op for a known controller; otherwise a set-up relay is appended and its watch objects are watched |
| RemoteWatch.Remote.Forward | pkg/watch/remote.go:304-329 | a forward always returns true and sends the relay's fixed event if its channel is open, swallowing the panic otherwise |
| RemoteWatch.Remote.Accepts | pkg/watch/remote.go:341-349 | a watch accepts iff its Go type is the event's and every predicate accepts |
| RemoteWatch.Remote.ForwardEach | pkg/watch/remote.go:338-355 | one relay forwards once per accepting watch |
| RemoteWatch.Remote.ForwardFirst | pkg/watch/remote.go:357-375 | one relay forwards once if any watch accepts, else not at all |
| RemoteWatch.Remote.RouteCreate | pkg/watch/remote.go:338-355 | `Create` returns false and forwards once for every accepting watch of every relay |
| RemoteWatch.Remote.RouteFirstAccepting | pkg/watch/remote.go:357-415 | `Update/Delete/Generic` return false and forward once per relay with an accepting watch |
| RemoteWatch.Bare | pkg/watch/remote.go:229-236 | the relay's watches are watched by object only |
| RemoteWatch.RmtMap.constructor | pkg/watch/remote.go:45-50 | the map starts empty |
| RemoteWatch.RmtMap.Add | pkg/watch/remote.go:52-61 | maps the key to the remote, shutting down a replaced one: only its relays change, each shut down, unless its done channel was never made, when the shutdown panics first and they are kept; every other remote is unchanged |
| RemoteWatch.RmtMap.Delete | pkg/watch/remote.go:65-73 | removes the key, shutting down the removed remote: only its relays change, each shut down, unless its done channel was never made, when the shutdown panics first and they are kept; every other remote is unchanged |
| RemoteWatch.RmtMap.Find | pkg/watch/remote.go:77-83 | found iff the key is mapped, and then that remote |
| RemoteWatch.StartInstallsNothing | pkg/watch/remote.go:124-157 | on the first start a given watch is recorded but not installed |
| RemoteWatch.StartFixedInstalls | pkg/watch/remote.go:124-157 | with `StartFixed` the same watch is installed with the router appended |
| StatusConditions.Update | pkg/condition/condition.go:66-80 | the result is always staged and equal to the new condition; an equal condition changes nothing else; a different one is marked updated with the new transition time |
| StatusConditions.UpdateIdempotent | pkg/condition/condition.go:66-92 | updating twice with the same condition is updating once |
| StatusConditions.FindIndex | pkg/condition/condition.go:151-163 | `find` returns the first condition of the type, or none |
| StatusConditions.Visible | pkg/condition/condition.go:167-180 | `FindCondition` finds the first of the type, and while staging only if it is staged |
| StatusConditions.SetOne | pkg/condition/condition.go:188-198 | setting one condition grows the list by one iff no condition has its type; the condition of its type is staged and equal to it; every condition of another type is kept |
| StatusConditions.SetAll | pkg/condition/condition.go:184-200 | setting several conditions grows the list by at most their number and keeps every condition whose type none of them has |
| StatusConditions.SetOneSpec | pkg/condition/condition.go:184-200 | setting a condition updates the existing one of its type in place, or appends it added and staged; one condition per type is kept |
| StatusConditions.SetAllDistinct | pkg/condition/condition.go:184-206 | setting several conditions never creates two of one type |
| StatusConditions.StagedOnly | pkg/condition/condition.go:131-146 | the kept conditions are no more than the list |
| StatusConditions.StagedOnlyExact | pkg/condition/condition.go:131-146 | ending staging keeps exactly the staged conditions |
| StatusConditions.StagedOnlyDistinct | pkg/condition/condition.go:131-146 | ending staging keeps one condition per type, and only conditions of the list |
| StatusConditions.Unstage | pkg/condition/condition.go:118-127 | beginning staging sets each condition's staged flag to its durable flag |
| StatusConditions.EmptyCycleKeepsDurable | pkg/condition/condition.go:118-146 | a cycle with nothing set keeps exactly the durable conditions |
| StatusConditions.Stage | pkg/condition/condition.go:210-224 | staging marks exactly the conditions of the given types |
| StatusConditions.StageMakesVisible | pkg/condition/condition.go:167-224 | a staged type is found while staging |
| StatusConditions.Delete | pkg/condition/condition.go:228-250 | deletion outside staging never grows the list; while staging the length is kept |
| StatusConditions.DeleteExact | pkg/condition/condition.go:228-250 | outside staging exactly the conditions of other types are kept |
| StatusConditions.DeleteWhileStaging | pkg/condition/condition.go:228-250 | while staging the matching conditions are unstaged in place and the rest untouched |
| StatusConditions.DeleteHides | pkg/condition/condition.go:228-250 | while staging a deleted type is no longer found |
| StatusConditions.InBucket | pkg/condition/condition.go:367-385 | a bucket holds no more conditions than the list, and only listed conditions classified there |
| StatusConditions.DeltaOf | pkg/condition/condition.go:367-385 | every reported condition is listed; added ones are flagged added, updated ones updated and not added, deleted ones neither and unstaged |
| StatusConditions.InBucketExact | pkg/condition/condition.go:367-385 | a condition is in a bucket iff it is listed and classified there |
| StatusConditions.DeltaSize | pkg/condition/condition.go:367-385 | each condition is in at most one bucket |
| StatusConditions.DeltaDisjoint | pkg/condition/condition.go:367-385 | added beats updated beats unstaged: each bucket membership is exactly its flag test |
| StatusConditions.LenAsWritten | pkg/condition/condition.go:400-402 | `Len` as written is zero without added conditions iff nothing was updated or deleted |
| StatusConditions.EmptyAsWritten | pkg/condition/condition.go:406-408 | `Empty` as written is true iff nothing was updated or deleted, whatever was added |
| StatusConditions.AddedDeltaReportsEmpty | pkg/condition/condition.go:400-408 | a delta with one added condition is reported empty as written |
| StatusConditions.Len | pkg/condition/condition.go:400-402 | the corrected count is at least each bucket's size |
| StatusConditions.Empty | pkg/condition/condition.go:406-408 | the corrected `Empty` is true iff nothing was added, updated or deleted |
| StatusConditions.EmptyIffNoChange | pkg/condition/condition.go:367-408 | the corrected delta is empty iff no condition is added, updated or unstaged |
| StatusConditions.HasAllOneIsAny | pkg/condition/condition.go:254-283 | for one type, `HasCondition` and `HasAnyCondition` agree |
| StatusConditions.HasAll | pkg/condition/condition.go:254-266 | `HasCondition` holding implies `HasAnyCondition` holds |
| StatusConditions.HasAny | pkg/condition/condition.go:270-283 | `HasAnyCondition` holds only when some listed condition of one of the types has status "True" |
| StatusConditions.HasCategory | pkg/condition/condition.go:287-307 | no category never matches; a match is a listed condition of one of the categories with status "True" |
| StatusConditions.FindIndexIsFirst | pkg/condition/condition.go:151-163 | any first index of the type is the one `find` returns |
| StatusConditions.Conditions.constructor | pkg/condition/condition.go:22-30 | a collection starts empty and not staging |
| StatusConditions.Conditions.BeginStaging | pkg/condition/condition.go:118-127 | staging starts and each condition's staged flag becomes its durable flag |
| StatusConditions.Conditions.ComputeDelta | pkg/condition/condition.go:367-385 | the loop computes the delta of the list |
| StatusConditions.Conditions.EndStaging | pkg/condition/condition.go:131-146 | staging ends; the delta is of the list before filtering; exactly the staged conditions are kept, in order |
| StatusConditions.Conditions.Find | pkg/condition/condition.go:151-163 | the loop finds the first condition of the type |
| StatusConditions.Conditions.FindCondition | pkg/condition/condition.go:167-180 | the visible condition of the type, as `Visible` |
| StatusConditions.Conditions.SetCondition | pkg/condition/condition.go:184-200 | sets each condition in turn, as `SetAll` |
| StatusConditions.Conditions.SetOneHere | pkg/condition/condition.go:188-198 | one pass of the `SetCondition` loop sets one condition as `SetOne` |
| StatusConditions.Conditions.UpdateConditions | pkg/condition/condition.go:204-206 | sets each of the other collection's conditions |
| StatusConditions.Conditions.StageCondition | pkg/condition/condition.go:210-224 | stages the conditions of the types, as `Stage` |
| StatusConditions.Conditions.DeleteCondition | pkg/condition/condition.go:228-250 | deletes or, while staging, unstages the conditions of the types |
| StatusConditions.Conditions.HasCondition | pkg/condition/condition.go:254-266 | true iff there is a type and every type is visible with status "True" |
| StatusConditions.Conditions.HasAnyCondition | pkg/condition/condition.go:270-283 | true iff some type is visible with status "True" |
| StatusConditions.Conditions.HasConditionCategory | pkg/condition/condition.go:287-307 | true iff a visible condition with status "True" has one of the categories |
| StatusConditions.Conditions.HasBlockerCondition | pkg/condition/condition.go:350-352 | true iff a visible "True" condition is Critical or Error |
| StatusConditions.Conditions.HasCriticalCondition | pkg/condition/condition.go:332-334 | true iff a visible "True" condition is Critical |
| StatusConditions.Conditions.HasErrorCondition | pkg/condition/condition.go:338-340 | true iff a visible "True" condition is Error |
| StatusConditions.Conditions.HasWarnCondition | pkg/condition/condition.go:344-346 | true iff a visible "True" condition is Warn |
| StatusConditions.Conditions.IsReady | pkg/condition/condition.go:356-363 | true iff the Ready condition is visible with status "True" |
| StatusConditions.SetNewThenEnd | pkg/condition/condition.go:400-408 | a staging cycle that sets a new condition reports one added condition that `Empty` as written calls empty |
| Paths.Split | pkg/itinerary/pipeline.go:41-48 | `strings.Split` on "/" always yields at least one part |
| Paths.PathJoin | pkg/itinerary/itinerary.go:67-70 | joining two non-empty paths splits into the parts of both; the result is not cleaned as `path.Clean` would |
| Paths.SplitConcat | pkg/itinerary/itinerary.go:67-70 | splitting at an added slash splits each side |
| Paths.SplitNoSlash | pkg/itinerary/pipeline.go:41-48 | a path without a slash is one part |
| Paths.JoinSplit | pkg/itinerary/runtime/pipeline.go:164-167 | joining the split parts gives the path back |
| Paths.SplitJoin | pkg/itinerary/runtime/pipeline.go:152-167 | splitting a join of slash-free parts gives the parts back |
| ItineraryFlags.AnyNeverExcludes | pkg/itinerary/itinerary.go:92-109 | `hasAny` as written answers true whenever no evaluation errs |
| ItineraryFlags.AnyRefusedStillIncluded | pkg/itinerary/itinerary.go:92-109 | a predicate refusing every flag still includes a step with an `Any` bit set |
| ItineraryFlags.AnyNoErrors | pkg/itinerary/itinerary.go:92-109 | a predicate that never errs makes `hasAny` as written err-free |
| ItineraryFlags.AnyFixedExcludes | pkg/itinerary/itinerary.go:92-109 | the corrected `hasAny` excludes exactly when a predicate is given, some `Any` bit is set, and every flagged evaluation refuses without error |
| ItineraryFlags.AllIncludes | pkg/itinerary/itinerary.go:113-130 | `hasAll` includes without error exactly when there is no predicate or every flagged evaluation accepts without error |
| ItineraryFlags.NoFlagsIncluded | pkg/itinerary/itinerary.go:92-130 | with no bit set both checks include without evaluating |
| ItineraryFlags.NilPredicateIncludes | pkg/itinerary/itinerary.go:92-130 | without a predicate both checks include every step |
| ItineraryFlags.NeverErrsNoErrors | pkg/itinerary/itinerary.go:92-130 | a predicate that never errs makes both checks err-free |
| ItineraryFlags.HasAny | pkg/itinerary/itinerary.go:92-109 | the loop computes `hasAny` as written, which never excludes without an error |
| ItineraryFlags.HasAnyFixed | pkg/itinerary/itinerary.go:92-109 | the loop computes the corrected `hasAny` |
| ItineraryFlags.HasAll | pkg/itinerary/itinerary.go:113-130 | the loop computes `hasAll`, stopping at the first refusal or error |
| ItineraryFlags.Included | pkg/itinerary/itinerary.go:51-63 | with the corrected `hasAny`, a step is included without error iff both checks include it, and a reported error is one of theirs |
| ItineraryFlags.AnyFrom | pkg/itinerary/itinerary.go:92-109 | `hasAny` as written answers true without error, or with the outcome of one flagged evaluation |
| ItineraryFlags.AnyFixedFrom | pkg/itinerary/itinerary.go:92-109 | the corrected `hasAny` answers from one flagged evaluation, or else true exactly when there is no predicate or no `Any` bit |
| ItineraryFlags.AllFrom | pkg/itinerary/itinerary.go:113-130 | `hasAll` answers true without error, or with the outcome of one flagged evaluation |
| ItineraryFlags.IncludedAsWritten | pkg/itinerary/itinerary.go:51-66 | as both builds do it, a step is included without error iff `hasAny` as written does not err and `hasAll` includes it, and a reported error is one of theirs |
| Itinerary.BuildTasksFresh | pkg/itinerary/itinerary.go:64-78 | every task, at every depth, has its path joined under its parent's, total progress 1, is managed, and has no errors |
| Itinerary.BuildTasks | pkg/itinerary/itinerary.go:48-83 | a level never has more tasks than steps |
| Itinerary.Compile | pkg/itinerary/itinerary.go:46-88 | the pipeline has no more top-level tasks than the itinerary has steps; a top-level task's path is its name; a predicate that never errs raises no error |
| Itinerary.BuildTasksErrorFree | pkg/itinerary/itinerary.go:46-88 | with a predicate that never errs, no error arises and each level holds one task per kept step |
| Itinerary.ErrorSticks | pkg/itinerary/itinerary.go:51-63 | a captured error is never cleared |
| Itinerary.KeptSteps | pkg/itinerary/itinerary.go:50-81 | the kept steps are no more than the steps |
| Itinerary.BuildTasksKeepsIncluded | pkg/itinerary/itinerary.go:46-88 | with a predicate that never errs, each level holds exactly the kept steps' names and descriptions, in order, and no error arises |
| Itinerary.NilPredicateKeepsAll | pkg/itinerary/itinerary.go:46-88 | without a predicate every step is kept |
| Itinerary.PlainKept | pkg/itinerary/itinerary.go:92-130 | a step without flags is kept by any predicate |
| Itinerary.FlaggedDropped | pkg/itinerary/itinerary_test.go:17-28 | a step whose `All` is 0x01 is dropped by the test predicate |
| Itinerary.TestPipeline | pkg/itinerary/itinerary_test.go:30-65 | the test itinerary compiles without error to three top-level tasks, and "ONE" keeps two children |
| Itinerary.AnyRefusedStepBuilt | pkg/itinerary/itinerary.go:46-109 | a step whose only `Any` flag the predicate refuses is still compiled into a task |
| ItineraryPipeline.Parent | pkg/itinerary/pipeline.go:41-48 | a top-level path has parent ""; any other parent is one of the path's segments |
| ItineraryPipeline.ParentOfNested | pkg/itinerary/pipeline.go:41-48 | a task whose path joins its parent's path and its name has the parent path's last segment as parent |
| ItineraryPipeline.SummedOfEmpty | pkg/itinerary/pipeline.go:58-74 | summing tasks with no errors and zero progress gives none |
| ItineraryPipeline.Summed | pkg/itinerary/pipeline.go:58-74 | the summed errors are empty iff every task's are |
| ItineraryPipeline.AggregateAsWritten | pkg/itinerary/pipeline.go:52-74 | as written, aggregation leaves a task with no errors and zero progress, whatever its leaves recorded |
| ItineraryPipeline.FailedAsWritten | pkg/itinerary/pipeline.go:78-81 | as written, a task is reported failed only when some leaf recorded an error |
| ItineraryPipeline.LeafErrorHidden | pkg/itinerary/pipeline.go:78-81 | a leaf that recorded an error has a failed leaf, and is reported failed as intended, yet not by `Failed` as written |
| ItineraryPipeline.Aggregate | pkg/itinerary/pipeline.go:52-74 | with leaves keeping their own errors, an aggregated task has errors iff one of its leaves recorded an error, and keeps its number of children |
| ItineraryPipeline.Failed | pkg/itinerary/pipeline.go:78-81 | with corrected aggregation a task has failed iff one of its leaves recorded an error |
| ItineraryPipeline.AggregateIdempotent | pkg/itinerary/pipeline.go:52-74 | aggregating an aggregated tree changes nothing |
| ItineraryPipeline.FlattenConcat | pkg/itinerary/pipeline.go:181-199 | the list of two task runs is the two lists in order |
| ItineraryPipeline.Flatten | pkg/itinerary/pipeline.go:186-189 | no parallel task is listed |
| ItineraryPipeline.FlattenKeepsTopLevel | pkg/itinerary/pipeline.go:181-199 | every non-parallel top-level task is listed |
| ItineraryPipeline.FlattenKeepsChildren | pkg/itinerary/pipeline.go:181-199 | each non-parallel child of a listed task is listed |
| ItineraryPipeline.IndexFrom | pkg/itinerary/pipeline.go:181-199 | indexing only adds paths, and keeps every entry stored under its own path |
| ItineraryPipeline.IndexCoversList | pkg/itinerary/pipeline.go:181-199 | every listed task, and every top-level task including parallel ones, is indexed |
| ItineraryPipeline.BuiltConsistent | pkg/itinerary/pipeline.go:181-199 | the built list and index agree |
| ItineraryPipeline.Pipeline.constructor | pkg/itinerary/pipeline.go:85-96 | a pipeline starts at index 0, unbuilt |
| ItineraryPipeline.Pipeline.Build | pkg/itinerary/pipeline.go:181-199 | `build` is a no-op once built; otherwise the list is the pre-order of non-parallel tasks and the index covers every visited task |
| ItineraryPipeline.Pipeline.BuildFrom | pkg/itinerary/pipeline.go:185-196 | the closure appends the children's listing and indexes them |
| ItineraryPipeline.Pipeline.IndexOf | pkg/itinerary/pipeline.go:130-140 | found iff some listed task has the path, and then the last such position; 0 when not found |
| ItineraryPipeline.Pipeline.Get | pkg/itinerary/pipeline.go:144-148 | found iff the path is indexed, the task has that path, and every listed path is found |
| ItineraryPipeline.Pipeline.Current | pkg/itinerary/pipeline.go:152-161 | the task at `Index`, or the last one past the end; none where Go panics |
| ItineraryPipeline.Pipeline.Next | pkg/itinerary/pipeline.go:165-177 | where Go panics (negative `Index` or empty list) it returns none and keeps `Index`; otherwise `Index` grows by one, done iff it leaves the list, and the task is the one now at `Index`, or the last one when done |
| ItineraryRuntime.Join | pkg/itinerary/runtime/pipeline.go:152-160 | the name alone at the top, else the parent, a slash and the name |
| ItineraryRuntime.SplitJoin | pkg/itinerary/runtime/pipeline.go:152-167 | splitting a join adds the slash-free name as the last part |
| ItineraryRuntime.SplitTopLevel | pkg/itinerary/runtime/pipeline.go:152-167 | a slash-free top-level name splits into itself |
| ItineraryRuntime.JoinSplitParts | pkg/itinerary/runtime/pipeline.go:164-167 | joining the parts of a split gives the path back |
| ItineraryRuntime.PositionsExact | pkg/itinerary/runtime/pipeline.go:127-148 | exactly the listed paths are indexed, each at its last position |
| ItineraryRuntime.DistinctPositions | pkg/itinerary/runtime/pipeline.go:127-148 | with distinct paths every position is indexed under its own path |
| ItineraryRuntime.Runtime.Of | pkg/itinerary/runtime/pipeline.go:40-44 | `Pipeline.Runtime` lists the steps in pre-order and indexes every path |
| ItineraryRuntime.Runtime.Build | pkg/itinerary/runtime/pipeline.go:127-148 | `build` lists the steps in pre-order and maps each joined path to its last position |
| ItineraryRuntime.Runtime.BuildFrom | pkg/itinerary/runtime/pipeline.go:129-145 | the closure appends the pipeline's pre-order listing and keeps the index exact |
| ItineraryRuntime.Runtime.BuildStep | pkg/itinerary/runtime/pipeline.go:131-143 | one pass lists the step, then its nested pipeline |
| ItineraryRuntime.Runtime.GetRef | pkg/itinerary/runtime/pipeline.go:113-124 | found iff some listed step has the path, and then the step at its indexed position |
| ItineraryRuntime.Runtime.Get | pkg/itinerary/runtime/pipeline.go:82-92 | the step at the path, else `StepNotFound` |
| ItineraryRuntime.Runtime.Next | pkg/itinerary/runtime/pipeline.go:96-109 | an unknown path gives `StepNotFound` and done; a known one gives the following listed step, or done iff it is the last |
| ItineraryRuntime.Runtime.WalkReachesDone | pkg/itinerary/pipeline_test.go:82-93 | walking with `Next` from any listed step is done within the number of steps after it |
| ItineraryRuntime.Runtime.WalkVisitsAll | pkg/itinerary/pipeline_test.go:82-93 | with distinct paths the walk takes exactly one call per later step |
| ItineraryRuntime.RefsUnder | pkg/itinerary/runtime/pipeline.go:127-167 | every path listed under a parent splits into the parent's parts followed by more |
| ItinerarySimple.Join | pkg/itinerary/simple.go:130-138 | the name alone at the top, else the parent, a slash and the name |
| ItinerarySimple.PositionsExact | pkg/itinerary/simple.go:105-126 | exactly the listed paths are indexed; a duplicated path keeps its later position |
| ItinerarySimple.DistinctPositions | pkg/itinerary/simple.go:105-126 | with distinct paths every position is indexed under its own path |
| ItinerarySimple.Runtime.Of | pkg/itinerary/simple.go:147-151 | `Pipeline.Runtime` lists the steps in pre-order and indexes every path |
| ItinerarySimple.Runtime.Build | pkg/itinerary/simple.go:105-126 | `build` lists the steps in pre-order and maps each joined path to its last position |
| ItinerarySimple.Runtime.BuildFrom | pkg/itinerary/simple.go:107-123 | the closure appends the pipeline's pre-order listing and keeps the index exact |
| ItinerarySimple.Runtime.BuildStep | pkg/itinerary/simple.go:109-121 | one pass lists the step, then its nested pipeline |
| ItinerarySimple.Runtime.GetRef | pkg/itinerary/simple.go:91-102 | found iff some listed step has the path, and then the step at its indexed position |
| ItinerarySimple.Runtime.Get | pkg/itinerary/simple.go:60-70 | the step at the path, else `StepNotFound` |
| ItinerarySimple.Runtime.Next | pkg/itinerary/simple.go:74-87 | an unknown path gives `StepNotFound` and done; a known one gives the following listed step, or done iff it is the last |
| ItinerarySimple.Runtime.WalkReachesDone | pkg/itinerary/simple.go:74-87 | walking with `Next` from any listed step is done within the number of steps after it |
| ItinerarySimple.Runtime.WalkVisitsAll | pkg/itinerary/simple.go:74-87 | with distinct paths the walk takes exactly one call per later step |
| ItinerarySimple.KeptSteps | pkg/itinerary/simple.go:187-217 | the kept steps are no more than the steps |
| ItinerarySimple.KeptStepsAsWritten | pkg/itinerary/simple.go:187-240 | the steps kept at a level by the checks as written are steps of that level, each kept |
| ItinerarySimple.ExportAsWritten | pkg/itinerary/simple.go:187-217 | the export as written has no more steps than the level, each a step of the level, whole, that the checks as written keep |
| ItinerarySimple.Export | pkg/itinerary/simple.go:187-217 | the corrected export has no more steps than the level, each kept by the corrected checks |
| ItinerarySimple.ExportAsWrittenCopies | pkg/itinerary/simple.go:187-217 | as written, with a predicate that never errs, the export is exactly the kept top-level steps with their nested pipelines untouched |
| ItinerarySimple.ExportAllKept | pkg/itinerary/simple.go:187-217 | the corrected export holds no excluded step at any depth |
| ItinerarySimple.ExportErrorFree | pkg/itinerary/simple.go:187-217 | with a predicate that never errs, the corrected export raises no error and keeps one step per kept step at each level |
| ItinerarySimple.ExportKeepsIncluded | pkg/itinerary/simple.go:187-217 | the corrected export, with a predicate that never errs, keeps each level's kept steps' names in order and raises no error |
| ItinerarySimple.TestOneFlags | pkg/itinerary/itinerary_test.go:17-60 | in the test's first step, "B" is excluded and "A" and "C" are kept |
| ItinerarySimple.ExportKeepsExcludedChild | pkg/itinerary/simple.go:209 | as written, the exported "ONE" still holds the excluded "B" |
| ItinerarySimple.ExportDropsExcludedChild | pkg/itinerary/simple.go:187-217 | the corrected export of "ONE" holds two nested steps: the excluded "B" is gone |
| ItinerarySimple.ExportAnyRefused | pkg/itinerary/simple.go:187-240 | a step whose only `Any` flag the predicate refuses is exported as written, and dropped by the corrected export |

## Left out

- SQL and sqlite: `database/sql`, the DDL and table mapper, `PRAGMA`, and `Client.Open`'s file handling. The tables are maps keyed by (kind, pk), and each database call's outcome is a parameter. A closed client is modelled only by its nil handle: writes outside a transaction and `Begin` panic (`Panicked`), while writes and `Commit`/`End` inside a transaction begun before `Close` behave as on an open client; whether `database/sql` lets such a transaction go on after `db.Close()` is not part of this model.
- `Client.Get`, `List`, `Count`, `Watch`, `Journal` and `origin` are thin pass-throughs to the table mapper or the journal. They are not modelled.
- JSON and reflection: `EventHistory.With` is modelled as `Row` over an opaque encoding. `Watch.event` and `newModel` are left out, so a row's model is not decoded.
- Concurrency: the goroutine in `Watch.Start`, the capacity-3 queue, the mutexes and the recover-around-send idiom. A queued wake is a counter, and the run loop is the explicit `Wake` and `Finish` steps.
- controller-runtime and Kubernetes: manager, controller and `controller.Watch` are outcome parameters. `ref.ToKind` is an uninterpreted kind function that is not assumed injective. `pkg/ref` is not part of this model.
- Time and event recording: `LastTransitionTime` is a parameter. `RecordEvents` and the recorder are left out.
- The `Timed` mixin, with `Succeeded` and `Running`, and the tasks' annotations and resources are not part of this model.
- The file-backed queue's files, gob encoding, uuid naming, `Close` and short reads from `file.Read` are left out. A read returns the bytes present or end-of-file.
- Error stacks from `runtime.Callers` are an opaque parameter.
- InventoryClient.LabelsOf: lists a model's labels in one fixed order, whereas Go ranges over the `Labels()` map in random order; which labels were written before a failure therefore depends on that order.
- ItineraryPipeline.Pipeline.Current: returns none where Go panics on an empty list or a negative index.
- ItineraryPipeline.Pipeline.Next: does not model the always-nil error result.
- ItineraryPipeline.Aggregate: works on task values rather than in place, so pointer aliasing of tasks is not modelled.
- Tasks and steps are values, so a caller mutating a task reached through `Get` is not modelled.
- Progress counters are unbounded, so `int64` overflow is not modelled.
- Paths.PathJoin: does not model `path.Clean`. A step named `.` or `..` gets the path `parent/.` or `parent/..` here, where Go cleans it to `parent` or to `parent`'s own parent (`.` when `parent` is one segment); repeated or trailing slashes and `.`/`..` inside the parent path are not cleaned either.
- Itinerary.BuildTasksFresh: a nested task's path is `Paths.PathJoin` of its parent's path and its name, so it is Go's path only for step names other than `.` and `..` and clean parent paths.
- Fbq.Queue.Add: a catalog longer than 65536 types gives kinds that wrap as Go's `uint16` conversion does, so such a queue cannot tell types apart; the model reduces the kind modulo 65536 and proves the round trip only for kinds below that.
- ErrorWrap.Wrap: an `*Error` is a value here, so the context that Go appends in place to a shared `*Error` (pkg/error/wrap.go:23-26) is not seen by other holders of the same pointer.
- RemoteRegistry.Remote.TakeWorkload: requires the other remote to be a different object; Go with the same remote would splice its own lists while iterating.
- StatusConditions.Update: nil and empty `Items` are the same sequence.

## Findings

| source | as written | input that shows it | evidently intended | confidence | as-written member | corrected member |
|---|---|---|---|---|---|---|
| pkg/condition/condition.go:400-402 | `Len` adds `len(Updated)` twice and never counts `Added` | a staging cycle that only sets one new condition: its delta has one added condition and `Empty()` is true | `Len` counts added, updated and deleted conditions once each | high, not executed | StatusConditions.AddedDeltaReportsEmpty | StatusConditions.EmptyIffNoChange |
| pkg/itinerary/itinerary.go:92-109 | `pTrue = true` after the loop, whatever was evaluated | a predicate refusing flag 0x01 and a step with `Any` = 0x01: the step is included | a step is included only when some flagged `Any` evaluation accepts | high, not executed | ItineraryFlags.AnyRefusedStillIncluded | ItineraryFlags.AnyFixedExcludes |
| pkg/remote/watch.go:207-215 | the watch loop runs before `started = true`, and `Watch.start` does nothing on an unstarted remote | a remote with one ensured watch, started successfully: the watch is never installed | `started` is set before the loop so every watch is installed | medium, not executed | RemoteRegistry.StartLeavesWatchesUninstalled | RemoteRegistry.StartFixedInstallsWatches |
| pkg/watch/remote.go:124-157 | `watches` is assigned before the loop, so `Watch(w)` finds each `w` already recorded | a first `Start` with one watch: nothing is installed | each given watch is installed on the first start | medium, not executed | RemoteWatch.StartInstallsNothing | RemoteWatch.StartFixedInstalls |
| pkg/inventory/model/client.go:153-157 | `dbMutex` is locked and not released when `db.Begin` fails | a failed `Begin` followed by `Insert` outside a transaction: the insert waits forever | the write lock is released when the transaction cannot begin | high, not executed | InventoryClient.BeginFailureWedges | InventoryClient.BeginFailureRecovers |
| pkg/itinerary/pipeline.go:58-81 | `aggregate` resets every task's errors and progress, leaves included, before summing | a leaf that recorded an error: `Failed()` is false | leaves keep their own errors and progress, so `Failed` reports any failed leaf | high, not executed | ItineraryPipeline.LeafErrorHidden | ItineraryPipeline.Failed |
| pkg/itinerary/simple.go:209 | the recursive `build` result is discarded and the kept step is copied whole | the test itinerary's "ONE" with the excluded "B": the export still holds "B" | a kept step carries its filtered nested pipeline | medium, not executed | ItinerarySimple.ExportKeepsExcludedChild | ItinerarySimple.ExportDropsExcludedChild |
