/**
 * The registry of remote clusters (package `remote`). A `Container` maps an
 * owner object's key to a `Remote`. A remote holds a list of watches, at most
 * one per kind, and a list of relays, at most one per (subject kind,
 * controller). Once started, each watch is installed on the remote's own
 * controller with a `Forward` predicate, which sends an event into every relay
 * whose subject has the kind of the event's object.
 *
 * Watches and relays are values held in the remote's lists; the manager and
 * controllers are reached only through the outcomes in `Env`. A relay's event
 * channel is a `ChanState`; an event sent into an open channel is appended to
 * the remote's `sent` trace. The remote's `done` channel is never made, so
 * closing it panics; `Shutdown` reproduces that.
 */
module RemoteRegistry {
  import opened Wrappers
  import opened Kube

  /** A watch: the watched subject, its predicates, and whether it has been installed. */
  datatype Watch = Watch(subject: Resource, predicates: seq<string>, started: bool)

  /**
   * A relay: the object events are reported about, the controller they are
   * relayed to, the watch naming the subject, its event channel, and whether it
   * has been installed on the controller.
   */
  datatype Relay = Relay(target: Resource, controller: ControllerId, watch: Watch,
                         chan: ChanState, installed: bool)

  /** Outcomes of the calls into the controller runtime made by one operation. */
  datatype Env = Env(managerOk: bool, controllerOk: bool, watchOk: bool, installOk: bool)

  /** `Relay.Subject`. */
  function Subject(r: Relay): Resource {
    r.watch.subject
  }

  /** `Watch.Match`: same kind as the object. */
  predicate WatchMatch(w: Watch, obj: Resource) {
    ToKind(w.subject) == ToKind(obj)
  }

  /** `Relay.Match`: same subject kind and same controller. */
  predicate RelayMatch(a: Relay, b: Relay) {
    WatchMatch(a.watch, b.watch.subject) && a.controller == b.controller
  }

  /** A relay reports installed only once its channel has been made. */
  predicate WellFormed(r: Relay) {
    r.installed ==> r.chan != NilChan
  }

  /** The kinds of the watches, in order. */
  function Kinds(ws: seq<Watch>): (r: seq<Kind>)
    ensures |r| == |ws|
    ensures forall i :: 0 <= i < |ws| ==> r[i] == ToKind(ws[i].subject)
  {
    seq(|ws|, i requires 0 <= i < |ws| => ToKind(ws[i].subject))
  }

  /** Whether a watch of the object's kind is present. */
  predicate HasWatch(ws: seq<Watch>, obj: Resource) {
    ToKind(obj) in Kinds(ws)
  }

  /** Whether a relay matching `relay` is present. */
  predicate HasRelay(rs: seq<Relay>, relay: Relay) {
    exists i :: 0 <= i < |rs| && RelayMatch(rs[i], relay)
  }

  /** No two watches of one kind. */
  ghost predicate WatchesDistinct(ws: seq<Watch>) {
    forall i, j :: 0 <= i < j < |ws| ==> Kinds(ws)[i] != Kinds(ws)[j]
  }

  /** No two relays matching each other, and every relay installed with its channel made. */
  ghost predicate RelaysValid(rs: seq<Relay>) {
    (forall i, j :: 0 <= i < j < |rs| ==> !RelayMatch(rs[i], rs[j])) &&
    (forall i :: 0 <= i < |rs| ==> rs[i].installed && rs[i].chan != NilChan)
  }

  /** The lists after `ensureWatch`: a new kind is appended, and installed when the remote is started. */
  datatype WatchResult = WatchResult(watches: seq<Watch>, err: bool)

  function EnsureWatchSpec(ws: seq<Watch>, w: Watch, started: bool, watchOk: bool): (r: WatchResult)
    ensures HasWatch(r.watches, w.subject)
    ensures |ws| <= |r.watches| <= |ws| + 1 && r.watches[..|ws|] == ws
    ensures |r.watches| == |ws| + 1 <==> !HasWatch(ws, w.subject)
    ensures |r.watches| == |ws| + 1 ==> r.watches[|ws|].started == (w.started || (started && watchOk))
    ensures r.err <==> !HasWatch(ws, w.subject) && !w.started && started && !watchOk
  {
    if HasWatch(ws, w.subject) then WatchResult(ws, false)
    else
      var added := if w.started || !started || !watchOk then w else w.(started := true);
      assert Kinds(ws + [added])[|ws|] == ToKind(w.subject);
      WatchResult(ws + [added], !w.started && started && !watchOk)
  }

  /** `ensureWatch` keeps one watch per kind and always leaves the kind watched. */
  lemma EnsureWatchKeepsDistinct(ws: seq<Watch>, w: Watch, started: bool, watchOk: bool)
    requires WatchesDistinct(ws)
    ensures var r := EnsureWatchSpec(ws, w, started, watchOk).watches;
      WatchesDistinct(r) && HasWatch(r, w.subject) &&
      |r| <= |ws| + 1 && r[..|ws|] == ws
  {
    var r := EnsureWatchSpec(ws, w, started, watchOk).watches;
    if !HasWatch(ws, w.subject) {
      assert Kinds(r) == Kinds(ws) + [ToKind(w.subject)];
    }
  }

  /**
   * `Relay.Install`: an uninstalled relay is watched by its controller, which
   * makes its channel, and is then marked installed; when that watch fails the
   * relay is left as it was.
   */
  function Install(relay: Relay, env: Env): (r: Relay)
    ensures r.installed <==> relay.installed || env.installOk
    ensures r.target == relay.target && r.controller == relay.controller && r.watch == relay.watch
    ensures relay.installed || !env.installOk ==> r == relay
    ensures !relay.installed && env.installOk ==> r.chan == OpenChan
  {
    if relay.installed || !env.installOk then relay else relay.(installed := true, chan := OpenChan)
  }

  /** The lists after `EnsureRelay`. */
  datatype RelayResult = RelayResult(relays: seq<Relay>, watches: seq<Watch>, err: bool)

  function EnsureRelaySpec(rs: seq<Relay>, ws: seq<Watch>, relay: Relay, started: bool, env: Env): (r: RelayResult)
    ensures |rs| <= |r.relays| <= |rs| + 1 && r.relays[..|rs|] == rs
    ensures |ws| <= |r.watches| && r.watches[..|ws|] == ws
    ensures |r.relays| == |rs| + 1 ==> !HasRelay(rs, relay) && r.relays[|rs|] == Install(relay, env) && r.relays[|rs|].installed
    ensures HasRelay(rs, relay) ==> r == RelayResult(rs, ws, false)
    ensures !r.err <==> |r.relays| == |rs| + 1 || HasRelay(rs, relay)
  {
    if HasRelay(rs, relay) then RelayResult(rs, ws, false)
    else if !relay.installed && !env.installOk then RelayResult(rs, ws, true)
    else
      var installed := Install(relay, env);
      var w := EnsureWatchSpec(ws, Watch(Subject(relay), [], false), started, env.watchOk);
      if w.err then RelayResult(rs, w.watches, true)
      else RelayResult(rs + [installed], w.watches, false)
  }

  /** `RelayMatch` compares (subject kind, controller) pairs, so it is an equivalence. */
  lemma RelayMatchEquivalence(a: Relay, b: Relay, c: Relay)
    ensures RelayMatch(a, a)
    ensures RelayMatch(a, b) ==> RelayMatch(b, a)
    ensures RelayMatch(a, b) && RelayMatch(b, c) ==> RelayMatch(a, c)
  {
  }

  /**
   * `EnsureRelay` keeps relays pairwise non-matching and installed, keeps one
   * watch per kind, and on success leaves a matching relay and a watch of its
   * subject kind in place.
   */
  lemma EnsureRelayKeepsValid(rs: seq<Relay>, ws: seq<Watch>, relay: Relay, started: bool, env: Env)
    requires RelaysValid(rs) && WatchesDistinct(ws) && WellFormed(relay)
    ensures var r := EnsureRelaySpec(rs, ws, relay, started, env);
      RelaysValid(r.relays) && WatchesDistinct(r.watches) &&
      (!r.err ==> HasRelay(r.relays, relay)) &&
      (!r.err && !HasRelay(rs, relay) ==> HasWatch(r.watches, Subject(relay))) &&
      |r.relays| <= |rs| + 1
  {
    var r := EnsureRelaySpec(rs, ws, relay, started, env);
    if !HasRelay(rs, relay) && (relay.installed || env.installOk) {
      EnsureWatchKeepsDistinct(ws, Watch(Subject(relay), [], false), started, env.watchOk);
      if !r.err {
        var n := |rs|;
        assert r.relays[n].watch == relay.watch && r.relays[n].controller == relay.controller;
        forall i, j | 0 <= i < j < |r.relays|
          ensures !RelayMatch(r.relays[i], r.relays[j])
        {
          if j == n {
            assert !RelayMatch(rs[i], relay);
          }
        }
        assert RelayMatch(r.relays[n], relay);
      }
    }
  }

  /** The watches after taking over `theirs`, one at a time, each reset to not started. */
  function TakeWatches(ws: seq<Watch>, theirs: seq<Watch>, started: bool, watchOk: bool): (r: seq<Watch>)
    ensures |ws| <= |r| <= |ws| + |theirs| && r[..|ws|] == ws
    decreases |theirs|
  {
    if |theirs| == 0 then ws
    else
      var prev := TakeWatches(ws, theirs[..|theirs| - 1], started, watchOk);
      EnsureWatchSpec(prev, theirs[|theirs| - 1].(started := false), started, watchOk).watches
  }

  /** Taking over watches keeps one per kind and leaves every kind taken over watched. */
  lemma {:induction false} TakeWatchesCovers(ws: seq<Watch>, theirs: seq<Watch>, started: bool, watchOk: bool)
    requires WatchesDistinct(ws)
    ensures var r := TakeWatches(ws, theirs, started, watchOk);
      WatchesDistinct(r) &&
      (forall i :: 0 <= i < |ws| ==> HasWatch(r, ws[i].subject)) &&
      (forall i :: 0 <= i < |theirs| ==> HasWatch(r, theirs[i].subject))
    decreases |theirs|
  {
    if |theirs| > 0 {
      var init := theirs[..|theirs| - 1];
      var prev := TakeWatches(ws, init, started, watchOk);
      TakeWatchesCovers(ws, init, started, watchOk);
      var w := theirs[|theirs| - 1].(started := false);
      EnsureWatchKeepsDistinct(prev, w, started, watchOk);
      var r := TakeWatches(ws, theirs, started, watchOk);
      assert r[..|prev|] == prev;
      forall o: Resource | HasWatch(prev, o)
        ensures HasWatch(r, o)
      {
        var k :| 0 <= k < |prev| && Kinds(prev)[k] == ToKind(o);
        assert r[k] == prev[k];
      }
      forall i | 0 <= i < |theirs|
        ensures HasWatch(r, theirs[i].subject)
      {
        if i < |theirs| - 1 {
          assert theirs[i] == init[i];
        }
      }
    }
  }

  /** The lists after taking over `theirs` relays one at a time; failures are ignored. */
  function TakeRelays(rs: seq<Relay>, ws: seq<Watch>, theirs: seq<Relay>, started: bool, env: Env): (r: RelayResult)
    ensures !r.err
    ensures |rs| <= |r.relays| <= |rs| + |theirs| && r.relays[..|rs|] == rs
    ensures |ws| <= |r.watches| && r.watches[..|ws|] == ws
    decreases |theirs|
  {
    if |theirs| == 0 then RelayResult(rs, ws, false)
    else
      var prev := TakeRelays(rs, ws, theirs[..|theirs| - 1], started, env);
      var r := EnsureRelaySpec(prev.relays, prev.watches, theirs[|theirs| - 1], started, env);
      RelayResult(r.relays, r.watches, false)
  }

  /** Taking over relays keeps the lists valid. */
  lemma {:induction false} TakeRelaysKeepsValid(rs: seq<Relay>, ws: seq<Watch>, theirs: seq<Relay>, started: bool, env: Env)
    requires RelaysValid(rs) && WatchesDistinct(ws)
    requires forall i :: 0 <= i < |theirs| ==> WellFormed(theirs[i])
    ensures var r := TakeRelays(rs, ws, theirs, started, env);
      RelaysValid(r.relays) && WatchesDistinct(r.watches)
    decreases |theirs|
  {
    if |theirs| > 0 {
      var prev := TakeRelays(rs, ws, theirs[..|theirs| - 1], started, env);
      TakeRelaysKeepsValid(rs, ws, theirs[..|theirs| - 1], started, env);
      EnsureRelayKeepsValid(prev.relays, prev.watches, theirs[|theirs| - 1], started, env);
    }
  }

  /** The relays without those matching `relay`, in order. */
  function RemoveMatching(rs: seq<Relay>, relay: Relay): (r: seq<Relay>)
    ensures |r| <= |rs|
  {
    if |rs| == 0 then []
    else RemoveMatching(rs[..|rs| - 1], relay) + (if RelayMatch(rs[|rs| - 1], relay) then [] else [rs[|rs| - 1]])
  }

  /** With no matching relay, nothing is removed. */
  lemma {:induction false} RemoveNoMatch(rs: seq<Relay>, relay: Relay)
    requires forall i :: 0 <= i < |rs| ==> !RelayMatch(rs[i], relay)
    ensures RemoveMatching(rs, relay) == rs
  {
    if |rs| > 0 {
      RemoveNoMatch(rs[..|rs| - 1], relay);
    }
  }

  /** Removing leaves no matching relay, and keeps every other relay. */
  lemma {:induction false} RemoveMatchingExact(rs: seq<Relay>, relay: Relay, x: Relay)
    ensures x in RemoveMatching(rs, relay) <==> x in rs && !RelayMatch(x, relay)
  {
    if |rs| > 0 {
      RemoveMatchingExact(rs[..|rs| - 1], relay, x);
      assert rs == rs[..|rs| - 1] + [rs[|rs| - 1]];
    }
  }

  /** Among pairwise non-matching relays at most one matches a given relay. */
  lemma AtMostOneMatch(rs: seq<Relay>, relay: Relay, i: nat, j: nat)
    requires RelaysValid(rs)
    requires i < |rs| && j < |rs| && RelayMatch(rs[i], relay) && RelayMatch(rs[j], relay)
    ensures i == j
  {
    if i < j {
      assert RelayMatch(rs[i], rs[j]);
    } else if j < i {
      assert RelayMatch(rs[j], rs[i]);
    }
  }

  /** `Relay.shutdown`: an open channel is closed; closing a nil or closed one panics and nothing changes. */
  function ShutdownRelay(r: Relay): (s: Relay)
    ensures s.chan == (if r.chan == OpenChan then ClosedChan else r.chan)
    ensures s.(chan := r.chan) == r
  {
    if r.chan == OpenChan then r.(chan := ClosedChan) else r
  }

  /** The relays an event about `obj` is delivered to by `Forward`: open relays of the object's kind. */
  function Deliveries(rs: seq<Relay>, obj: Resource): (r: seq<Resource>)
    ensures |r| <= |rs|
    ensures (forall i :: 0 <= i < |rs| ==> rs[i].chan != OpenChan) ==> r == []
  {
    if |rs| == 0 then []
    else
      var last := rs[|rs| - 1];
      Deliveries(rs[..|rs| - 1], obj) +
        (if WatchMatch(Watch(obj, [], false), Subject(last)) && last.chan == OpenChan then [last.target] else [])
  }

  /**
   * An event about a relay's target is sent iff that relay is open and its
   * subject has the kind of the forwarded object.
   */
  lemma {:induction false} DeliveriesExact(rs: seq<Relay>, obj: Resource, target: Resource)
    ensures target in Deliveries(rs, obj) <==>
      exists i :: 0 <= i < |rs| && rs[i].target == target && ToKind(Subject(rs[i])) == ToKind(obj) && rs[i].chan == OpenChan
  {
    if |rs| > 0 {
      DeliveriesExact(rs[..|rs| - 1], obj, target);
      var init := rs[..|rs| - 1];
      if exists i :: 0 <= i < |rs| && rs[i].target == target && ToKind(Subject(rs[i])) == ToKind(obj) && rs[i].chan == OpenChan {
        var i :| 0 <= i < |rs| && rs[i].target == target && ToKind(Subject(rs[i])) == ToKind(obj) && rs[i].chan == OpenChan;
        if i < |rs| - 1 {
          assert init[i] == rs[i];
        }
      }
      if exists i :: 0 <= i < |init| && init[i].target == target && ToKind(Subject(init[i])) == ToKind(obj) && init[i].chan == OpenChan {
        var i :| 0 <= i < |init| && init[i].target == target && ToKind(Subject(init[i])) == ToKind(obj) && init[i].chan == OpenChan;
        assert rs[i] == init[i];
      }
    }
  }

  /** A remote cluster. */
  class Remote {
    const name: string
    const restCfg: Option<RestConfig>
    /** The `done` channel handed to the manager; never made. */
    const done: ChanState
    var watches: seq<Watch>
    var relays: seq<Relay>
    var started: bool
    var hasController: bool
    /** Events sent into relay channels: each event's object (the relay's target), in order. */
    var sent: seq<Resource>

    ghost predicate Valid()
      reads this
    {
      WatchesDistinct(watches) && RelaysValid(relays)
    }

    /** `&Remote{Name, RestCfg}`. */
    constructor (name: string, restCfg: Option<RestConfig>)
      ensures Valid() && this.name == name && this.restCfg == restCfg && done == NilChan
      ensures watches == [] && relays == [] && !started && !hasController && sent == []
    {
      this.name, this.restCfg, done := name, restCfg, NilChan;
      watches, relays, started, hasController, sent := [], [], false, false, [];
    }

    /** `Equals`: the REST configurations are deep-equal. */
    predicate Equals(other: Remote) {
      other.restCfg == restCfg
    }

    /** `Watch.start` on the `i`-th watch: installs it once the remote is started. */
    method StartWatch(i: nat, env: Env) returns (err: bool)
      requires i < |watches|
      modifies this`watches
      ensures old(watches[i].started) || !started ==> !err && watches == old(watches)
      ensures !old(watches[i].started) && started ==>
        err == !env.watchOk &&
        watches == (if env.watchOk then old(watches)[i := old(watches[i]).(started := true)] else old(watches))
    {
      if watches[i].started || !started {
        return false;
      }
      if !env.watchOk {
        return true;
      }
      watches := watches[i := watches[i].(started := true)];
      err := false;
    }

    /**
     * `Start` as written: a started remote is left alone; without a
     * configuration it fails. The watch loop runs before `started` is set, so
     * no watch is installed by it.
     */
    method Start(env: Env) returns (err: Option<string>)
      requires Valid()
      modifies this`watches, this`started, this`hasController
      ensures Valid()
      ensures watches == old(watches)
      ensures old(started) ==> err.None? && started
      ensures !old(started) && restCfg.None? ==> err == Some("not configured") && !started
      ensures !old(started) && restCfg.Some? ==>
        (err.None? <==> env.managerOk && env.controllerOk) && (started <==> err.None?)
    {
      if started {
        return None;
      }
      if restCfg.None? {
        return Some("not configured");
      }
      if !env.managerOk {
        return Some("manager");
      }
      if !env.controllerOk {
        return Some("controller");
      }
      hasController := true;
      var i := 0;
      while i < |watches|
        invariant 0 <= i <= |watches|
        invariant watches == old(watches) && !started
      {
        var e := StartWatch(i, env);
        if e {
          return Some("watch");
        }
        i := i + 1;
      }
      started := true;
      err := None;
    }

    /** `Start` marking the remote started before its watch loop, so every watch gets installed. */
    method StartFixed(env: Env) returns (err: Option<string>)
      requires Valid()
      modifies this`watches, this`started, this`hasController
      ensures Valid()
      ensures Kinds(watches) == Kinds(old(watches))
      ensures old(started) ==> err.None? && started && watches == old(watches)
      ensures !old(started) && restCfg.None? ==> err == Some("not configured") && !started
      ensures !old(started) && restCfg.Some? && !(env.managerOk && env.controllerOk) ==> err.Some? && !started
      ensures !old(started) && err.None? ==> started && forall i :: 0 <= i < |watches| ==> watches[i].started
      ensures !old(started) && restCfg.Some? && env.managerOk && env.controllerOk && env.watchOk ==> err.None?
    {
      if started {
        return None;
      }
      if restCfg.None? {
        return Some("not configured");
      }
      if !env.managerOk {
        return Some("manager");
      }
      if !env.controllerOk {
        return Some("controller");
      }
      hasController := true;
      started := true;
      var i := 0;
      while i < |watches|
        invariant 0 <= i <= |watches|
        invariant Kinds(watches) == Kinds(old(watches)) && started
        invariant forall j :: 0 <= j < i ==> watches[j].started
      {
        var e := StartWatch(i, env);
        if e {
          return Some("watch");
        }
        assert Kinds(watches) == Kinds(old(watches));
        i := i + 1;
      }
      err := None;
    }

    /** `hasWatch`: whether a watch of the object's kind is present. */
    method FindWatch(obj: Resource) returns (found: bool)
      ensures found <==> HasWatch(watches, obj)
    {
      var i := 0;
      while i < |watches|
        invariant 0 <= i <= |watches|
        invariant forall j :: 0 <= j < i ==> Kinds(watches)[j] != ToKind(obj)
      {
        if WatchMatch(watches[i], obj) {
          return true;
        }
        i := i + 1;
      }
      found := false;
    }

    /** `hasRelay`: whether a relay matching `relay` is present. */
    method FindRelay(relay: Relay) returns (found: bool)
      ensures found <==> HasRelay(relays, relay)
    {
      var i := 0;
      while i < |relays|
        invariant 0 <= i <= |relays|
        invariant forall j :: 0 <= j < i ==> !RelayMatch(relays[j], relay)
      {
        if RelayMatch(relays[i], relay) {
          return true;
        }
        i := i + 1;
      }
      found := false;
    }

    /** `ensureWatch` (and `EnsureWatch`): appends a watch of a new kind, then tries to install it. */
    method EnsureWatch(w: Watch, env: Env) returns (err: bool)
      requires Valid()
      modifies this`watches
      ensures Valid()
      ensures WatchResult(watches, err) == EnsureWatchSpec(old(watches), w, started, env.watchOk)
    {
      EnsureWatchKeepsDistinct(watches, w, started, env.watchOk);
      var has := FindWatch(w.subject);
      if has {
        return false;
      }
      ghost var ws0 := watches;
      watches := watches + [w];
      err := StartWatch(|watches| - 1, env);
      assert (ws0 + [w])[|ws0| := w.(started := true)] == ws0 + [w.(started := true)];
    }

    /**
     * `EnsureRelay`: installs and appends a relay that matches none present,
     * watching its subject. `after` is the caller's relay as `Install` leaves
     * it, which stays installed even when the watch then fails.
     */
    method EnsureRelay(relay: Relay, env: Env) returns (err: bool, after: Relay)
      requires Valid() && WellFormed(relay)
      modifies this`watches, this`relays
      ensures Valid()
      ensures RelayResult(relays, watches, err) == EnsureRelaySpec(old(relays), old(watches), relay, started, env)
      ensures after == (if HasRelay(old(relays), relay) then relay else Install(relay, env))
    {
      EnsureRelayKeepsValid(relays, watches, relay, started, env);
      after := relay;
      var has := FindRelay(relay);
      if has {
        return false, after;
      }
      if !relay.installed {
        if !env.installOk {
          return true, after;
        }
        after := relay.(installed := true, chan := OpenChan);
      }
      err := EnsureWatch(Watch(Subject(relay), [], false), env);
      if err {
        return true, after;
      }
      relays := relays + [after];
    }

    /**
     * `EndRelay`: removes the relay matching `relay` and shuts it down; the
     * other relays keep their order. The loop splices the list it ranges over,
     * which is sound here because at most one relay matches.
     */
    method EndRelay(relay: Relay) returns (ended: seq<Relay>)
      requires Valid()
      modifies this`relays
      ensures Valid()
      ensures relays == RemoveMatching(old(relays), relay)
      ensures |ended| <= 1
      ensures forall i :: 0 <= i < |ended| ==>
        exists j :: 0 <= j < |old(relays)| && RelayMatch(old(relays)[j], relay) && ended[i] == ShutdownRelay(old(relays)[j])
    {
      var snapshot := relays;
      ended := [];
      var i := 0;
      ghost var hit: Option<nat> := None;
      while i < |snapshot|
        invariant 0 <= i <= |snapshot|
        invariant hit.None? ==> (relays == snapshot && ended == [] &&
          forall j :: 0 <= j < i ==> !RelayMatch(snapshot[j], relay))
        invariant hit.Some? ==> (hit.value < i && RelayMatch(snapshot[hit.value], relay) &&
          relays == snapshot[..hit.value] + snapshot[hit.value + 1..] &&
          ended == [ShutdownRelay(snapshot[hit.value])])
      {
        if RelayMatch(snapshot[i], relay) {
          if hit.Some? {
            assert false;
          }
          relays := relays[..i] + relays[i + 1..];
          ended := ended + [ShutdownRelay(snapshot[i])];
          hit := Some(i);
        }
        i := i + 1;
      }
      if hit.None? {
        RemoveNoMatch(snapshot, relay);
      } else {
        var h := hit.value;
        RemoveNoMatch(snapshot[..h], relay);
        forall j | h < j < |snapshot|
          ensures !RelayMatch(snapshot[j], relay)
        {
          if RelayMatch(snapshot[j], relay) {
            AtMostOneMatch(snapshot, relay, h, j);
          }
        }
        RemoveSplit(snapshot, relay, h);
        SpliceKeepsValid(snapshot, h);
      }
    }

    /** `Reset`: drops all watches and relays. */
    method Reset()
      modifies this`watches, this`relays
      ensures watches == [] && relays == []
    {
      watches, relays := [], [];
    }

    /**
     * `Shutdown`: shuts every relay down, then closes `done`; closing the
     * never-made channel panics, so `started` stays as it was.
     */
    method Shutdown()
      requires Valid()
      modifies this`relays, this`started
      ensures Valid()
      ensures |relays| == |old(relays)| && forall i :: 0 <= i < |relays| ==> relays[i] == ShutdownRelay(old(relays)[i])
      ensures done == NilChan ==> started == old(started)
      ensures done != NilChan ==> !started
    {
      var i := 0;
      while i < |relays|
        invariant 0 <= i <= |relays| == |old(relays)|
        invariant forall j :: 0 <= j < i ==> relays[j] == ShutdownRelay(old(relays)[j])
        invariant forall j :: i <= j < |relays| ==> relays[j] == old(relays)[j]
        invariant started == old(started)
      {
        relays := relays[i := ShutdownRelay(relays[i])];
        i := i + 1;
      }
      if done == NilChan {
        return;
      }
      started := false;
    }

    /**
     * `TakeWorkload`: ensures each of the other remote's watches (reset) and
     * relays here, ignoring failures, then resets the other remote.
     */
    method TakeWorkload(other: Remote, env: Env)
      requires Valid() && other != this
      requires forall i :: 0 <= i < |other.relays| ==> WellFormed(other.relays[i])
      modifies this`watches, this`relays, other`watches, other`relays
      ensures Valid()
      ensures var ws := TakeWatches(old(watches), old(other.watches), started, env.watchOk);
        var r := TakeRelays(old(relays), ws, old(other.relays), started, env);
        watches == r.watches && relays == r.relays
      ensures other.watches == [] && other.relays == []
    {
      AdoptWatches(other.watches, env);
      AdoptRelays(other.relays, env);
      other.Reset();
    }

    /** The first loop of `TakeWorkload`: ensures each of `theirs` here, reset to not started, ignoring failures. */
    method AdoptWatches(theirs: seq<Watch>, env: Env)
      requires Valid()
      modifies this`watches
      ensures Valid()
      ensures watches == TakeWatches(old(watches), theirs, started, env.watchOk)
    {
      var i := 0;
      while i < |theirs|
        invariant 0 <= i <= |theirs|
        invariant Valid()
        invariant watches == TakeWatches(old(watches), theirs[..i], started, env.watchOk)
      {
        assert theirs[..i + 1][..i] == theirs[..i];
        var _ := EnsureWatch(theirs[i].(started := false), env);
        i := i + 1;
      }
      assert theirs[..i] == theirs;
    }

    /** The second loop of `TakeWorkload`: ensures each of `theirs` relays here, ignoring failures. */
    method AdoptRelays(theirs: seq<Relay>, env: Env)
      requires Valid()
      requires forall i :: 0 <= i < |theirs| ==> WellFormed(theirs[i])
      modifies this`watches, this`relays
      ensures Valid()
      ensures RelayResult(relays, watches, false) == TakeRelays(old(relays), old(watches), theirs, started, env)
    {
      var k := 0;
      while k < |theirs|
        invariant 0 <= k <= |theirs|
        invariant Valid()
        invariant RelayResult(relays, watches, false) == TakeRelays(old(relays), old(watches), theirs[..k], started, env)
      {
        assert theirs[..k + 1][..k] == theirs[..k];
        var _, _ := EnsureRelay(theirs[k], env);
        k := k + 1;
      }
      assert theirs[..k] == theirs;
    }

    /**
     * `Forward.Create/Update/Delete/Generic`: sends the event into every relay
     * whose subject has the kind of the event's object, and reports false.
     */
    method Forward(obj: Resource) returns (r: bool)
      requires Valid()
      modifies this`sent
      ensures !r
      ensures sent == old(sent) + Deliveries(relays, obj)
    {
      var i := 0;
      while i < |relays|
        invariant 0 <= i <= |relays|
        invariant sent == old(sent) + Deliveries(relays[..i], obj)
      {
        var relay := relays[i];
        assert relays[..i + 1][..i] == relays[..i];
        if WatchMatch(Watch(obj, [], false), Subject(relay)) {
          if relay.chan == OpenChan {
            sent := sent + [relay.target];
          }
        }
        i := i + 1;
      }
      assert relays[..i] == relays;
      r := false;
    }
  }

  /** Splicing one relay out keeps the rest pairwise non-matching and installed. */
  lemma SpliceKeepsValid(rs: seq<Relay>, h: nat)
    requires RelaysValid(rs) && h < |rs|
    ensures RelaysValid(rs[..h] + rs[h + 1..])
  {
    var r := rs[..h] + rs[h + 1..];
    forall i | 0 <= i < |r|
      ensures r[i] == rs[if i < h then i else i + 1]
    {
    }
  }

  /** Removing the one matching relay at `h` is the splice at `h`. */
  lemma {:induction false} RemoveSplit(rs: seq<Relay>, relay: Relay, h: nat)
    requires h < |rs| && RelayMatch(rs[h], relay)
    requires RemoveMatching(rs[..h], relay) == rs[..h]
    requires forall j :: h < j < |rs| ==> !RelayMatch(rs[j], relay)
    ensures RemoveMatching(rs, relay) == rs[..h] + rs[h + 1..]
    decreases |rs|
  {
    if |rs| - 1 == h {
      assert rs[..|rs| - 1] == rs[..h];
    } else {
      var init := rs[..|rs| - 1];
      assert init[..h] == rs[..h];
      RemoveSplit(init, relay, h);
      assert rs[..h] + rs[h + 1..] == (init[..h] + init[h + 1..]) + [rs[|rs| - 1]];
    }
  }

  /** The registry of remotes, keyed by owner. */
  class Container {
    var remotes: map<Key, Remote>

    ghost predicate Valid()
      reads this, remotes.Values
    {
      forall k :: k in remotes ==> remotes[k].Valid()
    }

    constructor ()
      ensures remotes == map[] && Valid()
    {
      remotes := map[];
    }

    /** `Add`: maps the owner's key to the remote. */
    method Add(owner: Resource, remote: Remote)
      modifies this
      ensures remotes == old(remotes)[KeyOf(owner) := remote]
    {
      remotes := remotes[KeyOf(owner) := remote];
    }

    /** `Delete`: unmaps the owner's key. */
    method Delete(owner: Resource)
      modifies this
      ensures remotes == old(remotes) - {KeyOf(owner)}
    {
      remotes := remotes - {KeyOf(owner)};
    }

    /** `Find`: the remote mapped to the owner's key. */
    method Find(owner: Resource) returns (remote: Option<Remote>)
      ensures remote.Some? <==> KeyOf(owner) in remotes
      ensures remote.Some? ==> remote.value == remotes[KeyOf(owner)]
    {
      if KeyOf(owner) in remotes {
        return Some(remotes[KeyOf(owner)]);
      }
      return None;
    }

    /**
     * `Ensure`: a mapped remote with an equal configuration is returned as is.
     * Otherwise the candidate takes the mapped remote's workload, the mapped
     * remote is shut down, and the candidate is started with `Start` as
     * written; the key is mapped to the candidate only when it starts. An
     * unstarted candidate starts without installing any watch it took over,
     * and a failing watch install cannot make it fail.
     */
    method Ensure(owner: Resource, candidate: Remote, env: Env) returns (r: Remote, err: bool)
      requires Valid() && candidate.Valid()
      requires KeyOf(owner) in remotes ==>
        forall i :: 0 <= i < |remotes[KeyOf(owner)].relays| ==> WellFormed(remotes[KeyOf(owner)].relays[i])
      modifies this, candidate, remotes.Values
      ensures Valid()
      ensures forall k :: (k in old(remotes) && old(remotes[k]) != candidate &&
        !(KeyOf(owner) in old(remotes) && old(remotes[k]) == old(remotes[KeyOf(owner)]))) ==> unchanged(old(remotes[k]))
      ensures var key := KeyOf(owner);
        key in old(remotes) && old(remotes[key]).restCfg == candidate.restCfg ==>
          (r == old(remotes[key]) && !err && remotes == old(remotes) && unchanged(r) && unchanged(candidate))
      ensures var key := KeyOf(owner);
        !(key in old(remotes) && old(remotes[key]).restCfg == candidate.restCfg) ==>
          (r == candidate &&
           (err ==> remotes == old(remotes)) &&
           (!err ==> remotes == old(remotes)[key := candidate] && candidate.started) &&
           (err <==> !old(candidate.started) && !(candidate.restCfg.Some? && env.managerOk && env.controllerOk)))
      ensures var key := KeyOf(owner);
        !(key in old(remotes) && old(remotes[key]).restCfg == candidate.restCfg) && !old(candidate.started) ==>
          (|old(candidate.watches)| <= |candidate.watches| &&
           candidate.watches[..|old(candidate.watches)|] == old(candidate.watches) &&
           forall i :: |old(candidate.watches)| <= i < |candidate.watches| ==> !candidate.watches[i].started)
      ensures var key := KeyOf(owner);
        key in old(remotes) && old(remotes[key]).restCfg != candidate.restCfg ==>
          (old(remotes[key]).watches == [] && old(remotes[key]).relays == [] &&
           forall i :: 0 <= i < |old(remotes[key].watches)| ==>
             HasWatch(candidate.watches, old(remotes[key].watches)[i].subject))
      ensures var key := KeyOf(owner);
        key in old(remotes) && old(remotes[key]).restCfg != candidate.restCfg && (!old(candidate.started) || env.watchOk) ==>
          forall i :: 0 <= i < |old(remotes[key].relays)| ==> HasRelay(candidate.relays, old(remotes[key].relays)[i])
      ensures var key := KeyOf(owner);
        key in old(remotes) && old(remotes[key]).restCfg != candidate.restCfg ==>
          (old(remotes[key]).done == NilChan ==> old(remotes[key]).started == old(remotes[key].started)) &&
          (old(remotes[key]).done != NilChan ==> !old(remotes[key]).started)
    {
      var key := KeyOf(owner);
      if key in remotes {
        var remote := remotes[key];
        if remote.Equals(candidate) {
          return remote, false;
        }
        Supersede(remote, candidate, env);
      }
      var e := candidate.Start(env);
      if e.Some? {
        return candidate, true;
      }
      remotes := remotes[key := candidate];
      r, err := candidate, false;
    }

    /**
     * The replacing half of `Ensure`: the candidate takes over the old remote's
     * watches and relays, and the emptied old remote is shut down.
     */
    method Supersede(remote: Remote, candidate: Remote, env: Env)
      requires remote.Valid() && candidate.Valid() && remote != candidate
      requires forall i :: 0 <= i < |remote.relays| ==> WellFormed(remote.relays[i])
      modifies remote`watches, remote`relays, remote`started, candidate`watches, candidate`relays
      ensures remote.Valid() && candidate.Valid()
      ensures remote.watches == [] && remote.relays == []
      ensures forall i :: 0 <= i < |old(remote.watches)| ==> HasWatch(candidate.watches, old(remote.watches)[i].subject)
      ensures !candidate.started ==>
        (|old(candidate.watches)| <= |candidate.watches| &&
         candidate.watches[..|old(candidate.watches)|] == old(candidate.watches) &&
         forall i :: |old(candidate.watches)| <= i < |candidate.watches| ==> !candidate.watches[i].started)
      ensures !candidate.started || env.watchOk ==>
        (forall i :: 0 <= i < |old(remote.relays)| ==> HasRelay(candidate.relays, old(remote.relays)[i])) &&
        (forall i :: 0 <= i < |old(candidate.relays)| ==> HasRelay(candidate.relays, old(candidate.relays)[i]))
      ensures remote.done == NilChan ==> remote.started == old(remote.started)
      ensures remote.done != NilChan ==> !remote.started
    {
      ghost var theirs := remote.watches;
      candidate.TakeWorkload(remote, env);
      TakeoverCovers(old(candidate.watches), old(candidate.relays), theirs, old(remote.relays), candidate.started, env);
      if !candidate.started || env.watchOk {
        TakeRelaysKeepsTheirs(old(candidate.relays), TakeWatches(old(candidate.watches), theirs, candidate.started, env.watchOk),
          old(remote.relays), candidate.started, env);
      }
      if !candidate.started {
        TakeoverUnstarted(old(candidate.watches), old(candidate.relays), theirs, old(remote.relays), env);
      }
      remote.Shutdown();
    }

    /**
     * `EnsureWatch`: ensures the watch on the owner's remote, touching only its
     * watch list; never reports an error. Without a mapped remote it acts on a
     * throwaway empty one, as Go does.
     */
    method EnsureWatch(owner: Resource, w: Watch, env: Env)
      requires Valid()
      modifies remotes.Values
      ensures Valid()
      ensures forall k :: k in remotes && !(KeyOf(owner) in remotes && remotes[k] == remotes[KeyOf(owner)]) ==>
        unchanged(remotes[k])
      ensures KeyOf(owner) in remotes ==> (
        var rm := remotes[KeyOf(owner)];
        rm.watches == EnsureWatchSpec(old(rm.watches), w, rm.started, env.watchOk).watches &&
        rm.relays == old(rm.relays) && rm.started == old(rm.started) &&
        rm.hasController == old(rm.hasController) && rm.sent == old(rm.sent))
    {
      var remote := Find(owner);
      if remote.None? {
        var throwaway := new Remote("", None);
        var _ := throwaway.EnsureWatch(w, env);
        return;
      }
      var _ := remote.value.EnsureWatch(w, env);
    }

    /**
     * `EnsureRelay`: ensures the relay on the owner's remote, touching only its
     * lists; never reports an error. Without a mapped remote it acts on a
     * throwaway empty one, so the relay is still installed on its controller.
     * `after` is the caller's relay as the call leaves it.
     */
    method EnsureRelay(owner: Resource, relay: Relay, env: Env) returns (after: Relay)
      requires Valid() && WellFormed(relay)
      modifies remotes.Values
      ensures Valid()
      ensures forall k :: k in remotes && !(KeyOf(owner) in remotes && remotes[k] == remotes[KeyOf(owner)]) ==>
        unchanged(remotes[k])
      ensures KeyOf(owner) in remotes ==> (
        var rm := remotes[KeyOf(owner)];
        var res := EnsureRelaySpec(old(rm.relays), old(rm.watches), relay, rm.started, env);
        rm.relays == res.relays && rm.watches == res.watches &&
        rm.started == old(rm.started) && rm.hasController == old(rm.hasController) && rm.sent == old(rm.sent) &&
        after == (if HasRelay(old(rm.relays), relay) then relay else Install(relay, env)))
      ensures KeyOf(owner) !in remotes ==> after == Install(relay, env)
    {
      var remote := Find(owner);
      if remote.None? {
        var throwaway := new Remote("", None);
        var _, a := throwaway.EnsureRelay(relay, env);
        return a;
      }
      var _, a := remote.value.EnsureRelay(relay, env);
      after := a;
    }

    /** `EndRelay`: ends the relay on the owner's remote, if one is mapped, touching only its relay list. */
    method EndRelay(owner: Resource, relay: Relay)
      requires Valid()
      modifies remotes.Values
      ensures Valid()
      ensures forall k :: k in remotes && !(KeyOf(owner) in remotes && remotes[k] == remotes[KeyOf(owner)]) ==>
        unchanged(remotes[k])
      ensures KeyOf(owner) in remotes ==> (
        var rm := remotes[KeyOf(owner)];
        rm.relays == RemoveMatching(old(rm.relays), relay) &&
        rm.watches == old(rm.watches) && rm.started == old(rm.started) &&
        rm.hasController == old(rm.hasController) && rm.sent == old(rm.sent))
    {
      var remote := Find(owner);
      if remote.None? {
        return;
      }
      var _ := remote.value.EndRelay(relay);
    }
  }

  /** An unstarted remote appends a watch of a new kind uninstalled, after the ones it has. */
  lemma EnsureWatchUnstarted(ws: seq<Watch>, w: Watch, watchOk: bool)
    requires !w.started
    ensures var r := EnsureWatchSpec(ws, w, false, watchOk).watches;
      |ws| <= |r| && r[..|ws|] == ws && forall i :: |ws| <= i < |r| ==> !r[i].started
  {
  }

  /** Watches taken over by an unstarted remote are appended uninstalled after its own. */
  lemma {:induction false} TakeWatchesUnstarted(ws: seq<Watch>, theirs: seq<Watch>, watchOk: bool)
    ensures var r := TakeWatches(ws, theirs, false, watchOk);
      |ws| <= |r| && r[..|ws|] == ws && forall i :: |ws| <= i < |r| ==> !r[i].started
    decreases |theirs|
  {
    if |theirs| > 0 {
      var prev := TakeWatches(ws, theirs[..|theirs| - 1], false, watchOk);
      TakeWatchesUnstarted(ws, theirs[..|theirs| - 1], watchOk);
      EnsureWatchUnstarted(prev, theirs[|theirs| - 1].(started := false), watchOk);
      var r := TakeWatches(ws, theirs, false, watchOk);
      assert r[..|prev|] == prev;
      assert r[..|ws|] == prev[..|ws|];
    }
  }

  /** The subject watches of relays taken over by an unstarted remote are appended uninstalled. */
  lemma {:induction false} TakeRelaysUnstarted(rs: seq<Relay>, ws: seq<Watch>, theirs: seq<Relay>, env: Env)
    ensures var r := TakeRelays(rs, ws, theirs, false, env).watches;
      |ws| <= |r| && r[..|ws|] == ws && forall i :: |ws| <= i < |r| ==> !r[i].started
    decreases |theirs|
  {
    if |theirs| > 0 {
      var prev := TakeRelays(rs, ws, theirs[..|theirs| - 1], false, env);
      TakeRelaysUnstarted(rs, ws, theirs[..|theirs| - 1], env);
      var relay := theirs[|theirs| - 1];
      EnsureWatchUnstarted(prev.watches, Watch(Subject(relay), [], false), env.watchOk);
      var r := TakeRelays(rs, ws, theirs, false, env).watches;
      assert r[..|prev.watches|] == prev.watches;
      assert r[..|ws|] == prev.watches[..|ws|];
    }
  }

  /** Taking over relays never drops a watched kind. */
  lemma {:induction false} TakeRelaysCovers(rs: seq<Relay>, ws: seq<Watch>, theirs: seq<Relay>, started: bool, env: Env)
    ensures forall o :: HasWatch(ws, o) ==> HasWatch(TakeRelays(rs, ws, theirs, started, env).watches, o)
    decreases |theirs|
  {
    if |theirs| > 0 {
      var prev := TakeRelays(rs, ws, theirs[..|theirs| - 1], started, env);
      TakeRelaysCovers(rs, ws, theirs[..|theirs| - 1], started, env);
      var relay := theirs[|theirs| - 1];
      var w := EnsureWatchSpec(prev.watches, Watch(Subject(relay), [], false), started, env.watchOk);
      assert w.watches[..|prev.watches|] == prev.watches;
      forall o | HasWatch(prev.watches, o)
        ensures HasWatch(w.watches, o)
      {
        var k :| 0 <= k < |prev.watches| && Kinds(prev.watches)[k] == ToKind(o);
        assert w.watches[k] == prev.watches[k];
      }
    }
  }

  /** A relay present in a list stays present in any extension of it. */
  lemma HasRelayPrefix(a: seq<Relay>, b: seq<Relay>, x: Relay)
    requires |a| <= |b| && b[..|a|] == a && HasRelay(a, x)
    ensures HasRelay(b, x)
  {
    var k :| 0 <= k < |a| && RelayMatch(a[k], x);
    assert b[k] == a[k];
  }

  /**
   * When every relay taken over is installed or can be, and the subject watch
   * of a new kind cannot fail, no relay is lost: every relay already present
   * and every relay taken over has a match afterwards.
   */
  lemma {:induction false} TakeRelaysKeepsTheirs(rs: seq<Relay>, ws: seq<Watch>, theirs: seq<Relay>, started: bool, env: Env)
    requires RelaysValid(rs) && WatchesDistinct(ws)
    requires forall i :: 0 <= i < |theirs| ==> WellFormed(theirs[i]) && (theirs[i].installed || env.installOk)
    requires !started || env.watchOk
    ensures var r := TakeRelays(rs, ws, theirs, started, env).relays;
      (forall i :: 0 <= i < |rs| ==> HasRelay(r, rs[i])) &&
      (forall i :: 0 <= i < |theirs| ==> HasRelay(r, theirs[i]))
    decreases |theirs|
  {
    var r := TakeRelays(rs, ws, theirs, started, env).relays;
    if |theirs| == 0 {
      forall i | 0 <= i < |rs|
        ensures HasRelay(r, rs[i])
      {
        RelayMatchEquivalence(rs[i], rs[i], rs[i]);
      }
    } else {
      var init := theirs[..|theirs| - 1];
      var last := theirs[|theirs| - 1];
      var prev := TakeRelays(rs, ws, init, started, env);
      TakeRelaysKeepsTheirs(rs, ws, init, started, env);
      TakeRelaysKeepsValid(rs, ws, init, started, env);
      EnsureRelayKeepsValid(prev.relays, prev.watches, last, started, env);
      var e := EnsureRelaySpec(prev.relays, prev.watches, last, started, env);
      assert !e.err;
      assert r == e.relays;
      forall i | 0 <= i < |rs|
        ensures HasRelay(r, rs[i])
      {
        HasRelayPrefix(prev.relays, r, rs[i]);
      }
      forall i | 0 <= i < |theirs|
        ensures HasRelay(r, theirs[i])
      {
        if i < |theirs| - 1 {
          assert theirs[i] == init[i];
          HasRelayPrefix(prev.relays, r, theirs[i]);
        }
      }
    }
  }

  /**
   * The converse case: a started remote whose watch install fails drops a
   * relay of a kind it does not yet watch, because `TakeWorkload` ignores the
   * error `EnsureRelay` returns.
   */
  lemma TakeRelaysDropsUnwatched(rs: seq<Relay>, ws: seq<Watch>, relay: Relay, env: Env)
    requires !HasRelay(rs, relay) && !HasWatch(ws, Subject(relay)) && !env.watchOk
    ensures var r := TakeRelays(rs, ws, [relay], true, env).relays;
      r == rs && !HasRelay(r, relay)
  {
    assert [relay][..0] == [];
  }

  /** A takeover of `theirs` watches then `theirRelays` leaves every taken-over kind watched. */
  lemma TakeoverCovers(cw: seq<Watch>, cr: seq<Relay>, theirs: seq<Watch>, theirRelays: seq<Relay>, started: bool, env: Env)
    requires WatchesDistinct(cw)
    ensures var r := TakeRelays(cr, TakeWatches(cw, theirs, started, env.watchOk), theirRelays, started, env).watches;
      forall i :: 0 <= i < |theirs| ==> HasWatch(r, theirs[i].subject)
  {
    TakeWatchesCovers(cw, theirs, started, env.watchOk);
    TakeRelaysCovers(cr, TakeWatches(cw, theirs, started, env.watchOk), theirRelays, started, env);
  }

  /** A takeover into an unstarted remote only appends uninstalled watches. */
  lemma TakeoverUnstarted(cw: seq<Watch>, cr: seq<Relay>, theirs: seq<Watch>, theirRelays: seq<Relay>, env: Env)
    ensures var r := TakeRelays(cr, TakeWatches(cw, theirs, false, env.watchOk), theirRelays, false, env).watches;
      |cw| <= |r| && r[..|cw|] == cw && forall i :: |cw| <= i < |r| ==> !r[i].started
  {
    var ws := TakeWatches(cw, theirs, false, env.watchOk);
    TakeWatchesUnstarted(cw, theirs, env.watchOk);
    TakeRelaysUnstarted(cr, ws, theirRelays, env);
    var r := TakeRelays(cr, ws, theirRelays, false, env).watches;
    assert r[..|cw|] == ws[..|cw|];
    forall i | |cw| <= i < |r|
      ensures !r[i].started
    {
      if i < |ws| {
        assert r[i] == ws[i];
      }
    }
  }

  /**
   * With `Start` as written, a watch registered before the remote starts is
   * still not installed after a successful start.
   */
  method StartLeavesWatchesUninstalled() returns (installed: bool)
    ensures !installed
  {
    var remote := new Remote("host", Some(RestConfig("https://host", "", false)));
    var w := Watch(Resource("Pod", "Pod", "ns", "p", 1), [], false);
    var env := Env(true, true, true, true);
    var _ := remote.EnsureWatch(w, env);
    var err := remote.Start(env);
    assert err.None?;
    installed := remote.watches[0].started;
  }

  /** With `StartFixed`, the same watch is installed. */
  method StartFixedInstallsWatches() returns (installed: bool)
    ensures installed
  {
    var remote := new Remote("host", Some(RestConfig("https://host", "", false)));
    var w := Watch(Resource("Pod", "Pod", "ns", "p", 1), [], false);
    var env := Env(true, true, true, true);
    var _ := remote.EnsureWatch(w, env);
    var err := remote.StartFixed(env);
    installed := remote.watches[0].started;
  }
}
