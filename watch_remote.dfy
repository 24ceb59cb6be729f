/**
 * The earlier remote-watch registry (package `watch`). An `RmtMap` maps an
 * owner object's key to a `Remote`. A started remote installs watches on its
 * own controller with a `Router` predicate appended; the router forwards each
 * accepted event into the channel of every relay whose watches accept it. A
 * relay belongs to one target controller, and `Forward` sends the relay's
 * fixed event, built from the relay's object, into its channel.
 *
 * Watch objects are compared by identity, which a `Resource` value models
 * with its uid. Predicates other than the router are opaque; the answer each
 * gives for the event at hand is the parameter `accepts`. The outcomes of the
 * calls into the controller runtime are the fields of `Env`. What is handed to
 * `controller.Watch` is appended to the remote's `installed` trace, and each
 * event sent into a relay channel to its `sent` trace.
 */
module RemoteWatch {
  import opened Wrappers
  import opened Kube

  /** A watch predicate: one supplied by the caller, or the remote's router. */
  datatype Pred = Pred(id: nat) | RouterPred

  /** A watch: the watched object and its predicates. */
  datatype Watch = Watch(watched: Resource, predicates: seq<Pred>)

  /** A relay: the target controller, the object its events are about, its watches, its forward channel. */
  datatype Relay = Relay(controller: ControllerId, target: Resource, watch: seq<Watch>, chan: ChanState)

  /** Outcomes of the calls into the controller runtime made by one operation. */
  datatype Env = Env(managerOk: bool, controllerOk: bool, watchOk: bool, setupOk: bool)

  /** What an operation hands to `controller.Watch`, and its error. */
  datatype Installs = Installs(added: seq<Watch>, err: Option<string>)

  /** The watched objects, in order. */
  function Objects(ws: seq<Watch>): (r: seq<Resource>)
    ensures |r| == |ws|
    ensures forall i :: 0 <= i < |ws| ==> r[i] == ws[i].watched
  {
    seq(|ws|, i requires 0 <= i < |ws| => ws[i].watched)
  }

  /** The watch as installed: its predicates followed by the router. */
  function Routed(w: Watch): Watch {
    w.(predicates := w.predicates + [RouterPred])
  }

  /** `Remote.Watch` against the recorded watches. */
  function WatchSpec(ws: seq<Watch>, w: Watch, hasController: bool, watchOk: bool): (r: Installs)
    ensures r.err.None? <==> hasController && (w.watched in Objects(ws) || watchOk)
    ensures |r.added| <= 1
    ensures r.added != [] <==> hasController && w.watched !in Objects(ws) && watchOk
    ensures r.added != [] ==> r.added == [Routed(w)]
  {
    if !hasController then Installs([], Some("not started"))
    else if w.watched in Objects(ws) then Installs([], None)
    else if watchOk then Installs([Routed(w)], None)
    else Installs([], Some("watch"))
  }

  /** Calling `Remote.Watch` on each of `list` in turn, stopping at the first error. */
  function WatchAll(ws: seq<Watch>, list: seq<Watch>, hasController: bool, watchOk: bool): (r: Installs)
    ensures |r.added| <= |list|
    ensures forall k :: 0 <= k < |r.added| ==>
      r.added[k].watched !in Objects(ws) && |r.added[k].predicates| > 0 &&
      r.added[k].predicates[|r.added[k].predicates| - 1] == RouterPred
    ensures !hasController && |list| > 0 ==> r.err.Some? && r.added == []
    decreases |list|
  {
    if |list| == 0 then Installs([], None)
    else
      var prev := WatchAll(ws, list[..|list| - 1], hasController, watchOk);
      if prev.err.Some? then prev
      else
        var last := WatchSpec(ws, list[|list| - 1], hasController, watchOk);
        Installs(prev.added + last.added, last.err)
  }

  /** Once a prefix fails, the remaining calls are never made. */
  lemma {:induction false} WatchAllStops(ws: seq<Watch>, list: seq<Watch>, i: nat, hasController: bool, watchOk: bool)
    requires i <= |list|
    requires WatchAll(ws, list[..i], hasController, watchOk).err.Some?
    ensures WatchAll(ws, list, hasController, watchOk) == WatchAll(ws, list[..i], hasController, watchOk)
    decreases |list| - i
  {
    if i < |list| {
      assert list[..i + 1][..i] == list[..i];
      WatchAllStops(ws, list, i + 1, hasController, watchOk);
    } else {
      assert list[..i] == list;
    }
  }

  /** Every object already recorded is skipped: watching recorded watches installs nothing. */
  lemma {:induction false} WatchAllRecorded(ws: seq<Watch>, list: seq<Watch>, watchOk: bool)
    requires forall i :: 0 <= i < |list| ==> list[i].watched in Objects(ws)
    ensures WatchAll(ws, list, true, watchOk) == Installs([], None)
    decreases |list|
  {
    if |list| > 0 {
      WatchAllRecorded(ws, list[..|list| - 1], watchOk);
    }
  }

  /** With every call succeeding, each object not recorded is installed, routed, in order. */
  lemma {:induction false} WatchAllFresh(ws: seq<Watch>, list: seq<Watch>)
    requires forall i :: 0 <= i < |list| ==> list[i].watched !in Objects(ws)
    ensures WatchAll(ws, list, true, true) == Installs(seq(|list|, i requires 0 <= i < |list| => Routed(list[i])), None)
    decreases |list|
  {
    if |list| > 0 {
      WatchAllFresh(ws, list[..|list| - 1]);
    }
  }

  /** What sending the relay's event delivers: the relay's object, if its channel is open. */
  function Send(r: Relay): seq<Resource> {
    if r.chan == OpenChan then [r.target] else []
  }

  /** Whether a watch accepts an event about `obj`: same Go type, and every predicate accepts. */
  predicate Accepting(w: Watch, obj: Resource, accepts: Pred -> bool) {
    w.watched.goType == obj.goType && forall p :: p in w.predicates ==> accepts(p)
  }

  /** The number of the watches that accept the event. */
  function CountAccepting(ws: seq<Watch>, obj: Resource, accepts: Pred -> bool): (n: nat)
    ensures n <= |ws|
  {
    if |ws| == 0 then 0
    else CountAccepting(ws[..|ws| - 1], obj, accepts) + (if Accepting(ws[|ws| - 1], obj, accepts) then 1 else 0)
  }

  /** `n` copies of `x`. */
  function Repeat(x: seq<Resource>, n: nat): (r: seq<Resource>)
    ensures |r| == n * |x|
  {
    if n == 0 then [] else Repeat(x, n - 1) + x
  }

  /** What `Router.Create` sends: one event per accepting watch of each relay. */
  function RouteEach(rs: seq<Relay>, obj: Resource, accepts: Pred -> bool): (r: seq<Resource>)
    ensures (forall i :: 0 <= i < |rs| ==> rs[i].chan != OpenChan) ==> r == []
    ensures (forall i :: 0 <= i < |rs| ==> CountAccepting(rs[i].watch, obj, accepts) == 0) ==> r == []
  {
    if |rs| == 0 then []
    else
      var last := rs[|rs| - 1];
      RouteEach(rs[..|rs| - 1], obj, accepts) + Repeat(Send(last), CountAccepting(last.watch, obj, accepts))
  }

  /** What `Router.Update/Delete/Generic` send: one event per relay with an accepting watch. */
  function RouteFirst(rs: seq<Relay>, obj: Resource, accepts: Pred -> bool): (r: seq<Resource>)
    ensures |r| <= |rs|
    ensures (forall i :: 0 <= i < |rs| ==> rs[i].chan != OpenChan) ==> r == []
  {
    if |rs| == 0 then []
    else
      var last := rs[|rs| - 1];
      RouteFirst(rs[..|rs| - 1], obj, accepts) +
        (if CountAccepting(last.watch, obj, accepts) > 0 then Send(last) else [])
  }

  /** Some watch accepts iff the count is positive. */
  lemma {:induction false} CountAcceptingPositive(ws: seq<Watch>, obj: Resource, accepts: Pred -> bool)
    ensures CountAccepting(ws, obj, accepts) > 0 <==> exists i :: 0 <= i < |ws| && Accepting(ws[i], obj, accepts)
  {
    if |ws| > 0 {
      var init := ws[..|ws| - 1];
      CountAcceptingPositive(init, obj, accepts);
      if exists i :: 0 <= i < |init| && Accepting(init[i], obj, accepts) {
        var i :| 0 <= i < |init| && Accepting(init[i], obj, accepts);
        assert ws[i] == init[i];
      }
      if exists i :: 0 <= i < |ws| && Accepting(ws[i], obj, accepts) {
        var i :| 0 <= i < |ws| && Accepting(ws[i], obj, accepts);
        if i < |init| {
          assert init[i] == ws[i];
        }
      }
    }
  }

  /**
   * `Update/Delete/Generic` reach exactly the relays `Create` reaches, at most
   * once each and never more often than `Create`.
   */
  lemma {:induction false} RouteFirstVersusEach(rs: seq<Relay>, obj: Resource, accepts: Pred -> bool, x: Resource)
    ensures |RouteFirst(rs, obj, accepts)| <= |rs|
    ensures |RouteFirst(rs, obj, accepts)| <= |RouteEach(rs, obj, accepts)|
    ensures x in RouteFirst(rs, obj, accepts) <==> x in RouteEach(rs, obj, accepts)
  {
    if |rs| > 0 {
      var last := rs[|rs| - 1];
      var n := CountAccepting(last.watch, obj, accepts);
      RouteFirstVersusEach(rs[..|rs| - 1], obj, accepts, x);
      RepeatMember(Send(last), n, x);
    }
  }

  /** An element of `n` copies of `x` is an element of `x`, and conversely when `n > 0`. */
  lemma {:induction false} RepeatMember(x: seq<Resource>, n: nat, y: Resource)
    ensures y in Repeat(x, n) <==> n > 0 && y in x
  {
    if n > 0 {
      RepeatMember(x, n - 1, y);
    }
  }

  /** The relay delivers `x` for the event: its object is `x`, its channel is open, and one of its watches accepts. */
  predicate Delivers(r: Relay, x: Resource, obj: Resource, accepts: Pred -> bool) {
    r.target == x && r.chan == OpenChan && exists j :: 0 <= j < |r.watch| && Accepting(r.watch[j], obj, accepts)
  }

  /** An event is delivered iff some relay with an open channel has an accepting watch; its object is the relay's. */
  lemma {:induction false} RouteFirstExact(rs: seq<Relay>, obj: Resource, accepts: Pred -> bool, x: Resource)
    ensures x in RouteFirst(rs, obj, accepts) <==> exists i :: 0 <= i < |rs| && Delivers(rs[i], x, obj, accepts)
  {
    if |rs| > 0 {
      var init := rs[..|rs| - 1];
      var last := rs[|rs| - 1];
      RouteFirstExact(init, obj, accepts, x);
      CountAcceptingPositive(last.watch, obj, accepts);
      assert x in RouteFirst(rs, obj, accepts) <==> x in RouteFirst(init, obj, accepts) || Delivers(last, x, obj, accepts);
      if exists i :: 0 <= i < |rs| && Delivers(rs[i], x, obj, accepts) {
        var i :| 0 <= i < |rs| && Delivers(rs[i], x, obj, accepts);
        if i < |init| {
          assert init[i] == rs[i];
        }
      }
      if exists i :: 0 <= i < |init| && Delivers(init[i], x, obj, accepts) {
        var i :| 0 <= i < |init| && Delivers(init[i], x, obj, accepts);
        assert rs[i] == init[i];
      }
    }
  }

  /** `Relay.shutdown`: closes the forward channel; closing a nil or closed one panics and nothing changes. */
  function ShutdownRelay(r: Relay): (s: Relay)
    ensures s.chan == (if r.chan == OpenChan then ClosedChan else r.chan)
    ensures s.(chan := r.chan) == r
  {
    if r.chan == OpenChan then r.(chan := ClosedChan) else r
  }

  /** Whether a relay with the given target controller is present. */
  predicate HasController(rs: seq<Relay>, c: ControllerId) {
    exists i :: 0 <= i < |rs| && rs[i].controller == c
  }

  /** A remote cluster. */
  class Remote {
    const name: string
    const restCfg: Option<RestConfig>
    /** The `done` channel handed to the manager; never made. */
    const done: ChanState
    var relays: seq<Relay>
    var watches: seq<Watch>
    var started: bool
    var hasController: bool
    /** Watches handed to the controller, with their predicates, in order. */
    var installed: seq<Watch>
    /** Events sent into relay channels: each event's object, in order. */
    var sent: seq<Resource>

    /** Relays are appended only once set up, so none has a nil channel. */
    ghost predicate Valid()
      reads this
    {
      forall i :: 0 <= i < |relays| ==> relays[i].chan != NilChan
    }

    /** `&Remote{Name, RestCfg}`. */
    constructor (name: string, restCfg: Option<RestConfig>)
      ensures Valid() && this.name == name && this.restCfg == restCfg && done == NilChan
      ensures relays == [] && watches == [] && !started && !hasController && installed == [] && sent == []
    {
      this.name, this.restCfg, done := name, restCfg, NilChan;
      relays, watches, started, hasController, installed, sent := [], [], false, false, [], [];
    }

    /** `Remote.Watch`: installs a watch whose object is not recorded; never records it. */
    method Watch(w: Watch, env: Env) returns (err: Option<string>)
      modifies this`installed
      ensures var r := WatchSpec(watches, w, hasController, env.watchOk);
        installed == old(installed) + r.added && err == r.err
    {
      if !hasController {
        return Some("not started");
      }
      var i := 0;
      while i < |watches|
        invariant 0 <= i <= |watches|
        invariant w.watched !in Objects(watches)[..i]
        invariant installed == old(installed)
      {
        if watches[i].watched == w.watched {
          assert Objects(watches)[i] == w.watched;
          return None;
        }
        assert Objects(watches)[..i + 1] == Objects(watches)[..i] + [watches[i].watched];
        i := i + 1;
      }
      assert Objects(watches)[..i] == Objects(watches);
      if !env.watchOk {
        return Some("watch");
      }
      installed := installed + [Routed(w)];
      err := None;
    }

    /** Calls `Watch` on each of `list`, stopping at the first error. */
    method WatchEach(list: seq<Watch>, env: Env) returns (err: Option<string>)
      modifies this`installed
      ensures var r := WatchAll(watches, list, hasController, env.watchOk);
        installed == old(installed) + r.added && err == r.err
    {
      var i := 0;
      while i < |list|
        invariant 0 <= i <= |list|
        invariant var r := WatchAll(watches, list[..i], hasController, env.watchOk);
          r.err.None? && installed == old(installed) + r.added
      {
        assert list[..i + 1][..i] == list[..i];
        err := Watch(list[i], env);
        if err.Some? {
          WatchAllStops(watches, list, i + 1, hasController, env.watchOk);
          return;
        }
        i := i + 1;
      }
      assert list[..i] == list;
      err := None;
    }

    /** The inner `start` of `Start`: records the watches, then makes the manager and controller. */
    method StartOnce(list: seq<Watch>, env: Env) returns (err: Option<string>)
      modifies this`watches, this`started, this`hasController
      ensures old(started) ==> err.None? && watches == old(watches) && started && hasController == old(hasController)
      ensures !old(started) ==>
        watches == list &&
        (err.None? <==> env.managerOk && env.controllerOk) &&
        started == err.None? && hasController == (err.None? || old(hasController))
    {
      if started {
        return None;
      }
      watches := list;
      if !env.managerOk {
        return Some("manager");
      }
      if !env.controllerOk {
        return Some("controller");
      }
      hasController := true;
      started := true;
      err := None;
    }

    /**
     * `Start` as written: the watches are recorded before the loop that
     * watches them, so on the first start that loop installs nothing.
     */
    method Start(list: seq<Watch>, env: Env) returns (err: Option<string>)
      modifies this`watches, this`started, this`hasController, this`installed
      ensures !old(started) ==> (watches == list && installed == old(installed) &&
        (err.None? <==> env.managerOk && env.controllerOk) && started == err.None?)
      ensures old(started) ==> (watches == old(watches) && started &&
        var r := WatchAll(old(watches), list, hasController, env.watchOk);
        installed == old(installed) + r.added && err == r.err)
    {
      err := StartOnce(list, env);
      if err.Some? {
        return err;
      }
      if !old(started) {
        WatchAllRecorded(watches, list, env.watchOk);
      }
      err := WatchEach(list, env);
    }

    /** `Start` installing every given watch on the first start, and recording the list after. */
    method StartFixed(list: seq<Watch>, env: Env) returns (err: Option<string>)
      modifies this`watches, this`started, this`hasController, this`installed
      ensures !old(started) && env.managerOk && env.controllerOk ==> (watches == list && started &&
        var r := WatchAll(old(watches), list, true, env.watchOk);
        installed == old(installed) + r.added && err == r.err)
      ensures !old(started) && !(env.managerOk && env.controllerOk) ==> (err.Some? && !started && installed == old(installed))
      ensures old(started) ==> (watches == old(watches) && started &&
        var r := WatchAll(old(watches), list, hasController, env.watchOk);
        installed == old(installed) + r.added && err == r.err)
    {
      if started {
        err := WatchEach(list, env);
        return;
      }
      if !env.managerOk {
        return Some("manager");
      }
      if !env.controllerOk {
        return Some("controller");
      }
      hasController := true;
      started := true;
      err := WatchEach(list, env);
      watches := list;
    }

    /**
     * `Shutdown`: closes `done`, then every relay channel. Closing the
     * never-made `done` panics, so no relay is shut down.
     */
    method Shutdown()
      requires Valid()
      modifies this`relays
      ensures Valid()
      ensures done == NilChan ==> relays == old(relays)
      ensures done != NilChan ==>
        |relays| == |old(relays)| && forall i :: 0 <= i < |relays| ==> relays[i] == ShutdownRelay(old(relays)[i])
    {
      if done == NilChan {
        return;
      }
      var i := 0;
      while i < |relays|
        invariant 0 <= i <= |relays| == |old(relays)|
        invariant forall j :: 0 <= j < i ==> relays[j] == ShutdownRelay(old(relays)[j])
        invariant forall j :: i <= j < |relays| ==> relays[j] == old(relays)[j]
      {
        relays := relays[i := ShutdownRelay(relays[i])];
        i := i + 1;
      }
    }

    /** Whether a relay for the controller is present. */
    method FindController(c: ControllerId) returns (found: bool)
      ensures found <==> HasController(relays, c)
    {
      var i := 0;
      while i < |relays|
        invariant 0 <= i <= |relays|
        invariant forall j :: 0 <= j < i ==> relays[j].controller != c
      {
        if relays[i].controller == c {
          return true;
        }
        i := i + 1;
      }
      found := false;
    }

    /**
     * `Relay`: a relay for a new controller is set up (its channel made) and
     * appended; then each of its watch objects is watched, without predicates.
     */
    method Relay(relay: Relay, env: Env) returns (err: Option<string>)
      requires Valid()
      modifies this`relays, this`installed
      ensures Valid()
      ensures !hasController ==> err == Some("not started") && relays == old(relays) && installed == old(installed)
      ensures hasController && HasController(old(relays), relay.controller) ==> relays == old(relays)
      ensures hasController && !HasController(old(relays), relay.controller) ==>
        relays == (if env.setupOk then old(relays) + [relay.(chan := OpenChan)] else old(relays))
      ensures hasController && !HasController(old(relays), relay.controller) && !env.setupOk ==>
        err.Some? && installed == old(installed)
      ensures hasController && (HasController(old(relays), relay.controller) || env.setupOk) ==>
        var r := WatchAll(watches, Bare(relay.watch), true, env.watchOk);
        installed == old(installed) + r.added && err == r.err
    {
      if !hasController {
        return Some("not started");
      }
      var has := FindController(relay.controller);
      if !has {
        if !env.setupOk {
          return Some("setup");
        }
        relays := relays + [relay.(chan := OpenChan)];
      }
      err := WatchEach(Bare(relay.watch), env);
    }

    /** `Forward.Create/Update/Delete/Generic` for the `i`-th relay: sends its event, reports true. */
    method Forward(i: nat) returns (r: bool)
      requires Valid() && i < |relays|
      modifies this`sent
      ensures r && sent == old(sent) + Send(relays[i])
    {
      if relays[i].chan == OpenChan {
        sent := sent + [relays[i].target];
      }
      r := true;
    }

    /** Whether a watch accepts the event; the predicate loop stops at the first refusal. */
    method Accepts(w: Watch, obj: Resource, accepts: Pred -> bool) returns (ok: bool)
      ensures ok <==> Accepting(w, obj, accepts)
    {
      if w.watched.goType != obj.goType {
        return false;
      }
      var k := 0;
      while k < |w.predicates|
        invariant 0 <= k <= |w.predicates|
        invariant forall m :: 0 <= m < k ==> accepts(w.predicates[m])
      {
        if !accepts(w.predicates[k]) {
          return false;
        }
        k := k + 1;
      }
      ok := true;
    }

    /** The inner loop of `Router.Create` for the `i`-th relay: forwards once per accepting watch. */
    method ForwardEach(i: nat, obj: Resource, accepts: Pred -> bool)
      requires Valid() && i < |relays|
      modifies this`sent
      ensures sent == old(sent) + Repeat(Send(relays[i]), CountAccepting(relays[i].watch, obj, accepts))
    {
      var ws := relays[i].watch;
      var j := 0;
      while j < |ws|
        invariant 0 <= j <= |ws|
        invariant sent == old(sent) + Repeat(Send(relays[i]), CountAccepting(ws[..j], obj, accepts))
      {
        assert ws[..j + 1][..j] == ws[..j];
        var ok := Accepts(ws[j], obj, accepts);
        if ok {
          var _ := Forward(i);
        }
        j := j + 1;
      }
      assert ws[..j] == ws;
    }

    /** The inner loop of `Router.Update/Delete/Generic` for the `i`-th relay: forwards for the first accepting watch. */
    method ForwardFirst(i: nat, obj: Resource, accepts: Pred -> bool)
      requires Valid() && i < |relays|
      modifies this`sent
      ensures sent == old(sent) + (if CountAccepting(relays[i].watch, obj, accepts) > 0 then Send(relays[i]) else [])
    {
      var ws := relays[i].watch;
      var j := 0;
      while j < |ws|
        invariant 0 <= j <= |ws|
        invariant CountAccepting(ws[..j], obj, accepts) == 0
        invariant sent == old(sent)
      {
        assert ws[..j + 1][..j] == ws[..j];
        var ok := Accepts(ws[j], obj, accepts);
        if ok {
          var _ := Forward(i);
          FirstCountPositive(ws, obj, accepts, j);
          return;
        }
        j := j + 1;
      }
      assert ws[..j] == ws;
    }

    /** `Router.Create`: forwards once for every accepting watch of every relay; reports false. */
    method RouteCreate(obj: Resource, accepts: Pred -> bool) returns (rt: bool)
      requires Valid()
      modifies this`sent
      ensures !rt && sent == old(sent) + RouteEach(relays, obj, accepts)
    {
      var i := 0;
      while i < |relays|
        invariant 0 <= i <= |relays|
        invariant sent == old(sent) + RouteEach(relays[..i], obj, accepts)
      {
        assert relays[..i + 1][..i] == relays[..i];
        ForwardEach(i, obj, accepts);
        i := i + 1;
      }
      assert relays[..i] == relays;
      rt := false;
    }

    /** `Router.Update/Delete/Generic`: forwards once for the first accepting watch of each relay; reports false. */
    method RouteFirstAccepting(obj: Resource, accepts: Pred -> bool) returns (rt: bool)
      requires Valid()
      modifies this`sent
      ensures !rt && sent == old(sent) + RouteFirst(relays, obj, accepts)
    {
      var i := 0;
      while i < |relays|
        invariant 0 <= i <= |relays|
        invariant sent == old(sent) + RouteFirst(relays[..i], obj, accepts)
      {
        assert relays[..i + 1][..i] == relays[..i];
        ForwardFirst(i, obj, accepts);
        i := i + 1;
      }
      assert relays[..i] == relays;
      rt := false;
    }
  }

  /** A relay's watches as `Relay` passes them to `Watch`: the objects only. */
  function Bare(ws: seq<Watch>): (r: seq<Watch>)
    ensures |r| == |ws|
    ensures forall i :: 0 <= i < |ws| ==> r[i] == Watch(ws[i].watched, [])
  {
    seq(|ws|, i requires 0 <= i < |ws| => Watch(ws[i].watched, []))
  }

  /** The first accepting watch makes the count of the whole list positive. */
  lemma {:induction false} FirstCountPositive(ws: seq<Watch>, obj: Resource, accepts: Pred -> bool, j: nat)
    requires j < |ws| && Accepting(ws[j], obj, accepts)
    ensures CountAccepting(ws, obj, accepts) > 0
  {
    CountAcceptingPositive(ws, obj, accepts);
  }

  /** The map of remotes, keyed by owner. */
  class RmtMap {
    var content: map<Key, Remote>

    ghost predicate Valid()
      reads this, content.Values
    {
      forall k :: k in content ==> content[k].Valid()
    }

    constructor ()
      ensures content == map[] && Valid()
    {
      content := map[];
    }

    /**
     * `Add`: shuts down the remote stored under the owner's key, if any, and
     * stores the given one there. Only the shut-down remote's relays change.
     */
    method Add(owner: Resource, remote: Remote)
      requires Valid()
      modifies this, content.Values
      ensures content == old(content)[KeyOf(owner) := remote]
      ensures remote.Valid() ==> Valid()
      ensures forall k :: (k in old(content) &&
        !(KeyOf(owner) in old(content) && old(content[k]) == old(content[KeyOf(owner)]))) ==> unchanged(old(content[k]))
      ensures KeyOf(owner) in old(content) ==> (
        var rm := old(content[KeyOf(owner)]);
        rm.Valid() && rm.watches == old(rm.watches) && rm.started == old(rm.started) &&
        rm.hasController == old(rm.hasController) && rm.installed == old(rm.installed) && rm.sent == old(rm.sent) &&
        (rm.done == NilChan ==> rm.relays == old(rm.relays)) &&
        (rm.done != NilChan ==> (|rm.relays| == |old(rm.relays)| &&
          forall i :: 0 <= i < |rm.relays| ==> rm.relays[i] == ShutdownRelay(old(rm.relays)[i]))))
    {
      var key := KeyOf(owner);
      if key in content {
        var found := content[key];
        found.Shutdown();
        content := content - {key};
      }
      content := content[key := remote];
    }

    /** `Delete`: shuts down and removes the remote stored under the owner's key, if any; only its relays change. */
    method Delete(owner: Resource)
      requires Valid()
      modifies this, content.Values
      ensures content == old(content) - {KeyOf(owner)}
      ensures Valid()
      ensures forall k :: (k in old(content) &&
        !(KeyOf(owner) in old(content) && old(content[k]) == old(content[KeyOf(owner)]))) ==> unchanged(old(content[k]))
      ensures KeyOf(owner) in old(content) ==> (
        var rm := old(content[KeyOf(owner)]);
        rm.Valid() && rm.watches == old(rm.watches) && rm.started == old(rm.started) &&
        rm.hasController == old(rm.hasController) && rm.installed == old(rm.installed) && rm.sent == old(rm.sent) &&
        (rm.done == NilChan ==> rm.relays == old(rm.relays)) &&
        (rm.done != NilChan ==> (|rm.relays| == |old(rm.relays)| &&
          forall i :: 0 <= i < |rm.relays| ==> rm.relays[i] == ShutdownRelay(old(rm.relays)[i]))))
    {
      var key := KeyOf(owner);
      if key in content {
        var found := content[key];
        found.Shutdown();
        content := content - {key};
      }
    }

    /** `Find`: the remote stored under the owner's key. */
    method Find(owner: Resource) returns (remote: Option<Remote>)
      ensures remote.Some? <==> KeyOf(owner) in content
      ensures remote.Some? ==> remote.value == content[KeyOf(owner)]
    {
      if KeyOf(owner) in content {
        return Some(content[KeyOf(owner)]);
      }
      return None;
    }
  }

  /** On the first start of `Start` as written, a given watch is recorded but not installed. */
  method StartInstallsNothing() returns (installed: seq<Watch>)
    ensures installed == []
  {
    var remote := new Remote("host", Some(RestConfig("https://host", "", false)));
    var w := Watch(Resource("Pod", "Pod", "ns", "p", 1), [Pred(7)]);
    var env := Env(true, true, true, true);
    var _ := remote.Start([w], env);
    installed := remote.installed;
  }

  /** With `StartFixed`, the same watch is installed with the router appended. */
  method StartFixedInstalls() returns (installed: seq<Watch>)
    ensures installed == [Watch(Resource("Pod", "Pod", "ns", "p", 1), [Pred(7), RouterPred])]
  {
    var remote := new Remote("host", Some(RestConfig("https://host", "", false)));
    var w := Watch(Resource("Pod", "Pod", "ns", "p", 1), [Pred(7)]);
    var env := Env(true, true, true, true);
    WatchAllFresh([], [w]);
    assert seq(1, i requires 0 <= i < 1 => Routed([w][i])) == [Routed(w)];
    assert Routed(w).predicates == [Pred(7), RouterPred];
    var _ := remote.StartFixed([w], env);
    installed := remote.installed;
  }
}
