/**
  The endpoint-preserving RDMA cutover of `studio-rdma-fabric.py`. The host is explicit state; every
  command may fail before or after its effect, every observation may fail, and macOS may
  reconfigure interfaces and non-static routes whenever the script sleeps or toggles the service.
  */
module Fabric {
  import opened Wrappers

  datatype Device = Loopback | Interface(number: nat)

  datatype Route = Route(device: Device, isHost: bool, isStatic: bool, viaGateway: bool)

  /** `declared` stands for the host, interface and private-subnet checks of `validate`. */
  datatype Snapshot = Snapshot(
    declared: bool, number: nat, address: nat, peer: nat, netmask: nat,
    localRouteWasStatic: bool, peerRouteWasStatic: bool)

  predicate Valid(s: Snapshot) {
    s.declared && s.peer != s.address
  }

  /** `routes` holds the entries whose destination is one address; `neighbor` is the peer's MAC, if known. */
  datatype State = State(
    bridgeUp: bool, bridgeAddresses: set<(nat, nat)>, members: set<nat>, targetAddresses: set<(nat, nat)>,
    routes: map<nat, Route>, localMac: nat, neighbor: Option<nat>)

  datatype Command =
    | BridgeDown
    | BridgeDropAddress(address: nat)
    | BridgeDropMember(number: nat)
    | TargetAddAddress(address: nat, netmask: nat)
    | TargetDropAddress(address: nat)
    | RouteAdd(destination: nat, device: Device)
    | RouteChange(destination: nat, device: Device)
    | RouteDelete(destination: nat)
    | ServiceOff
    | ServiceOn

  // ----- Observations -----

  /** `host_route_matches` */
  predicate HostRouteMatches(a: State, destination: nat, device: Device, pinned: bool) {
    && destination in a.routes
    && a.routes[destination].device == device
    && !a.routes[destination].viaGateway
    && (pinned ==> a.routes[destination].isHost && a.routes[destination].isStatic)
  }

  predicate PeerPinned(s: Snapshot, a: State) {
    HostRouteMatches(a, s.peer, Interface(s.number), true)
  }

  predicate LocalPinned(s: Snapshot, a: State) {
    HostRouteMatches(a, s.address, Loopback, true)
  }

  predicate HasAddress(addresses: set<(nat, nat)>, address: nat) {
    exists entry | entry in addresses :: entry.0 == address
  }

  function Without(addresses: set<(nat, nat)>, address: nat): set<(nat, nat)> {
    set e | e in addresses && e.0 != address
  }

  /** The endpoint is served by the bridge and by nothing else. */
  predicate BridgeServes(s: Snapshot, a: State) {
    && (s.address, s.netmask) in a.bridgeAddresses && a.bridgeUp && s.number in a.members
    && !HasAddress(a.targetAddresses, s.address)
  }

  /** The endpoint is served by the direct interface, with both routes pinned and the peer's own MAC. */
  predicate DirectServes(s: Snapshot, a: State) {
    && (s.address, s.netmask) in a.targetAddresses && !a.bridgeUp
    && PeerPinned(s, a) && LocalPinned(s, a)
    && a.neighbor.Some? && a.neighbor.value != a.localMac
  }

  /** What a completed recovery leaves: the bridge serves, and a pinned route is one of the baseline. */
  predicate Recovered(s: Snapshot, a: State) {
    BridgeServes(s, a) && NoTrialRoute(s, a)
  }

  predicate NoTrialRoute(s: Snapshot, a: State) {
    (PeerPinned(s, a) ==> s.peerRouteWasStatic) && (LocalPinned(s, a) ==> s.localRouteWasStatic)
  }

  /** What the script takes for pinned and for serving, spelled out. */
  lemma ServesIff(s: Snapshot, a: State)
    ensures PeerPinned(s, a) <==>
            s.peer in a.routes && a.routes[s.peer] == Route(Interface(s.number), true, true, false)
    ensures LocalPinned(s, a) <==>
            s.address in a.routes && a.routes[s.address] == Route(Loopback, true, true, false)
    ensures DirectServes(s, a) <==>
            && !a.bridgeUp && (s.address, s.netmask) in a.targetAddresses
            && s.peer in a.routes && a.routes[s.peer] == Route(Interface(s.number), true, true, false)
            && s.address in a.routes && a.routes[s.address] == Route(Loopback, true, true, false)
            && a.neighbor !in {None, Some(a.localMac)}
    ensures BridgeServes(s, a) <==>
            && a.bridgeUp && (s.address, s.netmask) in a.bridgeAddresses && s.number in a.members
            && forall mask: nat :: (s.address, mask) !in a.targetAddresses
  {
  }

  /** What a completed cutover leaves until macOS is given time. */
  predicate CutOver(s: Snapshot, a: State) {
    && !a.bridgeUp && !HasAddress(a.bridgeAddresses, s.address) && s.number !in a.members
    && (s.address, s.netmask) in a.targetAddresses
  }

  /** The destination has no route, or one the script may turn into the pin. */
  predicate Pinnable(a: State, d: nat, device: Device) {
    d in a.routes ==> a.routes[d].device == device && !a.routes[d].viaGateway
  }

  /** On a reliable host the direct endpoint can be proved. */
  predicate Ready(s: Snapshot, a: State) {
    && Pinnable(a, s.address, Loopback) && Pinnable(a, s.peer, Interface(s.number))
    && a.neighbor.Some? && a.neighbor.value != a.localMac
  }

  /** What `capture` accepts. */
  predicate Capturable(a: State, number: nat, peer: nat, declared: bool) {
    && declared && a.bridgeUp && number in a.members && |a.bridgeAddresses| == 1 && a.targetAddresses == {}
    && forall entry | entry in a.bridgeAddresses :: entry.0 != peer
  }

  lemma OneAddress(addresses: set<(nat, nat)>, entry: (nat, nat))
    requires |addresses| == 1 && entry in addresses
    ensures addresses == {entry}
  {
    assert |addresses - {entry}| == 0;
  }

  // ----- The commands of each action -----

  function CutoverCommands(s: Snapshot): seq<Command> {
    [BridgeDown, BridgeDropAddress(s.address), BridgeDropMember(s.number), TargetAddAddress(s.address, s.netmask)]
  }

  /** A pinned route that the baseline does not record. */
  predicate Leftover(a: State, d: nat, device: Device, wasStatic: bool) {
    HostRouteMatches(a, d, device, true) && !wasStatic
  }

  function RestoreCommands(s: Snapshot, a: State): seq<Command> {
    (if Leftover(a, s.peer, Interface(s.number), s.peerRouteWasStatic) then [RouteDelete(s.peer)] else [])
    + (if Leftover(a, s.address, Loopback, s.localRouteWasStatic) then [RouteDelete(s.address)] else [])
    + (if HasAddress(a.targetAddresses, s.address) then [TargetDropAddress(s.address)] else [])
    + [ServiceOff, ServiceOn]
  }

  function LocalCommands(s: Snapshot, a: State): seq<Command> {
    if s.address !in a.routes then [RouteAdd(s.address, Loopback)]
    else if LocalPinned(s, a) then []
    else [RouteChange(s.address, Loopback)]
  }

  function PeerCommands(s: Snapshot, a: State): seq<Command> {
    var device := Interface(s.number);
    if s.peer !in a.routes then [RouteAdd(s.peer, device)]
    else if !PeerPinned(s, a) then [RouteChange(s.peer, device)]
    else if a.neighbor == Some(a.localMac) then [RouteDelete(s.peer), RouteAdd(s.peer, device)]
    else []
  }

  // ----- The assumed effect of each command -----

  /** A static host route. */
  predicate IsStatic(a: State, d: nat) {
    d in a.routes && a.routes[d].isHost && a.routes[d].isStatic
  }

  /** No static host route appears, disappears or changes. */
  ghost predicate SameStatics(a: State, b: State) {
    forall d :: (IsStatic(a, d) || IsStatic(b, d)) ==> d in a.routes && d in b.routes && a.routes[d] == b.routes[d]
  }

  ghost predicate Does(c: Command, a: State, b: State) {
    match c
    case BridgeDown => SameStatics(a, b) && b == a.(bridgeUp := false, routes := b.routes)
    case BridgeDropAddress(x) =>
      SameStatics(a, b) && b == a.(bridgeAddresses := Without(a.bridgeAddresses, x), routes := b.routes)
    case BridgeDropMember(n) => SameStatics(a, b) && b == a.(members := a.members - {n}, routes := b.routes)
    case TargetAddAddress(x, m) =>
      SameStatics(a, b) && b == a.(targetAddresses := a.targetAddresses + {(x, m)}, routes := b.routes)
    case TargetDropAddress(x) =>
      SameStatics(a, b) && b == a.(targetAddresses := Without(a.targetAddresses, x), routes := b.routes)
    case RouteAdd(d, device) =>
      b == a.(routes := a.routes[d := Route(device, true, true, false)], neighbor := b.neighbor)
    case RouteChange(d, device) =>
      b == a.(routes := a.routes[d := Route(device, true, true, false)], neighbor := b.neighbor)
    case RouteDelete(d) => b == a.(routes := a.routes - {d}, neighbor := b.neighbor)
    case ServiceOff => SameStatics(a, b)
    case ServiceOn => SameStatics(a, b)
  }

  /** What command `c` itself changes. */
  function Effect(s: Snapshot, c: Command, a: State): State {
    match c
    case BridgeDown => a.(bridgeUp := false)
    case BridgeDropAddress(x) => a.(bridgeAddresses := Without(a.bridgeAddresses, x))
    case BridgeDropMember(n) => a.(members := a.members - {n})
    case TargetAddAddress(x, m) => a.(targetAddresses := a.targetAddresses + {(x, m)})
    case TargetDropAddress(x) => a.(targetAddresses := Without(a.targetAddresses, x))
    case RouteAdd(d, device) => a.(routes := a.routes[d := Route(device, true, true, false)])
    case RouteChange(d, device) => a.(routes := a.routes[d := Route(device, true, true, false)])
    case RouteDelete(d) => a.(routes := a.routes - {d})
    case ServiceOff => a
    case ServiceOn =>
      a.(bridgeUp := true, bridgeAddresses := a.bridgeAddresses + {(s.address, s.netmask)},
         members := a.members + {s.number}, targetAddresses := Without(a.targetAddresses, s.address))
  }

  lemma EffectDoes(s: Snapshot, c: Command, a: State)
    ensures Does(c, a, Effect(s, c, a))
    ensures c == ServiceOn ==> BridgeServes(s, Effect(s, c, a))
  {
  }

  // ----- What every run keeps -----

  /** A pinned route that the baseline does not record: the only kind the script may remove. */
  predicate Removable(s: Snapshot, d: nat, r: Route) {
    && r.isHost && r.isStatic && !r.viaGateway
    && (|| (d == s.peer && r.device == Interface(s.number) && !s.peerRouteWasStatic)
        || (d == s.address && r.device == Loopback && !s.localRouteWasStatic))
  }

  /** The route the script pins to `d`. */
  predicate IsPin(s: Snapshot, d: nat, r: Route) {
    || (d == s.peer && r == Route(Interface(s.number), true, true, false))
    || (d == s.address && r == Route(Loopback, true, true, false))
  }

  predicate SameRoute(a: State, b: State, d: nat) {
    d in a.routes && d in b.routes && a.routes[d] == b.routes[d]
  }

  /** Every other static route is still there, unchanged, and a new static route is one of the two pins. */
  ghost predicate KeepsRoutes(s: Snapshot, a: State, b: State) {
    && (forall d :: IsStatic(a, d) && !Removable(s, d, a.routes[d]) ==> SameRoute(a, b, d))
    && (forall d :: IsStatic(b, d) && !SameRoute(a, b, d) ==> IsPin(s, d, b.routes[d]))
  }

  /** Deletes touch only the two pinned destinations, and only when the baseline does not record them; a route is
      added or changed only to a pin. */
  predicate MayIssue(s: Snapshot, c: Command) {
    match c
    case RouteDelete(d) =>
      (d == s.peer && !s.peerRouteWasStatic) || (d == s.address && !s.localRouteWasStatic)
    case RouteAdd(d, device) => IsPin(s, d, Route(device, true, true, false))
    case RouteChange(d, device) => IsPin(s, d, Route(device, true, true, false))
    case BridgeDropAddress(x) => x == s.address
    case BridgeDropMember(n) => n == s.number
    case TargetAddAddress(x, _) => x == s.address
    case TargetDropAddress(x) => x == s.address
    case _ => true
  }

  /** The only routes the script may delete are the two pins, each only if the baseline does not record it. */
  lemma MayDeleteIff(s: Snapshot, d: nat)
    ensures MayIssue(s, RouteDelete(d)) <==>
            (d, false) in {(s.peer, s.peerRouteWasStatic), (s.address, s.localRouteWasStatic)}
  {
  }

  predicate Issued(s: Snapshot, before: seq<Command>, after: seq<Command>) {
    before <= after && forall i | |before| <= i < |after| :: MayIssue(s, after[i])
  }

  lemma KeepsRoutesTrans(s: Snapshot, a: State, b: State, c: State)
    requires KeepsRoutes(s, a, b) && KeepsRoutes(s, b, c)
    ensures KeepsRoutes(s, a, c)
  {
    forall d | IsStatic(a, d) && !Removable(s, d, a.routes[d])
      ensures SameRoute(a, c, d)
    {
      assert SameRoute(a, b, d);
      assert IsStatic(b, d);
    }
    forall d | IsStatic(c, d) && !SameRoute(a, c, d)
      ensures IsPin(s, d, c.routes[d])
    {
      if SameRoute(b, c, d) {
        assert IsStatic(b, d);
      }
    }
  }

  /** A run from `a` to `b` adds its states to `before`, and keeps the routes in every one of them. */
  ghost predicate Through(s: Snapshot, a: State, b: State, before: seq<State>, after: seq<State>) {
    && before <= after
    && b == (if |after| == |before| then a else after[|after| - 1])
    && forall i | |before| <= i < |after| :: KeepsRoutes(s, a, after[i])
  }

  lemma ThroughThen(s: Snapshot, a: State, b: State, c: State, x: seq<State>, y: seq<State>, z: seq<State>)
    requires Through(s, a, b, x, y) && Through(s, b, c, y, z)
    ensures Through(s, a, c, x, z) && KeepsRoutes(s, a, b) && KeepsRoutes(s, a, c)
  {
    forall i | |x| <= i < |z|
      ensures KeepsRoutes(s, a, z[i])
    {
      if i < |y| {
        assert z[i] == y[i];
      } else {
        KeepsRoutesTrans(s, a, b, z[i]);
      }
    }
  }

  /** What the script knows of a route it is about to change: a delete meets a removable one, a pin no static one. */
  predicate Harmless(s: Snapshot, c: Command, a: State) {
    match c
    case RouteDelete(d) => d in a.routes && Removable(s, d, a.routes[d])
    case RouteAdd(d, device) => !IsStatic(a, d) && IsPin(s, d, Route(device, true, true, false))
    case RouteChange(d, device) => !IsStatic(a, d) && IsPin(s, d, Route(device, true, true, false))
    case _ => true
  }

  lemma HarmlessKeeps(s: Snapshot, c: Command, a: State, b: State)
    requires Harmless(s, c, a) && Does(c, a, b)
    ensures KeepsRoutes(s, a, b)
  {
  }

  /** A command's own effect and then, perhaps, what macOS does about it. */
  lemma HarmlessRun(s: Snapshot, c: Command, a: State, b: State, d: State, before: seq<State>, after: seq<State>)
    requires Harmless(s, c, a) && Does(c, a, b) && Does(c, a, d)
    requires after == before + [b, d] || (after == before + [b] && b == d)
    ensures Through(s, a, d, before, after)
  {
    HarmlessKeeps(s, c, a, b);
    HarmlessKeeps(s, c, a, d);
  }

  // ----- The baseline -----

  /** The provenance flags as `capture` reads them. */
  predicate CapturedFrom(s: Snapshot, a: State) {
    s.peerRouteWasStatic == PeerPinned(s, a) && s.localRouteWasStatic == LocalPinned(s, a)
  }

  /** No static host route of a captured state may be removed. */
  lemma CapturedIsKept(s: Snapshot, a: State, b: State, d: nat)
    requires CapturedFrom(s, a) && KeepsRoutes(s, a, b) && IsStatic(a, d)
    ensures SameRoute(a, b, d)
  {
    assert !Removable(s, d, a.routes[d]);
  }

  /** Whatever was done to a captured state by the script, once it is recovered its static host routes are exactly
      those captured: none is lost, and no route the script made remains. */
  lemma RecoveredIsCaptured(s: Snapshot, a: State, b: State)
    requires Valid(s) && CapturedFrom(s, a) && KeepsRoutes(s, a, b) && Recovered(s, b)
    ensures SameStatics(a, b)
  {
    forall d | IsStatic(a, d) || IsStatic(b, d)
      ensures SameRoute(a, b, d)
    {
      if IsStatic(a, d) {
        CapturedIsKept(s, a, b, d);
      } else if !SameRoute(a, b, d) {
        assert IsPin(s, d, b.routes[d]);
        PinWasCaptured(s, a, b, d);
      }
    }
  }

  lemma PinWasCaptured(s: Snapshot, a: State, b: State, d: nat)
    requires Valid(s) && CapturedFrom(s, a) && Recovered(s, b) && d in b.routes && IsPin(s, d, b.routes[d])
    ensures IsStatic(a, d)
  {
  }

  /** The same when a run was killed in any state it went through, and a later restore completed. */
  lemma RecoveredFromAnyCut(s: Snapshot, a: State, b: State, before: seq<State>, after: seq<State>, cut: State,
                            c: State)
    requires Valid(s) && CapturedFrom(s, a) && Through(s, a, b, before, after)
    requires cut in [a] + after[|before|..] && KeepsRoutes(s, cut, c) && Recovered(s, c)
    ensures SameStatics(a, c)
  {
    if cut != a {
      var i :| |before| <= i < |after| && after[i] == cut;
      KeepsRoutesTrans(s, a, cut, c);
    }
    RecoveredIsCaptured(s, a, c);
  }

  // ----- The host -----

  class Host {
    var state: State
    var log: seq<Command>       // every command issued, in order
    var trace: seq<State>        // every state the host went through, in order
    var baselineSaved: bool     // the snapshot file exists
    var servicePreserved: bool  // `require_saved_bridge` passes: the persistent service is unchanged
    // No command and no observation fails on this host, asking for the service once restores the bridge at once,
    // and macOS changes nothing else meanwhile.
    const reliable: bool

    constructor (state: State, reliable: bool, baselineSaved: bool, servicePreserved: bool)
      ensures this.state == state && log == [] && trace == [] && this.reliable == reliable
      ensures this.baselineSaved == baselineSaved && this.servicePreserved == servicePreserved
    {
      this.state, log, trace, this.reliable := state, [], [], reliable;
      this.baselineSaved, this.servicePreserved := baselineSaved, servicePreserved;
    }

    /** Runs one command: it may raise before or after its effect. */
    method Run(s: Snapshot, c: Command) returns (ok: bool)
      modifies this`state, this`log, this`trace
      ensures log == old(log) + [c]
      ensures ok ==> Does(c, old(state), state)
      ensures state == old(state) || Does(c, old(state), state)
      ensures Harmless(s, c, old(state)) ==> Through(s, old(state), state, old(trace), trace)
      ensures old(trace) <= trace && (ok ==> old(trace) < trace)
      ensures reliable ==> ok && state == Effect(s, c, old(state))
    {
      log := log + [c];
      var happens: bool, reported: bool := *, *;
      if happens || reliable {
        ghost var a := state;
        state := Effect(s, c, state);
        EffectDoes(s, c, a);
        trace := trace + [state];
        ghost var first, path := state, trace;
        if !c.RouteAdd? && !c.RouteChange? && !c.RouteDelete? && !reliable {
          Reconcile(c);
        }
        if Harmless(s, c, a) {
          HarmlessRun(s, c, a, first, state, path[..|path| - 1], trace);
        }
      }
      ok := (happens && reported) || reliable;
    }

    /** What macOS may change on its own around command `c`: never a static route. */
    method Reconcile(c: Command)
      requires !c.RouteAdd? && !c.RouteChange? && !c.RouteDelete?
      modifies this`state, this`trace
      ensures SameStatics(old(state), state)
      ensures !c.ServiceOff? && !c.ServiceOn? ==> state == old(state).(routes := state.routes)
      ensures trace == old(trace) + [state]
    {
      var forget: set<nat> := *;
      var a := state;
      var dynamic := set d | d in a.routes && d in forget && !a.routes[d].isStatic;
      state := a.(routes := a.routes - dynamic);
      if c.ServiceOff? || c.ServiceOn? {
        var up: bool, members: set<nat>, mac: Option<nat> := *, *, *;
        var bridge: set<(nat, nat)>, target: set<(nat, nat)> := *, *;
        state := state.(bridgeUp := up, bridgeAddresses := bridge, members := members, targetAddresses := target,
                        neighbor := mac);
      }
      trace := trace + [state];
    }

    /** `time.sleep`: macOS may reconcile its network services meanwhile. */
    method Sleep()
      modifies this`state, this`trace
      ensures SameStatics(old(state), state)
      ensures trace == old(trace) + [state]
      ensures reliable ==> state == old(state)
    {
      if reliable {
        trace := trace + [state];
      } else {
        Reconcile(ServiceOn);
      }
    }

    /** Reading command output may raise; it changes nothing. */
    method Look() returns (ok: bool)
      ensures reliable ==> ok
    {
      var reported: bool := *;
      ok := reported || reliable;
    }

    /** `capture`; `declared` stands for the host, name and private-subnet checks. */
    method Capture(number: nat, peer: nat, declared: bool) returns (seen: Option<Snapshot>)
      ensures seen.Some? ==>
                && Valid(seen.value) && CapturedFrom(seen.value, state) && BridgeServes(seen.value, state)
                && seen.value.number == number && seen.value.peer == peer
                && state.bridgeAddresses == {(seen.value.address, seen.value.netmask)} && state.targetAddresses == {}
      ensures reliable ==> (seen.Some? <==> Capturable(state, number, peer, declared))
    {
      var looked := Look();
      if !looked || !state.bridgeUp || number !in state.members {
        return None;
      }
      if |state.bridgeAddresses| != 1 || state.targetAddresses != {} {
        return None;
      }
      var entry :| entry in state.bridgeAddresses;
      OneAddress(state.bridgeAddresses, entry);
      var s := Snapshot(declared, number, entry.0, peer, entry.1,
                        HostRouteMatches(state, entry.0, Loopback, true),
                        HostRouteMatches(state, peer, Interface(number), true));
      return if Valid(s) then Some(s) else None;
    }

    /** The saved service off and on again: the second is issued whatever became of the first. */
    method Toggle(s: Snapshot) returns (ok: bool)
      modifies this`state, this`log, this`trace
      ensures SameStatics(old(state), state)
      ensures Through(s, old(state), state, old(trace), trace)
      ensures log == old(log) + [ServiceOff, ServiceOn]
      ensures ok ==> |trace| >= |old(trace)| + 2 // both took effect
      ensures reliable ==> ok && BridgeServes(s, state)
    {
      EffectDoes(s, ServiceOn, Effect(s, ServiceOff, state));
      var off := Run(s, ServiceOff);
      ghost var stopped, path := state, trace;
      var on := Run(s, ServiceOn);
      ThroughThen(s, old(state), stopped, state, old(trace), path, trace);
      SameStaticsTrans(old(state), stopped, state);
      ok := off && on;
    }

    /** `reactivate_saved_bridge`: the service is always asked to come on again. */
    method ReactivateSavedBridge(s: Snapshot) returns (ok: bool)
      modifies this`state, this`log, this`trace
      ensures ok ==> BridgeServes(s, state)
      ensures SameStatics(old(state), state)
      ensures Through(s, old(state), state, old(trace), trace)
      ensures log == old(log) + if servicePreserved then [ServiceOff, ServiceOn] else []
      ensures reliable && servicePreserved ==> ok
    {
      if !servicePreserved {
        return false;
      }
      ok := Toggle(s);
      if ok {
        ghost var toggled, path := state, trace;
        ok := AwaitBridge(s);
        ThroughThen(s, old(state), toggled, state, old(trace), path, trace);
        SameStaticsTrans(old(state), toggled, state);
      }
    }

    /** Up to five samples, with time for macOS to reconcile between them. */
    method AwaitBridge(s: Snapshot) returns (ok: bool)
      modifies this`state, this`trace
      ensures ok ==> BridgeServes(s, state)
      ensures SameStatics(old(state), state)
      ensures Through(s, old(state), state, old(trace), trace)
      ensures |trace| <= |old(trace)| + 4
      ensures reliable ==> (ok <==> old(BridgeServes(s, state))) && |trace| == |old(trace)| + if ok then 0 else 4
    {
      var sample := 0;
      while sample < 5
        invariant 0 <= sample <= 5
        invariant SameStatics(old(state), state)
        invariant Through(s, old(state), state, old(trace), trace)
        invariant |trace| == |old(trace)| + if sample == 0 then 0 else sample - 1
        invariant reliable ==> state == old(state) && (BridgeServes(s, state) ==> sample == 0)
      {
        if sample > 0 {
          ghost var awake, path := state, trace;
          Sleep();
          ThroughThen(s, old(state), awake, state, old(trace), path, trace);
          SameStaticsTrans(old(state), awake, state);
        }
        var looked := Look();
        if !looked {
          return false;
        }
        if BridgeServes(s, state) {
          return true;
        }
        sample := sample + 1;
      }
      return false;
    }

    /** One route of `restore`: a pinned route that the baseline does not record is deleted. */
    method RemoveTrialRoute(s: Snapshot, d: nat, device: Device, wasStatic: bool) returns (ok: bool)
      requires Valid(s)
      requires (d, device, wasStatic) == (s.peer, Interface(s.number), s.peerRouteWasStatic)
            || (d, device, wasStatic) == (s.address, Loopback, s.localRouteWasStatic)
      modifies this`state, this`log, this`trace
      ensures ok ==> (HostRouteMatches(state, d, device, true) ==> wasStatic)
      ensures state == old(state).(routes := state.routes, neighbor := state.neighbor)
      ensures state.routes - {d} == old(state).routes - {d}
      ensures Through(s, old(state), state, old(trace), trace)
      ensures Issued(s, old(log), log)
      ensures ok ==> log == old(log) + if Leftover(old(state), d, device, wasStatic) then [RouteDelete(d)] else []
      ensures reliable ==> ok
    {
      ok := Look();
      if ok && !wasStatic && HostRouteMatches(state, d, device, true) {
        ok := Run(s, RouteDelete(d));
      }
    }

    /** The first half of `restore`: both pinned routes. */
    method RemoveTrialRoutes(s: Snapshot) returns (ok: bool)
      requires Valid(s)
      modifies this`state, this`log, this`trace
      ensures ok ==> NoTrialRoute(s, state)
      ensures state == old(state).(routes := state.routes, neighbor := state.neighbor)
      ensures Through(s, old(state), state, old(trace), trace)
      ensures Issued(s, old(log), log)
      ensures ok ==>
                log == old(log)
                + (if Leftover(old(state), s.peer, Interface(s.number), s.peerRouteWasStatic)
                   then [RouteDelete(s.peer)] else [])
                + (if Leftover(old(state), s.address, Loopback, s.localRouteWasStatic)
                   then [RouteDelete(s.address)] else [])
      ensures reliable ==> ok
    {
      ok := RemoveTrialRoute(s, s.peer, Interface(s.number), s.peerRouteWasStatic);
      if ok {
        ghost var first, path := state, trace;
        LocalPinKept(s, old(state), first);
        ok := RemoveTrialRoute(s, s.address, Loopback, s.localRouteWasStatic);
        ThroughThen(s, old(state), first, state, old(trace), path, trace);
        PeerPinKept(s, first, state);
      }
    }

    /** `restore`: recovers from any state the host may be in. */
    method Restore(s: Snapshot) returns (ok: bool)
      modifies this`state, this`log, this`trace
      ensures ok ==> Recovered(s, state) && log == old(log) + RestoreCommands(s, old(state))
      ensures Through(s, old(state), state, old(trace), trace)
      ensures Issued(s, old(log), log)
      ensures Valid(s) && servicePreserved && reliable ==> ok
    {
      if !Valid(s) || !servicePreserved {
        return false;
      }
      ok := RemoveTrialRoutes(s);
      if ok {
        ghost var cleared, path := state, trace;
        ok := ReturnToBridge(s);
        ThroughThen(s, old(state), cleared, state, old(trace), path, trace);
        PinsKept(s, cleared, state);
      }
    }

    /** The second half of `restore`: the address leaves the direct interface and the bridge comes back. */
    method ReturnToBridge(s: Snapshot) returns (ok: bool)
      requires servicePreserved
      modifies this`state, this`log, this`trace
      ensures ok ==> BridgeServes(s, state)
      ensures SameStatics(old(state), state)
      ensures Through(s, old(state), state, old(trace), trace)
      ensures Issued(s, old(log), log)
      ensures ok ==>
                log == old(log)
                + (if HasAddress(old(state).targetAddresses, s.address) then [TargetDropAddress(s.address)] else [])
                + [ServiceOff, ServiceOn]
      ensures reliable ==> ok
    {
      ok := LeaveTarget(s);
      if ok {
        ghost var left, path := state, trace;
        ok := ReactivateSavedBridge(s);
        ThroughThen(s, old(state), left, state, old(trace), path, trace);
        SameStaticsTrans(old(state), left, state);
      }
    }

    /** The direct interface gives the saved address up, if it has it. */
    method LeaveTarget(s: Snapshot) returns (ok: bool)
      modifies this`state, this`log, this`trace
      ensures SameStatics(old(state), state)
      ensures Through(s, old(state), state, old(trace), trace)
      ensures Issued(s, old(log), log)
      ensures ok ==>
                log == old(log)
                + if HasAddress(old(state).targetAddresses, s.address) then [TargetDropAddress(s.address)] else []
      ensures reliable ==> ok
    {
      ok := Look();
      if ok && HasAddress(state.targetAddresses, s.address) {
        ok := Run(s, TargetDropAddress(s.address));
      }
    }

    /** `install_local_route` */
    method InstallLocalRoute(s: Snapshot) returns (ok: bool)
      requires Valid(s)
      modifies this`state, this`log, this`trace
      ensures ok ==> LocalPinned(s, state) && log == old(log) + LocalCommands(s, old(state))
      ensures state == old(state).(routes := state.routes, neighbor := state.neighbor)
      ensures state.routes - {s.address} == old(state).routes - {s.address}
      ensures Through(s, old(state), state, old(trace), trace)
      ensures Issued(s, old(log), log)
      ensures reliable ==> state.neighbor == old(state).neighbor && (ok <==> Pinnable(old(state), s.address, Loopback))
    {
      ok := Look();
      if !ok || HostRouteMatches(state, s.address, Loopback, true) {
        return;
      }
      if HostRouteMatches(state, s.address, Loopback, false) {
        ok := Run(s, RouteChange(s.address, Loopback));
      } else if s.address in state.routes {
        ok := false;
      } else {
        ok := Run(s, RouteAdd(s.address, Loopback));
      }
    }

    /** A pinned route of an earlier trial that leads to this host itself is deleted and added anew. */
    method ReplacePeerRoute(s: Snapshot) returns (ok: bool)
      requires Valid(s) && !s.peerRouteWasStatic && PeerPinned(s, state)
      modifies this`state, this`log, this`trace
      ensures ok ==> PeerPinned(s, state)
      ensures ok ==> log == old(log) + [RouteDelete(s.peer), RouteAdd(s.peer, Interface(s.number))]
      ensures state == old(state).(routes := state.routes, neighbor := state.neighbor)
      ensures state.routes - {s.peer} == old(state).routes - {s.peer}
      ensures Through(s, old(state), state, old(trace), trace)
      ensures Issued(s, old(log), log)
      ensures reliable ==> ok && state.neighbor == old(state).neighbor
    {
      ok := Run(s, RouteDelete(s.peer));
      if ok {
        ghost var deleted, path := state, trace;
        ok := Run(s, RouteAdd(s.peer, Interface(s.number)));
        ThroughThen(s, old(state), deleted, state, old(trace), path, trace);
      }
    }

    /** `install_peer_route` */
    method InstallPeerRoute(s: Snapshot) returns (ok: bool)
      requires Valid(s)
      modifies this`state, this`log, this`trace
      ensures ok ==> PeerPinned(s, state) && log == old(log) + PeerCommands(s, old(state))
      ensures state == old(state).(routes := state.routes, neighbor := state.neighbor)
      ensures state.routes - {s.peer} == old(state).routes - {s.peer}
      ensures Through(s, old(state), state, old(trace), trace)
      ensures Issued(s, old(log), log)
      ensures reliable ==>
                && state.neighbor == old(state).neighbor
                && (old(state).neighbor != Some(old(state).localMac) ==>
                      (ok <==> Pinnable(old(state), s.peer, Interface(s.number))))
    {
      ok := Look();
      if !ok {
        return;
      }
      var device := Interface(s.number);
      if HostRouteMatches(state, s.peer, device, true) {
        ok := Look();
        if !ok || state.neighbor != Some(state.localMac) {
          return;
        }
        if s.peerRouteWasStatic {
          return false;
        }
        ok := ReplacePeerRoute(s);
      } else if HostRouteMatches(state, s.peer, device, false) {
        ok := Run(s, RouteChange(s.peer, device));
      } else if s.peer in state.routes {
        ok := false;
      } else {
        ok := Run(s, RouteAdd(s.peer, device));
      }
    }

    /** `verify_direct`: five good samples, with time for macOS to reconcile between them. */
    method VerifyDirect(s: Snapshot) returns (ok: bool)
      modifies this`state, this`trace
      ensures ok ==>
                && |trace| == |old(trace)| + 4 && DirectServes(s, old(state)) && DirectServes(s, state)
                && forall i | |old(trace)| <= i < |trace| :: DirectServes(s, trace[i])
      ensures SameStatics(old(state), state)
      ensures Through(s, old(state), state, old(trace), trace)
      ensures reliable ==> state == old(state) && (ok <==> DirectServes(s, old(state)))
    {
      var sample := 0;
      while sample < 5
        invariant 0 <= sample <= 5
        invariant SameStatics(old(state), state)
        invariant Through(s, old(state), state, old(trace), trace)
        invariant |trace| == |old(trace)| + if sample == 0 then 0 else sample - 1
        invariant sample == 0 ==> state == old(state)
        invariant sample > 0 ==> DirectServes(s, old(state)) && DirectServes(s, state)
        invariant forall i | |old(trace)| <= i < |trace| :: DirectServes(s, trace[i])
        invariant reliable ==> state == old(state)
      {
        if sample > 0 {
          ghost var awake, path := state, trace;
          Sleep();
          ThroughThen(s, old(state), awake, state, old(trace), path, trace);
          SameStaticsTrans(old(state), awake, state);
        }
        var looked := Look();
        if !looked || !DirectServes(s, state) {
          return false;
        }
        sample := sample + 1;
      }
      return true;
    }

    /** The cutover commands, in order, up to the first that fails. */
    method Cutover(s: Snapshot) returns (ok: bool)
      modifies this`state, this`log, this`trace
      ensures ok ==> CutOver(s, state) && |trace| > |old(trace)| && state == trace[|trace| - 1]
      ensures ok ==> log == old(log) + [BridgeDown, BridgeDropAddress(s.address), BridgeDropMember(s.number),
                                        TargetAddAddress(s.address, s.netmask)]
      ensures !ok ==> old(log) < log <= old(log) + CutoverCommands(s)
      ensures SameStatics(old(state), state)
      ensures Through(s, old(state), state, old(trace), trace)
      ensures Issued(s, old(log), log)
      ensures reliable ==> ok && state.routes == old(state).routes && state.neighbor == old(state).neighbor
      ensures reliable ==> state.localMac == old(state).localMac
    {
      var commands := CutoverCommands(s);
      var i := 0;
      ok := true;
      while i < |commands| && ok
        invariant 0 <= i <= |commands|
        invariant SameStatics(old(state), state)
        invariant Through(s, old(state), state, old(trace), trace)
        invariant Issued(s, old(log), log)
        invariant log == old(log) + commands[..i]
        invariant ok ==> Advanced(s, state, i)
        invariant ok && i > 0 ==> |trace| > |old(trace)|
        invariant i == 0 ==> ok
        invariant reliable ==>
                    && ok && state.routes == old(state).routes && state.neighbor == old(state).neighbor
                    && state.localMac == old(state).localMac
      {
        ghost var now, path := state, trace;
        ok := Run(s, commands[i]);
        ThroughThen(s, old(state), now, state, old(trace), path, trace);
        if ok {
          Advances(s, now, state, i);
        }
        i := i + 1;
      }
    }

    /** The three steps that pin both routes and prove the direct endpoint. */
    method PinAndVerify(s: Snapshot) returns (ok: bool)
      requires Valid(s)
      modifies this`state, this`log, this`trace
      ensures ok ==> DirectServes(s, state)
      ensures |old(trace)| <= |trace|
      ensures ok ==>
                exists a | a in [old(state)] + trace[|old(trace)|..] ::
                  DirectServes(s, a) && a == old(state).(routes := a.routes, neighbor := a.neighbor)
      ensures Through(s, old(state), state, old(trace), trace)
      ensures Issued(s, old(log), log)
      ensures reliable ==> (ok <==> Serving(s, old(state)) && Ready(s, old(state)))
      ensures reliable && ok ==>
                && state == old(state).(routes := state.routes)
                && log == old(log) + LocalCommands(s, old(state)) + PeerCommands(s, old(state))
    {
      ok := InstallLocalRoute(s);
      if ok {
        ghost var first, path := state, trace;
        PeerKept(s, old(state), first);
        ok := InstallPeerRoute(s);
        ThroughThen(s, old(state), first, state, old(trace), path, trace);
        if ok {
          ghost var second, way := state, trace;
          LocalPinKept(s, first, second);
          ok := VerifyDirect(s);
          ThroughThen(s, old(state), second, state, old(trace), way, trace);
          if ok {
            assert second in [old(state)] + trace[|old(trace)|..];
          }
        }
      }
    }

    /** What `apply` tries once the baseline is saved. */
    method Attempt(s: Snapshot) returns (ok: bool)
      requires Valid(s)
      modifies this`state, this`log, this`trace
      ensures ok ==> DirectServes(s, state)
      ensures ok ==> exists i | |old(trace)| <= i < |trace| :: CutOver(s, trace[i]) && DirectServes(s, trace[i])
      ensures Through(s, old(state), state, old(trace), trace)
      ensures Issued(s, old(log), log)
      ensures reliable ==> (ok <==> Ready(s, old(state)))
      ensures reliable && ok ==>
                && CutOver(s, state)
                && log == old(log) + CutoverCommands(s) + LocalCommands(s, old(state)) + PeerCommands(s, old(state))
    {
      ok := Cutover(s);
      if ok {
        ghost var first, path := state, trace;
        ok := PinAndVerify(s);
        ThroughThen(s, old(state), first, state, old(trace), path, trace);
        if ok {
          StillCutOver(s, first, path, trace);
        }
      }
    }

    /** `apply` */
    method Apply(s: Snapshot) returns (outcome: Outcome)
      modifies this
      ensures outcome == Refused ==> state == old(state) && log == old(log) && trace == old(trace)
      ensures outcome == Verified ==> DirectServes(s, state)
      ensures outcome == Verified ==>
                exists i | |old(trace)| <= i < |trace| :: CutOver(s, trace[i]) && DirectServes(s, trace[i])
      ensures outcome == RolledBack ==> Recovered(s, state)
      ensures old(baselineSaved) ==> outcome == Refused && baselineSaved
      ensures outcome != Refused ==> baselineSaved
      ensures Through(s, old(state), state, old(trace), trace)
      ensures Issued(s, old(log), log)
      ensures servicePreserved == old(servicePreserved)
      ensures servicePreserved && reliable ==> outcome != Stranded
      ensures reliable ==>
                && (outcome == Refused <==> !Valid(s) || old(baselineSaved))
                && (outcome == Verified <==> Valid(s) && !old(baselineSaved) && Ready(s, old(state)))
      ensures reliable && outcome == Verified ==>
                && CutOver(s, state)
                && log == old(log) + CutoverCommands(s) + LocalCommands(s, old(state)) + PeerCommands(s, old(state))
    {
      if !Valid(s) || baselineSaved {
        return Refused;
      }
      var published: bool, reported: bool := *, *; // `save_snapshot` may raise before or after it publishes
      baselineSaved := published || reliable;
      if !baselineSaved || !(reported || reliable) {
        return Refused;
      }
      var ok := Attempt(s);
      if ok {
        return Verified;
      }
      ghost var failed, path := state, trace;
      var restored := Restore(s);
      ThroughThen(s, old(state), failed, state, old(trace), path, trace);
      outcome := if restored then RolledBack else Stranded;
    }

    /** The apply action: captures the baseline and cuts over. A run that is rolled back leaves the captured static
        host routes, and the bridge serving as captured. */
    method Trial(number: nat, peer: nat, declared: bool) returns (s: Option<Snapshot>, outcome: Outcome)
      modifies this
      ensures s.None? ==> outcome == Refused
      ensures s.Some? ==> CapturedFrom(s.value, old(state)) && BridgeServes(s.value, old(state))
      ensures outcome == Refused ==> state == old(state) && log == old(log) && trace == old(trace)
      ensures outcome == Verified ==> DirectServes(s.value, state)
      ensures outcome == RolledBack ==> BridgeServes(s.value, state) && SameStatics(old(state), state)
      ensures s.Some? ==> Through(s.value, old(state), state, old(trace), trace) && Issued(s.value, old(log), log)
      ensures s.Some? ==> Valid(s.value)
      ensures reliable ==>
                && (s.Some? <==> Capturable(old(state), number, peer, declared))
                && (outcome == Verified <==> s.Some? && !old(baselineSaved) && Ready(s.value, old(state)))
    {
      s := Capture(number, peer, declared);
      if s.None? {
        return s, Refused;
      }
      outcome := Apply(s.value);
      if outcome == RolledBack {
        RecoveredIsCaptured(s.value, old(state), state);
      }
    }

    /** The restore action some time after a run was killed. */
    method RestoreLater(s: Snapshot) returns (ok: bool)
      modifies this`state, this`log, this`trace
      ensures ok ==> Recovered(s, state)
      ensures KeepsRoutes(s, old(state), state)
      ensures Valid(s) && servicePreserved && reliable ==> ok
    {
      ghost var path := trace;
      Sleep();
      ghost var found, way := state, trace;
      ok := Restore(s);
      ThroughThen(s, old(state), found, state, path, way, trace);
    }

    /** The apply action killed at any moment, and the restore action on the host as the kill left it. A restore that
        completes leaves the captured static host routes and the bridge serving. */
    method KilledTrial(number: nat, peer: nat, declared: bool) returns (s: Option<Snapshot>, left: Host, ok: bool)
      modifies this
      ensures fresh(left)
      ensures ok ==> s.Some? && BridgeServes(s.value, left.state) && SameStatics(old(state), left.state)
      ensures s.Some? && servicePreserved && reliable ==> ok
    {
      var start, before := state, |trace|;
      var outcome;
      s, outcome := Trial(number, peer, declared);
      var passed := [start] + trace[before..];
      var n :| 0 <= n < |passed|;
      left := new Host(passed[n], reliable, baselineSaved, servicePreserved);
      ok := false;
      if s.Some? {
        ok := left.RestoreLater(s.value);
        if ok {
          RecoveredFromAnyCut(s.value, old(state), state, old(trace), trace, passed[n], left.state);
        }
      }
    }

    /** `repair_peer_route`, for a baseline that is already on disk. */
    method RepairPeerRoute(s: Snapshot, peerDeclared: bool) returns (outcome: Outcome)
      modifies this`state, this`log, this`trace
      ensures outcome == Refused ==> state == old(state) && log == old(log) && trace == old(trace)
      ensures outcome == Verified ==> DirectServes(s, state)
      ensures outcome == RolledBack ==> Recovered(s, state)
      ensures Through(s, old(state), state, old(trace), trace)
      ensures Issued(s, old(log), log)
      ensures servicePreserved && reliable ==> outcome != Stranded
      ensures reliable ==>
                && (outcome == Refused <==> !(Valid(s) && Serving(s, old(state)) && peerDeclared))
                && (outcome == Verified <==>
                      Valid(s) && Serving(s, old(state)) && peerDeclared && Ready(s, old(state)))
    {
      var looked := Look();
      if !Valid(s) || !looked || (s.address, s.netmask) !in state.targetAddresses || state.bridgeUp || !peerDeclared {
        return Refused;
      }
      var ok := PinAndVerify(s);
      if ok {
        return Verified;
      }
      ghost var failed, path := state, trace;
      var restored := Restore(s);
      ThroughThen(s, old(state), failed, state, old(trace), path, trace);
      outcome := if restored then RolledBack else Stranded;
    }
  }

  /** How a mutating run ends: nothing done, the cutover proved, the baseline restored, or neither. */
  datatype Outcome = Refused | Verified | RolledBack | Stranded

  /** How far the cutover has come after `n` of its commands. */
  predicate Advanced(s: Snapshot, a: State, n: nat) {
    && (n >= 1 ==> !a.bridgeUp)
    && (n >= 2 ==> !HasAddress(a.bridgeAddresses, s.address))
    && (n >= 3 ==> s.number !in a.members)
    && (n >= 4 ==> (s.address, s.netmask) in a.targetAddresses)
  }

  lemma Advances(s: Snapshot, a: State, b: State, n: nat)
    requires n < 4 && Advanced(s, a, n) && Does(CutoverCommands(s)[n], a, b)
    ensures Advanced(s, b, n + 1)
  {
  }

  /** The endpoint is on the direct interface and the bridge is down. */
  predicate Serving(s: Snapshot, a: State) {
    (s.address, s.netmask) in a.targetAddresses && !a.bridgeUp
  }

  /** A state with the same interfaces as one that is cut over, found among the states behind it. */
  lemma StillCutOver(s: Snapshot, first: State, path: seq<State>, trace: seq<State>)
    requires path <= trace && path != [] && first == path[|path| - 1] && CutOver(s, first)
    requires exists a | a in [first] + trace[|path|..] ::
               DirectServes(s, a) && a == first.(routes := a.routes, neighbor := a.neighbor)
    ensures exists i | |path| - 1 <= i < |trace| :: CutOver(s, trace[i]) && DirectServes(s, trace[i])
  {
    var a :| a in [first] + trace[|path|..] && DirectServes(s, a)
             && a == first.(routes := a.routes, neighbor := a.neighbor);
    if a == first {
      assert trace[|path| - 1] == first;
    } else {
      var k :| 0 <= k < |trace[|path|..]| && trace[|path|..][k] == a;
      assert trace[|path| + k] == a;
    }
  }

  /** A change of one destination leaves the others. */
  lemma PeerKept(s: Snapshot, a: State, b: State)
    requires Valid(s) && b == a.(routes := b.routes, neighbor := b.neighbor)
    requires a.routes - {s.address} == b.routes - {s.address}
    ensures Pinnable(a, s.peer, Interface(s.number)) == Pinnable(b, s.peer, Interface(s.number))
    ensures a.neighbor == b.neighbor ==> PeerCommands(s, a) == PeerCommands(s, b)
  {
    OtherRouteKept(a, b, s.address, s.peer);
  }

  lemma LocalPinKept(s: Snapshot, a: State, b: State)
    requires Valid(s) && a.routes - {s.peer} == b.routes - {s.peer}
    ensures LocalPinned(s, a) == LocalPinned(s, b)
  {
    OtherRouteKept(a, b, s.peer, s.address);
  }

  lemma OtherRouteKept(a: State, b: State, changed: nat, d: nat)
    requires a.routes - {changed} == b.routes - {changed} && d != changed
    ensures d in a.routes <==> d in b.routes
    ensures d in a.routes ==> a.routes[d] == b.routes[d]
  {
    var rest := a.routes - {changed};
    assert d in a.routes <==> d in rest;
    assert d in rest ==> rest[d] == a.routes[d] == b.routes[d];
  }

  lemma PeerPinKept(s: Snapshot, a: State, b: State)
    requires Valid(s) && a.routes - {s.address} == b.routes - {s.address}
    ensures PeerPinned(s, a) == PeerPinned(s, b)
  {
    OtherRouteKept(a, b, s.address, s.peer);
  }

  lemma SameStaticsTrans(a: State, b: State, c: State)
    requires SameStatics(a, b) && SameStatics(b, c)
    ensures SameStatics(a, c)
  {
    forall d | IsStatic(a, d) || IsStatic(c, d)
      ensures SameRoute(a, c, d)
    {
      assert IsStatic(b, d);
    }
  }

  lemma PinsKept(s: Snapshot, a: State, b: State)
    requires SameStatics(a, b)
    ensures PeerPinned(s, a) == PeerPinned(s, b) && LocalPinned(s, a) == LocalPinned(s, b)
  {
    assert IsStatic(a, s.peer) == IsStatic(b, s.peer);
    assert IsStatic(a, s.address) == IsStatic(b, s.address);
  }
}
