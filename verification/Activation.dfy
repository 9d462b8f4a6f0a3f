/**
  Node activation of `activate-training-node.py`: the service settings it proposes, and the
  stop, swap, start or roll back of the service plist, the `current` link and the JACCL hostfile.
  */
module Activation {
  import opened Wrappers
  import opened Paths

  // ----- `replacement` -----

  datatype Setting =
    | Text(text: string)
    | Flag(flag: bool)
    | Texts(texts: seq<string>)
    | Environment(variables: map<string, Setting>)
    | OtherSetting(code: int)

  type Settings = map<string, Setting>

  const TRAINING: map<string, Setting> := map[
    "TRAINING_ENABLED" := Text("true"),
    "TRAINING_INPUT_API_URL" := Text("http://coire-core.lab:8180")]

  function Images(agent: string, relay: string): map<string, Setting> {
    map["RUN_AGENT_IMAGE" := Text(agent), "RUN_RELAY_IMAGE" := Text(relay)]
  }

  predicate Expected(original: Settings, node: string) {
    && "Label" in original && original["Label"] == Text("com.coire.node")
    && "AbandonProcessGroup" in original && original["AbandonProcessGroup"] == Flag(true)
    && "ProgramArguments" in original
    && original["ProgramArguments"] == Texts(["/opt/coire/envs/current/bin/python3", "-m", "coire_node"])
    && "EnvironmentVariables" in original && original["EnvironmentVariables"].Environment?
    && "NODE_NAME" in original["EnvironmentVariables"].variables
    && original["EnvironmentVariables"].variables["NODE_NAME"] == Text(node)
  }

  /** `pinned` is the digest-pinning validator of the images. */
  function Replacement(original: Settings, node: string, agent: Option<string>, relay: Option<string>,
                       pinned: string -> bool): Result<Settings>
  {
    if !Expected(original, node) then Err else
    var trained := original["EnvironmentVariables"].variables + TRAINING;
    if agent.None? && relay.None? then
      Ok(original["EnvironmentVariables" := Environment(trained)])
    else if agent.None? || relay.None? || agent.value == "" || relay.value == ""
            || !pinned(agent.value) || !pinned(relay.value) then Err
    else
      Ok(original["EnvironmentVariables" := Environment(trained + Images(agent.value, relay.value))])
  }

  /** The keys a replacement may set. */
  function NamedKeys(images: bool): set<string> {
    {"TRAINING_ENABLED", "TRAINING_INPUT_API_URL"} + if images then {"RUN_AGENT_IMAGE", "RUN_RELAY_IMAGE"} else {}
  }

  lemma Overlaid(before: map<string, Setting>, extra: map<string, Setting>)
    ensures (before + extra).Keys == before.Keys + extra.Keys
    ensures (before + extra) - extra.Keys == before - extra.Keys
    ensures forall k | k in extra :: (before + extra)[k] == extra[k]
  {
  }

  /** What a replacement sets. */
  function Changes(agent: Option<string>, relay: Option<string>): map<string, Setting> {
    if agent.Some? && relay.Some? then TRAINING + Images(agent.value, relay.value) else TRAINING
  }

  lemma ChangesAreNamed(agent: Option<string>, relay: Option<string>)
    requires agent.Some? <==> relay.Some?
    ensures Changes(agent, relay).Keys == NamedKeys(agent.Some?)
  {
  }

  /** An accepted replacement lays its changes over the environment and touches nothing else. */
  lemma ReplacementMeans(
    original: Settings, node: string, agent: Option<string>, relay: Option<string>, pinned: string -> bool)
    requires Replacement(original, node, agent, relay, pinned).Ok?
    ensures Expected(original, node) && (agent.Some? <==> relay.Some?)
    ensures var before := original["EnvironmentVariables"].variables;
            Replacement(original, node, agent, relay, pinned).value ==
            original["EnvironmentVariables" := Environment(before + Changes(agent, relay))]
  {
    var before := original["EnvironmentVariables"].variables;
    if agent.Some? {
      var images := Images(agent.value, relay.value);
      assert before + (TRAINING + images) == before + TRAINING + images;
    }
  }

  /** The values of the named keys. */
  lemma ReplacementSets(
    original: Settings, node: string, agent: Option<string>, relay: Option<string>, pinned: string -> bool)
    requires Replacement(original, node, agent, relay, pinned).Ok?
    ensures var key := "EnvironmentVariables";
            var changed := Replacement(original, node, agent, relay, pinned).value;
            && key in changed && changed[key].Environment?
            && var after := changed[key].variables;
            && Find(after, "TRAINING_ENABLED") == Some(Text("true"))
            && Find(after, "TRAINING_INPUT_API_URL") == Some(Text("http://coire-core.lab:8180"))
            && (agent.Some? ==>
                  && relay.Some? && Find(after, "RUN_AGENT_IMAGE") == Some(Text(agent.value))
                  && Find(after, "RUN_RELAY_IMAGE") == Some(Text(relay.value)))
  {
    ReplacementMeans(original, node, agent, relay, pinned);
  }

  /** Every setting outside the environment, and every variable that is not one of the named keys, is kept. */
  lemma ReplacementPreserves(
    original: Settings, node: string, agent: Option<string>, relay: Option<string>, pinned: string -> bool)
    requires Replacement(original, node, agent, relay, pinned).Ok?
    ensures var changed, named, key :=
              Replacement(original, node, agent, relay, pinned).value, NamedKeys(agent.Some?), "EnvironmentVariables";
            && changed.Keys == original.Keys
            && changed - {key} == original - {key}
            && key in original && original[key].Environment? && changed[key].Environment?
            && var before, after := original[key].variables, changed[key].variables;
            && after.Keys == before.Keys + named
            && after - named == before - named
  {
    ReplacementMeans(original, node, agent, relay, pinned);
    ChangesAreNamed(agent, relay);
    Overlaid(original["EnvironmentVariables"].variables, Changes(agent, relay));
  }

  function Find(settings: Settings, key: string): Option<Setting> {
    if key in settings then Some(settings[key]) else None
  }

  /** A service is replaced exactly when it is the installed node's, with its interpreter and its name, and both images
      or neither are given, each a pinned digest. */
  lemma ReplacedIff(
    original: Settings, node: string, agent: Option<string>, relay: Option<string>, pinned: string -> bool)
    ensures Replacement(original, node, agent, relay, pinned).Ok? <==>
            && Find(original, "Label") == Some(Text("com.coire.node"))
            && Find(original, "AbandonProcessGroup") == Some(Flag(true))
            && Find(original, "ProgramArguments") ==
               Some(Texts(["/opt/coire/envs/current/bin/python3", "-m", "coire_node"]))
            && "EnvironmentVariables" in original && original["EnvironmentVariables"].Environment?
            && Find(original["EnvironmentVariables"].variables, "NODE_NAME") == Some(Text(node))
            && (|| (agent.None? && relay.None?)
                || (&& agent.Some? && relay.Some? && agent.value != "" && relay.value != ""
                    && pinned(agent.value) && pinned(relay.value)))
  {
  }

  // ----- The swap -----

  /** How an activation ends: failed before the service was asked to stop, failed in that request, activated,
      rolled back, or interrupted inside the rollback. */
  datatype Outcome = NotStarted | StopFailed | Activated | RolledBack | Stranded

  /** What happens to the service's registration and to the three files; file contents are opaque values. */
  datatype Change = Down | Up | SetPlist(plist: nat) | SetCurrent(current: Target) | SetHostfile(hostfile: Option<nat>)

  predicate AllDown(changes: seq<Change>) {
    forall i | 0 <= i < |changes| :: changes[i] == Down
  }

  /** The service is registered. */
  predicate Registered(log: seq<Change>) {
    log != [] && (log[|log| - 1] == Up || (log[|log| - 1] != Down && Registered(log[..|log| - 1])))
  }

  /** The changes of a swap and of a rollback, once the old registration is gone. */
  function SwapScript(proposed: nat, candidate: Target, inventory: nat): seq<Change> {
    [SetCurrent(candidate), SetHostfile(Some(inventory)), SetPlist(proposed), Up]
  }

  function BackScript(plist: nat, previous: Target, hostfile: Option<nat>): seq<Change> {
    [SetPlist(plist), SetCurrent(previous), SetHostfile(hostfile), Up]
  }

  lemma RegisteredAfter(log: seq<Change>, last: Change)
    ensures Registered(log + [last]) == (last == Up || (last != Down && Registered(log)))
  {
    assert (log + [last])[..|log|] == log;
  }

  class Node {
    var plist: nat
    var current: Target     // the text of the `current` link
    var hostfile: Option<nat>
    var log: seq<Change>    // every change, in order
    var raised: nat         // how many steps have raised
    const others: Links     // the other links of the host
    const home: Path        // the directory in which the `current` link really lies
    const name: nat         // its name there
    const reliable: bool    // every step succeeds, and takes effect at once
    const healthy: bool     // what the health checks then find

    constructor (plist: nat, current: Target, hostfile: Option<nat>, log: seq<Change>, others: Links, home: Path,
                 name: nat, reliable: bool, healthy: bool)
      ensures this.plist == plist && this.current == current && this.hostfile == hostfile && this.log == log
      ensures raised == 0
      ensures this.others == others && this.home == home && this.name == name
      ensures this.reliable == reliable && this.healthy == healthy
    {
      this.plist, this.current, this.hostfile, this.log, raised := plist, current, hostfile, log, 0;
      this.others, this.home, this.name, this.reliable, this.healthy := others, home, name, reliable, healthy;
    }

    /** The directory of the link is no link, and none leads to it. */
    predicate Placed() {
      Real(others, home)
    }

    function AllLinks(): Links
      reads this
    {
      others[home + [name] := current]
    }

    /** A step that touches neither the three files nor the service: a check, a temporary file. */
    method Step() returns (ok: bool)
      modifies this`raised
      ensures raised == old(raised) + if ok then 0 else 1
      ensures reliable ==> ok
    {
      var reported: bool := *;
      ok := Report(reported);
    }

    /** A step that was not reported as done has raised. */
    method Report(done: bool) returns (ok: bool)
      modifies this`raised
      ensures ok == (done || reliable)
      ensures raised == old(raised) + if ok then 0 else 1
    {
      ok := done || reliable;
      if !ok {
        raised := raised + 1;
      }
    }

    /** `bootout`: may raise before or after it takes effect, and may take effect later. */
    method Stop() returns (ok: bool)
      modifies this`log, this`raised
      ensures log == old(log) || log == old(log) + [Down]
      ensures raised == old(raised) + if ok then 0 else 1
      ensures reliable ==> ok && log == old(log) + [Down]
    {
      var happens: bool, reported: bool := *, *;
      if happens || reliable {
        log := log + [Down];
      }
      ok := Report(reported);
    }

    /** `bootstrap`: may raise before or after it takes effect. */
    method Register() returns (ok: bool)
      modifies this`log, this`raised
      ensures log == old(log) || log == old(log) + [Up]
      ensures ok ==> log == old(log) + [Up]
      ensures raised == old(raised) + if ok then 0 else 1
      ensures reliable ==> ok
    {
      var happens: bool, reported: bool := *, *;
      if happens || reliable {
        log := log + [Up];
      }
      ok := Report(happens && reported);
    }

    /** `os.replace` is atomic, and may raise before or after it happens. */
    method ReplacePlist(value: nat) returns (ok: bool)
      modifies this`plist, this`log, this`raised
      ensures (plist, log) == old((plist, log)) || (plist, log) == (value, old(log) + [SetPlist(value)])
      ensures ok ==> (plist, log) == (value, old(log) + [SetPlist(value)])
      ensures raised == old(raised) + if ok then 0 else 1
      ensures reliable ==> ok
    {
      var happens: bool, reported: bool := *, *;
      if happens || reliable {
        plist, log := value, log + [SetPlist(value)];
      }
      ok := Report(happens && reported);
    }

    method ReplaceCurrent(value: Target) returns (ok: bool)
      modifies this`current, this`log, this`raised
      ensures (current, log) == old((current, log)) || (current, log) == (value, old(log) + [SetCurrent(value)])
      ensures ok ==> (current, log) == (value, old(log) + [SetCurrent(value)])
      ensures raised == old(raised) + if ok then 0 else 1
      ensures reliable ==> ok
    {
      var happens: bool, reported: bool := *, *;
      if happens || reliable {
        current, log := value, log + [SetCurrent(value)];
      }
      ok := Report(happens && reported);
    }

    method ReplaceHostfile(value: Option<nat>) returns (ok: bool)
      modifies this`hostfile, this`log, this`raised
      ensures (hostfile, log) == old((hostfile, log)) || (hostfile, log) == (value, old(log) + [SetHostfile(value)])
      ensures ok ==> (hostfile, log) == (value, old(log) + [SetHostfile(value)])
      ensures raised == old(raised) + if ok then 0 else 1
      ensures reliable ==> ok
    {
      var happens: bool, reported: bool := *, *;
      if happens || reliable {
        hostfile, log := value, log + [SetHostfile(value)];
      }
      ok := Report(happens && reported);
    }

    /** Waits for the old registration to go: it looks at most thirty times. */
    method AwaitDown() returns (ok: bool, looks: nat)
      modifies this`log, this`raised
      ensures old(log) <= log && AllDown(log[|old(log)|..])
      ensures ok ==> !Registered(log)
      ensures raised == old(raised) + if ok then 0 else 1
      ensures looks <= 30 && (reliable && !ok ==> looks == 30)
      ensures reliable && !old(Registered(log)) ==> ok && log == old(log)
    {
      looks := 0;
      while looks < 30
        invariant looks <= 30 && raised == old(raised)
        invariant old(log) <= log && AllDown(log[|old(log)|..])
        invariant reliable && !old(Registered(log)) ==> log == old(log) && looks == 0
      {
        looks := looks + 1;
        ok := Step();
        if !ok {
          return;
        }
        if !Registered(log) {
          return;
        }
        var gone: bool := *;
        if gone {
          log := log + [Down];
        }
      }
      raised := raised + 1;
      ok := false;
    }

    /** Polls health and reconciliation: it asks at most sixty times. */
    method AwaitHealthy() returns (ok: bool, asked: nat)
      modifies this`raised
      ensures raised == old(raised) + if ok then 0 else 1
      ensures asked <= 60 && (!ok ==> asked == 60)
      ensures reliable ==> ok == healthy
    {
      ok, asked := false, 0;
      while asked < 60 && !ok
        invariant asked <= 60
        invariant reliable && ok ==> healthy
        invariant reliable && healthy && asked > 0 ==> ok
      {
        var found: bool := *;
        ok := if reliable then healthy else found;
        asked := asked + 1;
      }
      if !ok {
        raised := raised + 1;
      }
    }

    /** The new link, hostfile and plist, the new registration, and the verdict of the health checks. */
    method Install(proposed: nat, candidate: Target, inventory: nat) returns (ok: bool)
      modifies this
      ensures plist in {old(plist), proposed} && current in {old(current), candidate}
      ensures hostfile in {old(hostfile), Some(inventory)}
      ensures old(log) <= log && log[|old(log)|..] <= SwapScript(proposed, candidate, inventory)
      ensures raised == old(raised) + if ok then 0 else 1
      ensures ok ==>
                && plist == proposed && current == candidate && hostfile == Some(inventory) && Registered(log)
                && log == old(log) + [SetCurrent(candidate), SetHostfile(Some(inventory)), SetPlist(proposed), Up]
      ensures reliable ==> ok == healthy && log == old(log) + SwapScript(proposed, candidate, inventory)
    {
      ok := Step(); // the pending link
      if ok {
        ok := ReplaceCurrent(candidate);
      }
      if ok {
        ok := Step(); // the generated hostfile
      }
      if ok {
        ok := ReplaceHostfile(Some(inventory));
      }
      if ok {
        ok := ReplacePlist(proposed);
      }
      if ok {
        RegisteredAfter(log, Up);
        ok := Register();
      }
      if ok {
        var asked;
        ok, asked := AwaitHealthy();
      }
    }

    /** Everything between the stop and the verdict of the health checks. */
    method Swap(proposed: nat, candidate: Target, inventory: nat) returns (ok: bool, ghost gone: nat)
      modifies this
      ensures plist in {old(plist), proposed} && current in {old(current), candidate}
      ensures hostfile in {old(hostfile), Some(inventory)}
      ensures old(log) <= log && |old(log)| <= gone <= |log| && AllDown(log[|old(log)|..gone])
      ensures log[gone..] <= SwapScript(proposed, candidate, inventory)
      ensures raised == old(raised) + if ok then 0 else 1
      ensures ok ==>
                && plist == proposed && current == candidate && hostfile == Some(inventory) && Registered(log)
                && log[gone..] == [SetCurrent(candidate), SetHostfile(Some(inventory)), SetPlist(proposed), Up]
      ensures reliable && !old(Registered(log)) ==>
                ok == healthy && log == old(log) + SwapScript(proposed, candidate, inventory)
    {
      var looks;
      ok, looks := AwaitDown();
      ghost var before := log;
      gone := |log|;
      if ok {
        ok := Install(proposed, candidate, inventory);
        assert log[|old(log)|..gone] == before[|old(log)|..];
      }
    }

    /** The rollback, from the values kept before the stop. */
    method RollBack(originalPlist: nat, previous: Target, originalHostfile: Option<nat>) returns (ok: bool)
      modifies this
      ensures plist in {old(plist), originalPlist} && current in {old(current), previous}
      ensures hostfile in {old(hostfile), originalHostfile}
      ensures old(log) <= log
      ensures raised == old(raised) + if ok then 0 else 1
      ensures ok ==>
                && plist == originalPlist && current == previous && hostfile == originalHostfile && Registered(log)
                && var script := [SetPlist(originalPlist), SetCurrent(previous), SetHostfile(originalHostfile), Up];
                (log == old(log) + script || log == old(log) + [Down] + script)
      ensures reliable ==> ok && log == old(log) + [Down] + BackScript(originalPlist, previous, originalHostfile)
    {
      ok := Stop(); // stop whatever runs; only a timeout raises
      if ok {
        ok := Step(); // the restored plist's temporary file
      }
      if ok {
        ok := ReplacePlist(originalPlist);
      }
      if ok {
        ok := Step(); // the pending link
      }
      if ok {
        ok := ReplaceCurrent(previous);
      }
      if ok {
        ok := ReplaceHostfile(originalHostfile);
      }
      if ok {
        RegisteredAfter(log, Up);
        ok := Register();
      }
    }

    /** All or nothing over the three files, for every failure point. A stop that raises after taking effect leaves
        the service down; otherwise only a rollback that does not complete can. A completed rollback leaves a link to
        the resolved end of the original one: the original text exactly when that was an absolute path of names with
        no link on the way to it. */
    method Activate(proposed: nat, candidate: Target, inventory: nat) returns (outcome: Outcome)
      requires Placed()
      modifies this
      ensures outcome == Activated ==>
                && plist == proposed && current == candidate && hostfile == Some(inventory) && Registered(log)
                && |log| >= 4
                && log[|log| - 4..] == [SetCurrent(candidate), SetHostfile(Some(inventory)), SetPlist(proposed), Up]
      ensures outcome == RolledBack ==>
                && plist == old(plist) && hostfile == old(hostfile) && Registered(log)
                && old(Resolve(AllLinks(), home, name)).Some?
                && current == Absolute(old(Resolve(AllLinks(), home, name)).value)
                && (current == old(current) <==> old(NamesReal(AllLinks(), current)))
                && |log| >= 4
                && log[|log| - 4..] == [SetPlist(plist), SetCurrent(current), SetHostfile(hostfile), Up]
      ensures outcome in {NotStarted, StopFailed} ==>
                plist == old(plist) && current == old(current) && hostfile == old(hostfile)
      ensures outcome == NotStarted ==> log == old(log)
      ensures outcome == StopFailed ==> log == old(log) || log == old(log) + [Down]
      ensures old(Registered(log)) && !Registered(log) ==> outcome in {StopFailed, Stranded}
      ensures old(Resolve(AllLinks(), home, name)).None? ==> outcome == NotStarted
      ensures plist in {old(plist), proposed}
      ensures current in {old(current), candidate} || outcome in {RolledBack, Stranded}
      ensures hostfile in {old(hostfile), Some(inventory)}
      ensures old(log) <= log
      ensures raised - old(raised) ==
              if outcome == Activated then 0 else if outcome == Stranded then 2 else 1
      ensures reliable && old(Resolve(AllLinks(), home, name)).Some? ==>
                && outcome == (if healthy then Activated else RolledBack)
                && log == old(log) + [Down] + SwapScript(proposed, candidate, inventory)
                          + if healthy then [] else [Down] + BackScript(plist, current, hostfile)
    {
      var originalPlist, originalHostfile := plist, hostfile;
      var previous := Resolve(AllLinks(), home, name);
      if previous.None? {
        raised := raised + 1;
        return NotStarted;
      }
      var prepared := Step(); // the backup directory and its copies; a missing path on the way raises too
      if !prepared {
        return NotStarted;
      }
      HomeIsReal(others, home, name, current);
      NamesItsEndIff(AllLinks(), home, name);
      RegisteredAfter(log, Down);
      var stopped := Stop(); // when it raises, nothing is rolled back
      if !stopped {
        return StopFailed;
      }
      var ok;
      ghost var gone;
      ok, gone := Swap(proposed, candidate, inventory);
      if ok {
        return Activated;
      }
      var back := RollBack(originalPlist, Absolute(previous.value), originalHostfile);
      outcome := if back then RolledBack else Stranded;
    }
  }

  /** A link in a real directory leaves the directory real. */
  lemma HomeIsReal(others: Links, home: Path, name: nat, text: Target)
    requires Real(others, home)
    ensures Real(others[home + [name] := text], home)
  {
    forall n | 0 < n <= |home|
      ensures home[..n] !in others[home + [name] := text]
    {
      assert home[..n] != home + [name];
    }
  }
}
