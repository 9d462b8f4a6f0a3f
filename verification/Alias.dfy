/**
  The reversible link-local alias of `studio-rdma-alias.py`. The interface is explicit state; the one
  command that adds the alias and the one that removes it may each fail before or after taking
  effect, every observation may fail, and others may change the host while the script sleeps.
  */
module Alias {
  import opened Wrappers

  // ----- The generated address -----

  const RANGE_START := 0xA9FE_0100 // 169.254.1.0
  const RANGE_END := 0xA9FE_FEFF   // 169.254.254.255, where section 2.1 of RFC 3927 ends the usable range
  const SLOTS := 16128
  const MASK := "0xfffffffc"        // the /30 mask as macOS prints it
  const DOTTED := "255.255.255.252" // and as the fabric script also takes it

  /** `alias_for`, from the first two bytes of the digest and the host's index among the two Studios. */
  function AliasFor(digest: nat, host: nat): nat {
    var network := RANGE_START + digest % SLOTS * 4;
    network + host + 1
  }

  /** The number of a dotted address. */
  function Dotted(a: nat, b: nat, c: nat, d: nat): nat {
    ((a * 256 + b) * 256 + c) * 256 + d
  }

  /** The address of the /30 with number `digest` modulo 16128, counted from 169.254.1.0. */
  lemma AliasIs(digest: nat, host: nat)
    ensures AliasFor(digest, host) == Dotted(169, 254, 1, 0) + 4 * (digest % 16128) + host + 1
    ensures RANGE_END == Dotted(169, 254, 254, 255)
  {
  }

  /** For every digest the two hosts get the two distinct host addresses of one /30 wholly inside the range. */
  lemma AliasesShareOneNetwork(digest: nat)
    ensures AliasFor(digest, 0) != AliasFor(digest, 1)
    ensures AliasFor(digest, 0) / 4 == AliasFor(digest, 1) / 4
    ensures forall host | host in {0, 1} ::
              && AliasFor(digest, host) % 4 !in {0, 3}
              && RANGE_START <= AliasFor(digest, host) / 4 * 4
              && AliasFor(digest, host) / 4 * 4 + 3 <= RANGE_END
  {
    var slot := digest % SLOTS;
    assert RANGE_START == 4 * 0x2A7F_8040;
    assert AliasFor(digest, 0) == 4 * (0x2A7F_8040 + slot) + 1;
    assert AliasFor(digest, 1) == 4 * (0x2A7F_8040 + slot) + 2;
  }

  // ----- The host -----

  /** What `capture` reads of the bridge and the routes. */
  datatype Facts = Facts(bridgeAddresses: seq<(nat, string)>, members: seq<nat>, dataRoute: nat, controlRoute: nat)

  datatype Snapshot = Snapshot(host: nat, number: nat, alias: nat, facts: Facts, target: seq<(nat, string)>)

  datatype Command = AddAlias(alias: nat) | DropAlias(alias: nat)

  /** How a run ends: nothing done, verified, rolled back, or neither. */
  datatype Outcome = Refused | Configured | RolledBack | Stranded

  predicate HasAlias(target: seq<(nat, string)>, alias: nat) {
    target == [(alias, MASK)]
  }

  /** The alias `check_bridge_endpoint` of `studio-rdma-fabric.py` approves on the native interface. */
  predicate Approved(digest: nat, host: nat, target: seq<(nat, string)>) {
    && |target| == 1
    && target[0].0 == RANGE_START + digest % SLOTS * 4 + host + 1
    && target[0].1 in {MASK, DOTTED}
  }

  /** The fabric script approves exactly the interface this script takes for configured, and the one with the same
      address under a dotted mask, which this script does not. */
  lemma ApprovedIff(digest: nat, host: nat, target: seq<(nat, string)>)
    ensures Approved(digest, host, target)
       <==> HasAlias(target, AliasFor(digest, host)) || target == [(AliasFor(digest, host), "255.255.255.252")]
    ensures HasAlias(target, AliasFor(digest, host)) <==> target == [(AliasFor(digest, host), "0xfffffffc")]
    ensures !HasAlias([(AliasFor(digest, host), "255.255.255.252")], AliasFor(digest, host))
  {
    assert MASK[0] != DOTTED[0];
  }

  /** Nothing was done, the alias was added, or it was added and then removed. */
  predicate AddedFirst(alias: nat, before: seq<Command>, after: seq<Command>) {
    || after == before
    || after == before + [AddAlias(alias)]
    || after == before + [AddAlias(alias), DropAlias(alias)]
  }

  class Machine {
    var facts: Facts
    var target: seq<(nat, string)>       // IPv4 addresses of the native interface
    var log: seq<Command>             // every command issued, in order
    var baseline: Option<Snapshot>    // the saved file
    var slept: seq<(Facts, seq<(nat, string)>)> // facts and target whenever the script went to sleep
    const digest: nat
    const quiet: bool                 // nobody else changes the host
    const reliable: bool              // the host is as declared, and no command and no observation fails

    constructor (facts: Facts, target: seq<(nat, string)>, baseline: Option<Snapshot>, digest: nat, quiet: bool,
                 reliable: bool)
      ensures this.facts == facts && this.target == target && log == [] && slept == [] && this.baseline == baseline
      ensures this.digest == digest && this.quiet == quiet && this.reliable == reliable
    {
      this.facts, this.target, log, slept, this.baseline := facts, target, [], [], baseline;
      this.digest, this.quiet, this.reliable := digest, quiet, reliable;
    }

    /** An observation or a check, and whether it passes. */
    method Look() returns (ok: bool)
      ensures reliable ==> ok
    {
      var reported: bool := *;
      ok := reported || reliable;
    }

    method Run(c: Command) returns (ok: bool)
      modifies this`target, this`log
      ensures log == old(log) + [c]
      ensures c.AddAlias? ==> target in {old(target), old(target) + [(c.alias, MASK)]}
      ensures c.DropAlias? ==> target == old(target) || target == Others(old(target), c.alias)
      ensures ok ==> target == if c.AddAlias? then old(target) + [(c.alias, MASK)] else Others(old(target), c.alias)
      ensures reliable ==> ok
    {
      log := log + [c];
      var happens: bool, reported: bool := *, *;
      if happens || reliable {
        target := if c.AddAlias? then target + [(c.alias, MASK)] else Others(target, c.alias);
      }
      ok := (happens && reported) || reliable;
    }

    method Sleep()
      modifies this`facts, this`target, this`slept
      ensures quiet ==> facts == old(facts) && target == old(target)
      ensures slept == old(slept) + [(old(facts), old(target))]
    {
      slept := slept + [(facts, target)];
      if !quiet {
        var newFacts: Facts, newTarget: seq<(nat, string)> := *, *;
        facts, target := newFacts, newTarget;
      }
    }

    /** `capture`: it raises when the bridge, the membership or a route is not as declared. */
    method Capture(host: nat, number: nat) returns (seen: Option<Snapshot>)
      ensures seen.Some? ==> seen.value == Snapshot(host, number, AliasFor(digest, host), facts, target)
      ensures seen.Some? ==> host < 2
      ensures reliable ==> (seen.Some? <==> host < 2)
    {
      var reported := Look();
      seen := None;
      if reported && host < 2 {
        seen := Some(Snapshot(host, number, AliasFor(digest, host), facts, target));
      }
    }

    /** The saved baseline is this host's, with its own alias and no direct address. */
    predicate Loadable()
      reads this
    {
      && baseline.Some? && baseline.value.host < 2
      && baseline.value.alias == AliasFor(digest, baseline.value.host) && baseline.value.target == []
    }

    /** `load`: the saved baseline, when it is this host's and had no direct address. */
    method Load() returns (loaded: Option<Snapshot>)
      ensures loaded.Some? ==>
                && baseline == loaded && loaded.value.target == [] && loaded.value.host < 2
                && loaded.value.alias == AliasFor(digest, loaded.value.host)
      ensures reliable ==> (loaded.Some? <==> Loadable())
    {
      var reported := Look();
      if reported && baseline.Some? && baseline.value.host < 2
         && baseline.value.alias == AliasFor(digest, baseline.value.host) && baseline.value.target == [] {
        return baseline;
      }
      return None;
    }

    method Rollback() returns (ok: bool)
      modifies this`target, this`log
      ensures ok ==> target == [] && baseline.Some? && facts == baseline.value.facts
      ensures log == old(log) || (baseline.Some? && log == old(log) + [DropAlias(baseline.value.alias)])
      ensures log != old(log) ==> HasAlias(old(target), baseline.value.alias)
      ensures target == old(target) || (log != old(log) && target == [])
      ensures ok ==> (log != old(log) <==> old(target) != [])
      ensures reliable ==>
                (ok <==> && old(Loadable()) && facts == baseline.value.facts
                         && (old(target) == [] || HasAlias(old(target), baseline.value.alias)))
    {
      var loaded := Load();
      if loaded.None? {
        return false;
      }
      var b := loaded.value;
      var now := Capture(b.host, b.number);
      if now.None? || now.value.facts != b.facts {
        return false;
      }
      if now.value.target != [] && !HasAlias(now.value.target, b.alias) {
        return false;
      }
      if HasAlias(now.value.target, b.alias) {
        var removed := Run(DropAlias(b.alias));
        if !removed {
          return false;
        }
      }
      var restored := Capture(b.host, b.number);
      return restored.Some? && restored.value.facts == b.facts && restored.value.target == [];
    }

    /** The five samples that follow an add. */
    method Watch(b: Snapshot) returns (ok: bool)
      requires b.alias == AliasFor(digest, b.host)
      modifies this`facts, this`target, this`slept
      ensures ok ==>
                && |slept| == |old(slept)| + 5
                && forall i | |old(slept)| <= i < |slept| :: slept[i].0 == b.facts && HasAlias(slept[i].1, b.alias)
      ensures reliable && quiet ==> (ok <==> b.host < 2 && facts == b.facts && HasAlias(target, b.alias))
      ensures quiet ==> facts == old(facts) && target == old(target)
      ensures quiet && ok ==> facts == b.facts && HasAlias(target, b.alias)
    {
      var sample := 0;
      while sample < 5
        invariant 0 <= sample <= 5
        invariant quiet ==> facts == old(facts) && target == old(target)
        invariant sample > 0 ==> b.host < 2
        invariant quiet && sample > 0 ==> facts == b.facts && HasAlias(target, b.alias)
        invariant |slept| == |old(slept)| + sample
        invariant forall i | |old(slept)| <= i < |slept| :: slept[i].0 == b.facts && HasAlias(slept[i].1, b.alias)
      {
        var after := Capture(b.host, b.number);
        var mapped := Look(); // `verify_gid`
        if after.None? || after.value.facts != b.facts || !HasAlias(after.value.target, b.alias) || !mapped {
          return false;
        }
        Sleep();
        sample := sample + 1;
      }
      return true;
    }

    /** `apply` */
    method Apply(host: nat, number: nat) returns (outcome: Outcome)
      modifies this
      ensures AddedFirst(AliasFor(digest, host), old(log), log)
      ensures outcome == Refused ==> facts == old(facts) && target == old(target) && log == old(log)
      ensures old(target) != [] || old(baseline).Some? ==> outcome == Refused && baseline == old(baseline)
      ensures outcome == RolledBack ==> target == [] && facts == old(facts)
      ensures quiet && outcome == Configured ==> HasAlias(target, AliasFor(digest, host)) && facts == old(facts)
      ensures outcome != Refused || baseline != old(baseline) ==>
                baseline == Some(Snapshot(host, number, AliasFor(digest, host), old(facts), []))
      ensures outcome == Configured ==> log == old(log) + [AddAlias(AliasFor(digest, host))]
      ensures outcome == Configured ==>
                && |slept| == |old(slept)| + 5
                && forall i | |old(slept)| <= i < |slept| ::
                     slept[i].0 == old(facts) && HasAlias(slept[i].1, AliasFor(digest, host))
      ensures reliable && quiet ==>
                outcome == if host < 2 && old(target) == [] && old(baseline).None? then Configured else Refused
      ensures reliable && outcome == Stranded ==>
                facts != old(facts) || (target != [] && !HasAlias(target, AliasFor(digest, host)))
    {
      var before := Capture(host, number);
      var enabled := Look(); // `check_rdma`
      if before.None? || !enabled || before.value.target != [] || baseline.Some? {
        return Refused;
      }
      var published := Look(); // saving may raise before or after it publishes
      var reported := Look();
      if published {
        baseline := before;
      }
      if !published || !reported {
        return Refused;
      }
      var ok := Run(AddAlias(before.value.alias));
      if ok {
        ok := Watch(before.value);
      }
      if ok {
        return Configured;
      }
      var back := Rollback();
      outcome := if back then RolledBack else Stranded;
    }

    /** `restore`: puts the saved alias back after a boot. */
    method Restore(host: nat, number: nat) returns (outcome: Outcome)
      modifies this`facts, this`target, this`log, this`slept
      ensures AddedFirst(AliasFor(digest, host), old(log), log)
      ensures HasAlias(old(target), AliasFor(digest, host)) ==> log == old(log)
      ensures outcome == Refused ==> facts == old(facts) && target == old(target) && log == old(log)
      ensures outcome == RolledBack ==> target == [] && old(target) == []
      ensures quiet && outcome == Configured ==> HasAlias(target, AliasFor(digest, host)) && facts == old(facts)
      ensures outcome == Configured ==> (log == old(log) <==> old(target) != [])
      ensures outcome == Configured ==>
                && |slept| == |old(slept)| + 5 && baseline.Some?
                && forall i | |old(slept)| <= i < |slept| ::
                     slept[i].0 == baseline.value.facts && HasAlias(slept[i].1, AliasFor(digest, host))
      ensures reliable && quiet ==>
                outcome == if && old(Loadable()) && baseline.value.host == host && baseline.value.number == number
                              && old(facts) == baseline.value.facts
                              && (old(target) == [] || HasAlias(old(target), AliasFor(digest, host)))
                           then Configured else Refused
      ensures reliable && outcome == Stranded && old(target) == [] ==>
                facts != old(facts) || (target != [] && !HasAlias(target, AliasFor(digest, host)))
    {
      var loaded := Load();
      if loaded.None? || loaded.value.host != host || loaded.value.number != number {
        return Refused;
      }
      var b := loaded.value;
      var before := Capture(host, number);
      var enabled := Look(); // `check_rdma`
      if before.None? || before.value.facts != b.facts || !enabled
         || (before.value.target != [] && !HasAlias(before.value.target, b.alias)) {
        return Refused;
      }
      var added := !HasAlias(before.value.target, b.alias);
      var ok := true;
      if added {
        ok := Run(AddAlias(b.alias));
      }
      if ok {
        ok := Watch(b);
      }
      if ok {
        return Configured;
      }
      if !added {
        return Stranded;
      }
      var back := Rollback();
      outcome := if back then RolledBack else Stranded;
    }
  }

  function Others(target: seq<(nat, string)>, alias: nat): seq<(nat, string)> {
    if target == [] then [] else (if target[0].0 == alias then [] else [target[0]]) + Others(target[1..], alias)
  }
}
