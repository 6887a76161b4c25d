/** What a launch acquires on the host, and what is left when it fails.

    One process at a time, cleanup actions that do their work, and any step failing: the failing step
    is a parameter. The rules are those of module Netfilter. */
module Launch {
  import opened Netfilter
  import opened Wrappers

  type Id = string
  type Pid = nat

  /** `bridged`: mode bridge and an own network namespace. `image`: a layered root, not a bare one.
      `address` is what the allocator will lease. */
  datatype Job = Job(id: Id, pid: Pid, image: bool, bridged: bool, awaitStart: bool, ports: seq<Port>, address: string)

  /** Where a launch fails. NoMount is after the container's directories were made, and iptables can
      start failing after any number of rules. */
  datatype Fault =
    | NoFault | NoStateDir | NoFifo | NoImage | NoMount | NoCgroup | NoLimits | NoFirstSave | NoLog
    | NoClone | NoBoot | NoCgroupMove | NoBridge | NoAddress | NoLink | NoWiring | NoRules(installed: nat)
    | NoRelease | NoJail | NoSecondSave

  datatype Cleanup = RemoveState | RemoveStorage | DestroyCgroup | DetachIfAttached

  // ---------------------------------------------------------------- names of interfaces

  const HOST_PREFIX := "hveth"
  const PEER_PREFIX := "hvpeer"

  function Short(id: Id): string { if |id| > 8 then id[..8] else id }

  function HostIf(id: Id): string { HOST_PREFIX + Short(id) }

  function PeerIf(id: Id): string { PEER_PREFIX + Short(id) }

  /** The length check in Attach never fires, and two containers get the same interface exactly when
      their ids agree in the first eight characters, or altogether if one is shorter. */
  lemma InterfaceNames(a: Id, b: Id)
    ensures |HostIf(a)| <= 15 && |PeerIf(a)| <= 15
    ensures HostIf(a) == "hveth" + a[..if |a| < 8 then |a| else 8]
    ensures PeerIf(a) == "hvpeer" + a[..if |a| < 8 then |a| else 8]
    ensures HostIf(a) == HostIf(b) <==> a == b || (8 <= |a| && 8 <= |b| && a[..8] == b[..8])
    ensures HostIf(a) != PeerIf(b)
  {
    assert HostIf(a)[5..] == Short(a) && HostIf(b)[5..] == Short(b);
    assert HostIf(a)[2] == 'e' && PeerIf(b)[2] == 'p';
    assert |a| <= 8 ==> a[..|a|] == a;
    assert |a| == 8 ==> a[..8] == a;
    assert |b| == 8 ==> b[..8] == b;
  }

  // ---------------------------------------------------------------- how far a launch gets

  function Install(net: Net, job: Job): seq<Op> { InstallOps(net, job.id, job.address, job.ports) }

  predicate RulesFail(net: Net, job: Job, fault: Fault) { fault.NoRules? && fault.installed < |Install(net, job)| }

  /** `links` are the interfaces there are when Attach is called. */
  predicate GetsLink(links: set<string>, job: Job, fault: Fault) {
    !fault.NoBridge? && !fault.NoAddress? && !fault.NoLink? && HostIf(job.id) !in links
  }

  predicate Attaches(net: Net, links: set<string>, job: Job, fault: Fault) {
    GetsLink(links, job, fault) && !fault.NoWiring? && !RulesFail(net, job, fault)
  }

  /** What Attach does to the packet filter, whether it succeeds or not. */
  function AttachOps(net: Net, links: set<string>, job: Job, fault: Fault): seq<Op> {
    if !GetsLink(links, job, fault) || fault.NoWiring? then []
    else if fault.NoRules? then Prefix(Install(net, job), fault.installed)
    else Install(net, job)
  }

  /** The child boots and is moved into its cgroup. */
  predicate GetsToAttach(fault: Fault) { !fault.NoClone? && !fault.NoBoot? && !fault.NoCgroupMove? }

  predicate StartIsAttached(net: Net, links: set<string>, job: Job, fault: Fault) {
    GetsToAttach(fault) && job.bridged && Attaches(net, links, job, fault)
  }

  predicate Starts(net: Net, links: set<string>, job: Job, fault: Fault) {
    GetsToAttach(fault) && (job.bridged ==> Attaches(net, links, job, fault)) && !fault.NoRelease? && !fault.NoJail?
  }

  function StartOps(net: Net, links: set<string>, job: Job, fault: Fault): seq<Op> {
    if GetsToAttach(fault) && job.bridged then AttachOps(net, links, job, fault) else []
  }

  // Before the clone. A step that the launch does not take does not fail.

  predicate GetsToMount(job: Job, fault: Fault) { !(job.awaitStart && fault.NoFifo?) && !fault.NoImage? }

  predicate GetsRoot(job: Job, fault: Fault) { GetsToMount(job, fault) && !(job.image && fault.NoMount?) }

  predicate GetsCgroup(job: Job, fault: Fault) { GetsRoot(job, fault) && !fault.NoCgroup? }

  predicate GetsRecorded(job: Job, fault: Fault) { GetsCgroup(job, fault) && !fault.NoLimits? && !fault.NoFirstSave? }

  predicate GetsToStart(job: Job, fault: Fault) { GetsRecorded(job, fault) && !(job.awaitStart && fault.NoLog?) }

  /** The container is up, whether or not that can then be recorded. */
  predicate ComesUp(net: Net, links: set<string>, job: Job, fault: Fault) {
    GetsToStart(job, fault) && Starts(net, links, job, fault)
  }

  /** Fault by fault: what a launch survives, because the step is one that it does not take. */
  predicate Survives(net: Net, job: Job, fault: Fault) {
    match fault
    case NoFault => true case NoStateDir => true case NoSecondSave => true  // before and after
    case NoFifo => !job.awaitStart case NoLog => !job.awaitStart
    case NoMount => !job.image
    case NoBridge => !job.bridged case NoAddress => !job.bridged case NoLink => !job.bridged
    case NoWiring => !job.bridged
    case NoRules(installed) => !job.bridged || installed >= |InstallOps(net, job.id, job.address, job.ports)|
    case _ => false
  }

  /** A container comes up exactly if its interface is free, should it need one, and the launch survives
      the fault. */
  lemma WhichFaultsFail(net: Net, links: set<string>, job: Job, fault: Fault)
    ensures ComesUp(net, links, job, fault)
       <==> (job.bridged ==> HostIf(job.id) !in links) && Survives(net, job, fault)
    ensures Attaches(net, links, job, fault)
       <==> HostIf(job.id) !in links && !fault.NoBridge? && !fault.NoAddress? && !fault.NoLink? && !fault.NoWiring?
              && (fault.NoRules? ==> fault.installed >= |InstallOps(net, job.id, job.address, job.ports)|)
  {
    hide HostIf, InstallOps;
  }

  /** The chains when the launch stops, for whatever reason, before anything is undone. */
  function FilterBegun(net: Net, c: Chains, links: set<string>, job: Job, fault: Fault): Chains {
    if GetsToStart(job, fault) then ApplyAll(c, StartOps(net, links, job, fault)) else c
  }

  // ---------------------------------------------------------------- the runtime

  /** The address in the rules is that of the lease. */
  function RulesRemoved(net: Net, c: Chains, leases: map<Id, string>, job: Job): Chains {
    if job.id in leases then ApplyAll(c, RemovePorts(net, job.id, leases[job.id], job.ports)) else c
  }

  lemma NothingLeftToRemove(net: Net, c: Chains, leases: map<Id, string>, job: Job)
    ensures job.id !in leases ==> RulesRemoved(net, c, leases, job) == c
  {}

  class Runtime {
    const net: Net
    var stateDirs: set<Id>
    var storages: set<Id>
    var cgroups: set<Id>
    var links: set<string>
    var leases: map<Id, string>
    var chains: Chains
    var alive: map<Pid, Id>  // the processes, and the container in whose cgroup each is, or ""

    constructor (net: Net, chains: Chains)
      ensures this.net == net && this.chains == chains
      ensures stateDirs == storages == {} && cgroups == {} && links == {} && leases == map[] && alive == map[]
    {
      this.net, this.chains := net, chains;
      stateDirs, storages, cgroups, links, leases, alive := {}, {}, {}, {}, map[], map[];
    }

    /** Nothing on the host belongs to the container, but for an interface of that name. */
    ghost predicate Unknown(job: Job)
      reads this
    {
      && job.id !in stateDirs && job.id !in storages && job.id !in cgroups && job.id !in leases
      && job.pid !in alive && job.id !in alive.Values && NoneTagged(chains, job.id)
    }

    // -------------------------------------------------------------- releasing

    method Detach(id: Id, ports: seq<Port>)
      modifies this`chains, this`links, this`leases
      ensures chains == if id in old(leases) then ApplyAll(old(chains), RemovePorts(net, id, old(leases)[id], ports))
          else old(chains)
      ensures links == old(links) - {HostIf(id)} && leases == old(leases) - {id}
    {
      var fw := new Firewall(net, chains, 0);
      fw.RemoveRules(id, if id in leases then Some(leases[id]) else None, ports);
      chains := fw.chains;
      links := links - {HostIf(id)};
      leases := leases - {id};
    }

    /** rmdir of a cgroup that has members fails. */
    method Destroy(id: Id)
      modifies this`cgroups
      ensures cgroups == if id in alive.Values then old(cgroups) else old(cgroups) - {id}
    {
      if id !in alive.Values {
        cgroups := cgroups - {id};
      }
    }

    method RunCleanup(job: Job, attached: bool, c: Cleanup)
      modifies this`stateDirs, this`storages, this`cgroups, this`chains, this`links, this`leases
      ensures stateDirs == if c.RemoveState? then old(stateDirs) - {job.id} else old(stateDirs)
      ensures storages == if c.RemoveStorage? then old(storages) - {job.id} else old(storages)
      ensures cgroups == if c.DestroyCgroup? && job.id !in alive.Values then old(cgroups) - {job.id} else old(cgroups)
      ensures var detach := c.DetachIfAttached? && attached;
              && links == (if detach then old(links) - {HostIf(job.id)} else old(links))
              && leases == (if detach then old(leases) - {job.id} else old(leases))
              && chains == if detach then RulesRemoved(net, old(chains), old(leases), job) else old(chains)
    {
      match c {
        case RemoveState => stateDirs := stateDirs - {job.id};
        case RemoveStorage => storages := storages - {job.id};
        case DestroyCgroup => Destroy(job.id);
        case DetachIfAttached => if attached { Detach(job.id, job.ports); }
      }
    }

    /** Runs what was registered, the last first. */
    method Unwind(job: Job, attached: bool, cleanups: seq<Cleanup>)
      modifies this`stateDirs, this`storages, this`cgroups, this`chains, this`links, this`leases
      ensures stateDirs == if RemoveState in cleanups then old(stateDirs) - {job.id} else old(stateDirs)
      ensures storages == if RemoveStorage in cleanups then old(storages) - {job.id} else old(storages)
      ensures cgroups == if DestroyCgroup in cleanups && job.id !in alive.Values then old(cgroups) - {job.id}
          else old(cgroups)
      ensures var detach := DetachIfAttached in cleanups && attached;
              && links == (if detach then old(links) - {HostIf(job.id)} else old(links))
              && leases == (if detach then old(leases) - {job.id} else old(leases))
              && chains == if detach then RulesRemoved(net, old(chains), old(leases), job) else old(chains)
    {
      hide HostIf, RulesRemoved;
      var i := |cleanups|;
      ghost var done: set<Cleanup> := {};
      while i > 0
        invariant 0 <= i <= |cleanups|
        invariant forall c :: c in done <==> c in cleanups[i..]
        invariant stateDirs == if RemoveState in done then old(stateDirs) - {job.id} else old(stateDirs)
        invariant storages == if RemoveStorage in done then old(storages) - {job.id} else old(storages)
        invariant cgroups == if DestroyCgroup in done && job.id !in alive.Values then old(cgroups) - {job.id}
            else old(cgroups)
        invariant var detach := DetachIfAttached in done && attached;
                  && links == (if detach then old(links) - {HostIf(job.id)} else old(links))
                  && leases == (if detach then old(leases) - {job.id} else old(leases))
                  && chains == if detach then RulesRemoved(net, old(chains), old(leases), job) else old(chains)
      {
        i := i - 1;
        assert cleanups[i..] == [cleanups[i]] + cleanups[i + 1..];
        ghost var c := chains;
        NothingLeftToRemove(net, c, leases, job);
        RunCleanup(job, attached, cleanups[i]);
        done := done + {cleanups[i]};
      }
      assert cleanups[0..] == cleanups;
    }

    // -------------------------------------------------------------- acquiring

    method InstallRules(job: Job, fault: Fault) returns (ok: bool)
      requires BuiltIn(chains)
      modifies this`chains
      ensures ok <==> !RulesFail(net, job, fault)
      ensures chains == ApplyAll(old(chains), if fault.NoRules? then Prefix(Install(net, job), fault.installed)
          else Install(net, job))
    {
      var steps := |InstallOps(net, job.id, job.address, job.ports)|;
      var fw := new Firewall(net, chains, if fault.NoRules? then fault.installed else steps);
      ok := fw.ApplyRules(job.id, job.address, job.ports);
      chains := fw.chains;
    }

    /** Attach registers nothing with its caller, so it takes back what it can by itself: the lease and
        the link, but not the rules. */
    method Attach(job: Job, fault: Fault) returns (ok: bool)
      requires BuiltIn(chains) && job.id !in leases
      modifies this`chains, this`links, this`leases
      ensures ok <==> Attaches(net, old(links), job, fault)
      ensures links == if ok then old(links) + {HostIf(job.id)} else old(links)
      ensures leases == if ok then old(leases)[job.id := job.address] else old(leases)
      ensures chains == ApplyAll(old(chains), AttachOps(net, old(links), job, fault))
    {
      hide HostIf, Install, BuiltIn;
      ok := false;
      if fault.NoBridge? || fault.NoAddress? {
        return;
      }
      leases := leases[job.id := job.address];
      var hostIf := HostIf(job.id);
      if fault.NoLink? || hostIf in links {
        leases := leases - {job.id};
        return;
      }
      links := links + {hostIf};
      if !fault.NoWiring? {
        ok := InstallRules(job, fault);
      }
      if !ok {
        links := links - {hostIf};
        leases := leases - {job.id};
      }
    }

    /** The handshake with a cloned child, and the setup callback in its middle. */
    method Shake(job: Job, fault: Fault) returns (ok: bool, attached: bool)
      requires BuiltIn(chains) && job.id !in leases && job.pid in alive && !fault.NoClone?
      modifies this`chains, this`links, this`leases, this`alive
      ensures ok <==> Starts(net, old(links), job, fault)
      ensures attached <==> StartIsAttached(net, old(links), job, fault)
      ensures links == if attached then old(links) + {HostIf(job.id)} else old(links)
      ensures leases == if attached then old(leases)[job.id := job.address] else old(leases)
      ensures chains == ApplyAll(old(chains), StartOps(net, old(links), job, fault))
      ensures alive - {job.pid} == old(alive) - {job.pid} && (ok ==> alive == old(alive)[job.pid := job.id])
    {
      hide HostIf, Install, BuiltIn;
      ok, attached := false, false;
      if fault.NoBoot? || fault.NoCgroupMove? {
        return;
      }
      alive := alive[job.pid := job.id];
      if job.bridged {
        attached := Attach(job, fault);
        if !attached {
          return;
        }
      }
      ok := !fault.NoRelease? && !fault.NoJail?;
    }

    /** Clone and handshake; when the handshake fails the child is killed and reaped. */
    method Start(job: Job, fault: Fault) returns (ok: bool, attached: bool)
      requires BuiltIn(chains) && job.id !in leases && job.pid !in alive
      modifies this`chains, this`links, this`leases, this`alive
      ensures ok <==> Starts(net, old(links), job, fault)
      ensures attached <==> StartIsAttached(net, old(links), job, fault)
      ensures links == if attached then old(links) + {HostIf(job.id)} else old(links)
      ensures leases == if attached then old(leases)[job.id := job.address] else old(leases)
      ensures chains == ApplyAll(old(chains), StartOps(net, old(links), job, fault))
      ensures alive == if ok then old(alive)[job.pid := job.id] else old(alive)
    {
      hide HostIf, Install, BuiltIn, Attaches;
      ok, attached := false, false;
      if fault.NoClone? {
        return;
      }
      alive := alive[job.pid := ""];
      assert alive - {job.pid} == old(alive);
      ok, attached := Shake(job, fault);
      if !ok {
        alive := alive - {job.pid};
      }
    }

    /** The launch up to its second save, and what it has registered by then. */
    method Acquire(job: Job, fault: Fault) returns (ok: bool, attached: bool, cleanups: seq<Cleanup>)
      requires BuiltIn(chains) && job.id !in storages && job.id !in cgroups && job.id !in leases && job.pid !in alive
      modifies this`storages, this`chains, this`links, this`leases, this`cgroups, this`alive
      ensures ok <==> ComesUp(net, old(links), job, fault) && !fault.NoSecondSave?
      ensures attached <==> GetsToStart(job, fault) && StartIsAttached(net, old(links), job, fault)
      ensures RemoveState in cleanups && (DestroyCgroup in cleanups <==> GetsCgroup(job, fault))
      ensures RemoveStorage in cleanups <==> job.image && GetsRoot(job, fault)
      ensures DetachIfAttached in cleanups <==> GetsRecorded(job, fault)
      ensures storages == if job.image && GetsToMount(job, fault) then old(storages) + {job.id} else old(storages)
      ensures cgroups == if GetsCgroup(job, fault) then old(cgroups) + {job.id} else old(cgroups)
      ensures alive == if ComesUp(net, old(links), job, fault) then old(alive)[job.pid := job.id] else old(alive)
      ensures links == if attached then old(links) + {HostIf(job.id)} else old(links)
      ensures leases == if attached then old(leases)[job.id := job.address] else old(leases)
      ensures chains == FilterBegun(net, old(chains), old(links), job, fault)
    {
      hide HostIf, Install, Starts, StartIsAttached, StartOps, BuiltIn;
      cleanups, attached, ok := [RemoveState], false, false;
      if job.awaitStart && fault.NoFifo? {
        return;
      }
      if fault.NoImage? {
        return;
      }
      if job.image {
        storages := storages + {job.id};
        if fault.NoMount? {
          return;
        }
        cleanups := cleanups + [RemoveStorage];
      }
      if fault.NoCgroup? {
        return;
      }
      cgroups := cgroups + {job.id};
      cleanups := cleanups + [DestroyCgroup];
      if fault.NoLimits? || fault.NoFirstSave? {
        return;
      }
      cleanups := cleanups + [DetachIfAttached];
      if job.awaitStart && fault.NoLog? {
        return;
      }
      ok, attached := Start(job, fault);
      ok := ok && !fault.NoSecondSave?;
    }

    /** The launch from its state directory on, undone if it fails. */
    method Attempt(job: Job, fault: Fault) returns (ok: bool)
      requires BuiltIn(chains) && job.id !in storages && job.id !in cgroups && job.id !in leases
      requires job.pid !in alive && job.id !in alive.Values
      modifies this
      ensures ok <==> ComesUp(net, old(links), job, fault) && !fault.NoSecondSave?
      ensures stateDirs == if ok then old(stateDirs) else old(stateDirs) - {job.id}
      ensures storages == if (ok && job.image) || LeavesStorage(job, fault) then old(storages) + {job.id}
          else old(storages)
      ensures cgroups == if ComesUp(net, old(links), job, fault) then old(cgroups) + {job.id} else old(cgroups)
      ensures alive == if ComesUp(net, old(links), job, fault) then old(alive)[job.pid := job.id] else old(alive)
      ensures links == if ok && job.bridged then old(links) + {HostIf(job.id)} else old(links)
      ensures leases == if ok && job.bridged then old(leases)[job.id := job.address] else old(leases)
      ensures chains == FilterLeft(net, old(chains), old(leases), old(links), job, fault, ok)
    {
      hide HostIf, Install, BuiltIn, RulesRemoved, FilterBegun, Starts, StartIsAttached, ComesUp, LeavesStorage;
      hide GetsToMount, GetsRoot, GetsCgroup, GetsRecorded, GetsToStart;
      HowFar(net, links, job, fault);
      var attached, cleanups;
      ok, attached, cleanups := Acquire(job, fault);
      assert ComesUp(net, old(links), job, fault) ==> job.pid in alive && alive[job.pid] == job.id;
      if !ok {
        Unwind(job, attached, cleanups);
      }
    }

    /** launchConfig up to the point where the container is handed over or waited for. Whatever fails,
        what is left is known exactly. */
    method Launch(job: Job, fault: Fault) returns (ok: bool)
      requires BuiltIn(chains) && (job.id !in stateDirs ==> Unknown(job))
      modifies this
      ensures ok <==>
                && job.id !in old(stateDirs) && !fault.NoStateDir? && ComesUp(net, old(links), job, fault)
                && !fault.NoSecondSave?
      ensures var up := job.id !in old(stateDirs) && !fault.NoStateDir? && ComesUp(net, old(links), job, fault);
              && cgroups == (if up then old(cgroups) + {job.id} else old(cgroups))
              && alive == if up then old(alive)[job.pid := job.id] else old(alive)
      ensures stateDirs == if ok then old(stateDirs) + {job.id} else old(stateDirs)
      ensures storages == if (ok && job.image) || (job.id !in old(stateDirs) && LeavesStorage(job, fault))
                          then old(storages) + {job.id} else old(storages)
      ensures links == if ok && job.bridged then old(links) + {HostIf(job.id)} else old(links)
      ensures leases == if ok && job.bridged then old(leases)[job.id := job.address] else old(leases)
      ensures ok ==> chains == if job.bridged then ApplyAll(old(chains), Install(net, job)) else old(chains)
      ensures job.id in old(stateDirs) ==> chains == old(chains)
      ensures !ok && job.id !in old(stateDirs) ==> FilterOk(net, old(chains), old(links), job, fault, chains)
    {
      hide HostIf, Install, BuiltIn, FilterLeft, FilterOk, NoneTagged;
      FilterIsLeft(net, chains, leases, links, job, fault);
      ok := false;
      if fault.NoStateDir? || job.id in stateDirs {
        return;
      }
      stateDirs := stateDirs + {job.id};
      ok := Attempt(job, fault);
    }

    /** A failed launch leaves nothing of the container behind, unless it failed in one of three ways:
        while mounting, between the rules of its ports, or when recording a container that is up. */
    method LaunchOrNothing(job: Job, fault: Fault) returns (ok: bool)
      requires BuiltIn(chains) && Unknown(job)
      modifies this
      ensures !ok ==> (Unknown(job) <==> !LeavesStorage(job, fault) && !LeavesRules(net, old(links), job, fault)
                                         && !(fault.NoSecondSave? && ComesUp(net, old(links), job, fault)))
      ensures !ok ==> links == old(links) && leases == old(leases) && stateDirs == old(stateDirs)
      ensures forall id :: id != job.id ==>
                             (id in storages <==> id in old(storages)) && (id in cgroups <==> id in old(cgroups))
      ensures !ok ==> OthersKept(net, job, old(chains), chains)
    {
      hide HostIf, Install, BuiltIn, ComesUp, LeavesRules, LeavesStorage, NoneTagged, OthersKept;
      ok := Launch(job, fault);
      assert !ok && fault.NoSecondSave? && ComesUp(net, old(links), job, fault) ==> job.pid in alive;
    }

    /** What a foreground run does once its command has exited. `stuck` are members of the cgroup that
        are not gone yet when rmdir is tried. */
    method Finish(job: Job, stuck: map<Pid, Id>)
      requires forall pid :: pid in stuck ==> stuck[pid] == job.id && pid !in alive
      modifies this
      ensures stateDirs == old(stateDirs) - {job.id} && links == old(links) - {HostIf(job.id)}
          && leases == old(leases) - {job.id}
      ensures storages == if job.image then old(storages) - {job.id} else old(storages)
      ensures chains == RulesRemoved(net, old(chains), old(leases), job)
      ensures alive == (old(alive) - {job.pid}) + stuck
      ensures cgroups == if job.id in alive.Values then old(cgroups) else old(cgroups) - {job.id}
    {
      alive := (alive - {job.pid}) + stuck;
      Detach(job.id, job.ports);
      Destroy(job.id);
      if job.image {
        storages := storages - {job.id};
      }
      stateDirs := stateDirs - {job.id};
    }

    /** A whole foreground run gives back everything it took, but for the shared rules, a cgroup whose
        members are slow to die, and an interface that another container has under the same name. */
    method RunForeground(job: Job, stuck: map<Pid, Id>) returns (ok: bool)
      requires BuiltIn(chains) && Unknown(job)
      requires forall pid :: pid in stuck ==> stuck[pid] == job.id && pid != job.pid && pid !in alive
      modifies this
      ensures ok <==> (job.bridged ==> HostIf(job.id) !in old(links))
      ensures stateDirs == old(stateDirs) && storages == old(storages) && leases == old(leases)
      ensures cgroups == if stuck == map[] then old(cgroups) else if ok then old(cgroups) + {job.id} else old(cgroups)
      ensures links == old(links) <==> (job.bridged || HostIf(job.id) !in old(links))
      ensures NoneTagged(chains, job.id) && OthersKept(net, job, old(chains), chains)
    {
      hide HostIf, Install, BuiltIn, NoneTagged, OthersKept, RulesRemoved, ApplyAll;
      ForegroundFilter(net, chains, leases, job);
      ok := Launch(job, NoFault);
      if ok {
        assert leases == if job.bridged then old(leases)[job.id := job.address] else old(leases);
        ghost var values := (alive - {job.pid}) + stuck;
        assert stuck == map[] ==> values == old(alive);
        assert stuck != map[] ==> exists pid :: pid in stuck;
        Finish(job, stuck);
      }
    }
  }

  /** The three ways in which a failed launch leaves something behind; the third is a container that is
      up and was not recorded. */
  predicate LeavesStorage(job: Job, fault: Fault) { job.image && fault.NoMount? }

  predicate LeavesRules(net: Net, links: set<string>, job: Job, fault: Fault) {
    job.bridged && HostIf(job.id) !in links && fault.NoRules?
      && |SharedOps(net, job.ports)| < fault.installed < |Install(net, job)|
  }

  /** The rules of others are what some of the shared operations alone would have made them. */
  ghost predicate OthersKept(net: Net, job: Job, c: Chains, c': Chains) {
    exists k: nat :: Without(c', job.id) == ApplyAll(c, Prefix(SharedOps(net, job.ports), k))
  }

  /** After a failed launch: everybody else's rules are kept, and none of the container's own are left
      unless iptables failed between them. */
  ghost predicate FilterOk(net: Net, c: Chains, links: set<string>, job: Job, fault: Fault, c': Chains) {
    OthersKept(net, job, c, c') && (NoneTagged(c', job.id) <==> !LeavesRules(net, links, job, fault))
  }

  lemma HowFar(net: Net, links: set<string>, job: Job, fault: Fault)
    ensures StartIsAttached(net, links, job, fault) ==> HostIf(job.id) !in links
    ensures ComesUp(net, links, job, fault) ==> (StartIsAttached(net, links, job, fault) <==> job.bridged)
    ensures ComesUp(net, links, job, fault) ==> GetsToStart(job, fault)
    ensures GetsToStart(job, fault) ==> GetsRecorded(job, fault)
    ensures GetsRecorded(job, fault) ==> GetsCgroup(job, fault)
    ensures GetsCgroup(job, fault) ==> GetsRoot(job, fault)
    ensures GetsRoot(job, fault) ==> GetsToMount(job, fault)
    ensures LeavesStorage(job, fault) <==> job.image && GetsToMount(job, fault) && !GetsRoot(job, fault)
  {
    hide HostIf, Install;
  }

  function FilterLeft(net: Net, c: Chains, leases: map<Id, string>, links: set<string>, job: Job, fault: Fault,
      ok: bool): Chains {
    var begun := FilterBegun(net, c, links, job, fault);
    if !ok && GetsToStart(job, fault) && StartIsAttached(net, links, job, fault)
    then RulesRemoved(net, begun, leases[job.id := job.address], job)
    else begun
  }

  /** What the unwinding makes of the chains, and what success makes of them. */
  lemma FilterIsLeft(net: Net, c: Chains, leases: map<Id, string>, links: set<string>, job: Job, fault: Fault)
    requires BuiltIn(c)
    ensures ComesUp(net, links, job, fault) ==>
              FilterLeft(net, c, leases, links, job, fault, true) == if job.bridged then ApplyAll(c, Install(net, job))
                else c
    ensures NoneTagged(c, job.id) && !fault.NoRules? ==> FilterOk(net, c, links, job, fault, c)
    ensures NoneTagged(c, job.id) ==>
        FilterOk(net, c, links, job, fault, FilterLeft(net, c, leases, links, job, fault, false))
  {
    hide Install, ApplyAll, RemovePorts, NoneTagged, OthersKept;
    Untouched(net, c, job);
    DetachedAgain(net, c, job);
    if fault.NoRules? {
      PartlyInstalled(net, c, job, fault.installed);
    }
  }

  lemma Untouched(net: Net, c: Chains, job: Job)
    ensures ApplyAll(c, []) == c
    ensures NoneTagged(c, job.id) ==> OthersKept(net, job, c, c)
  {
    if NoneTagged(c, job.id) {
      NothingToDropAnywhere(c, job.id);
      assert Prefix(SharedOps(net, job.ports), 0) == [];
    }
  }

  lemma InstallParts(net: Net, job: Job)
    ensures Install(net, job) == SharedOps(net, job.ports) + InstallPorts(net, job.id, job.address, job.ports)
    ensures forall op :: op in SharedOps(net, job.ports) ==> !Own(op, job.id)
    ensures
      var own := InstallPorts(net, job.id, job.address, job.ports);
      forall i :: 0 <= i < |own| ==> Own(own[i], job.id) && own[i].Ensure?
  {
    SharedOpsAreNobodys(net, job.id, job.ports);
    SameTexts(net, job.id, job.address, job.ports);
  }

  lemma DetachedAgain(net: Net, c: Chains, job: Job)
    ensures
      var c' := ApplyAll(ApplyAll(c, Install(net, job)), RemovePorts(net, job.id, job.address, job.ports));
      NoneTagged(c, job.id) ==>
        NoneTagged(c', job.id) && OthersKept(net, job, c, c') && c' == ApplyAll(c, SharedOps(net, job.ports))
  {
    hide SharedOps, InstallOps, Install;
    if NoneTagged(c, job.id) {
      InstallParts(net, job);
      var shared, own := SharedOps(net, job.ports), InstallPorts(net, job.id, job.address, job.ports);
      var c' := ApplyAll(ApplyAll(c, shared + own), RemovePorts(net, job.id, job.address, job.ports));
      assert forall i :: 0 <= i < |shared| ==> !Own(shared[i], job.id);
      DetachUndoesAttach(net, c, shared + own, job.id, job.address, job.ports);
      SharedPartOf(shared, own, |shared + own|, job.id);
      assert Prefix(shared, |shared|) == shared == Prefix(shared, |shared + own|)
        && Prefix(shared + own, |shared + own|) == shared + own;
      NothingToDropAnywhere(c', job.id);
    }
  }

  lemma ForegroundFilter(net: Net, c: Chains, leases: map<Id, string>, job: Job)
    requires NoneTagged(c, job.id) && job.id !in leases
    ensures OthersKept(net, job, c, c) && RulesRemoved(net, c, leases, job) == c
    ensures
      var c' := RulesRemoved(net, ApplyAll(c, Install(net, job)), leases[job.id := job.address], job);
      NoneTagged(c', job.id) && OthersKept(net, job, c, c')
  {
    hide Install, NoneTagged, OthersKept;
    Untouched(net, c, job);
    DetachedAgain(net, c, job);
  }

  lemma PartlyInstalled(net: Net, c: Chains, job: Job, n: nat)
    requires BuiltIn(c)
    ensures
      var c' := ApplyAll(c, Prefix(Install(net, job), n));
      NoneTagged(c, job.id) ==>
        OthersKept(net, job, c, c')
          && (n < |Install(net, job)| ==> (NoneTagged(c', job.id) <==> n <= |SharedOps(net, job.ports)|))
  {
    hide InstallOps, Install;
    if NoneTagged(c, job.id) {
      InstallParts(net, job);
      var shared, own := SharedOps(net, job.ports), InstallPorts(net, job.id, job.address, job.ports);
      var c' := ApplyAll(c, Prefix(shared + own, n));
      RunIsInvisible(c, Prefix(shared + own, n), job.id);
      SharedPartOf(shared, own, n, job.id);
      NothingToDropAnywhere(c, job.id);
      assert Without(c', job.id) == ApplyAll(c, Prefix(shared, n));
      if n <= |shared| {
        assert Prefix(shared + own, n) == Prefix(shared, n);
        NoneLeft(c', job.id);
      } else if n < |shared + own| {
        OwnPartStays(net, c, job, n - |shared|);
        assert Prefix(shared + own, n) == shared + own[..n - |shared|];
      }
    }
  }

  lemma OwnPartStays(net: Net, c: Chains, job: Job, n: nat)
    requires BuiltIn(c) && NoneTagged(c, job.id) && 0 < n <= |InstallPorts(net, job.id, job.address, job.ports)|
    ensures
      var begun := SharedOps(net, job.ports) + InstallPorts(net, job.id, job.address, job.ports)[..n];
      !NoneTagged(ApplyAll(c, begun), job.id)
  {
    hide SharedOps, Own;
    InstallParts(net, job);
    var shared, own := SharedOps(net, job.ports), InstallPorts(net, job.id, job.address, job.ports);
    var c1 := ApplyAll(c, shared);
    RunIsInvisible(c, shared, job.id);
    NothingToDropAnywhere(c, job.id);
    NoneOwn(shared, job.id);
    NoneLeft(c1, job.id);
    SharedRulesAreInstalledOnce(net, c, job.ports);
    SameTexts(net, job.id, job.address, job.ports);
    InstalledRulesStay(net, c1, job.id, job.address, job.ports, n, []);
    ApplyAllAppends(c, shared, own[..n]);
  }
}
