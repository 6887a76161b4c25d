/** The packet filter rules of published ports: how they are installed, shared and taken back.

    A rule is the argument list given to iptables, and a chain is the list of its rules. One step is
    one check-and-append, check-and-insert or delete; a check that fails for another reason than
    absence is not modelled. */
module Netfilter {
  import opened Packets
  import opened Wrappers

  datatype Chain = Chain(table: string, name: string)

  type Chains = map<Chain, seq<Rule>>

  datatype Op =
    | NewChain(chain: Chain)                      // -N
    | Ensure(chain: Chain, rule: Rule)            // -C, and -A unless it is there
    | EnsureFirst(chain: Chain, rule: Rule)       // -C, and -I 1 unless it is there
    | Delete(chain: Chain, rule: Rule)            // -D, the first one

  datatype Port = Port(hostPort: string, containerPort: string, protocol: string)

  datatype Net = Net(bridge: string, cidr: string)

  function DeleteFirst(rules: seq<Rule>, rule: Rule): seq<Rule> {
    if rules == [] then []
    else if rules[0] == rule then rules[1..]
    else [rules[0]] + DeleteFirst(rules[1..], rule)
  }

  function Apply(c: Chains, op: Op): Chains {
    if op.NewChain? then (if op.chain in c then c else c[op.chain := []])
    else if op.chain !in c then c
    else
      var rules := c[op.chain];
      match op
      case Ensure(chain, rule) => if rule in rules then c else c[chain := rules + [rule]]
      case EnsureFirst(chain, rule) => if rule in rules then c else c[chain := [rule] + rules]
      case Delete(chain, rule) => c[chain := DeleteFirst(rules, rule)]
  }

  function ApplyAll(c: Chains, ops: seq<Op>): Chains
    decreases |ops|
  {
    if ops == [] then c else ApplyAll(Apply(c, ops[0]), ops[1..])
  }

  // ---------------------------------------------------------------- the rule texts

  const NAT := Chain("nat", "HUSK-POSTROUTING")
  const DNAT := Chain("nat", "HUSK-DNAT")
  const FORWARD := Chain("filter", "HUSK-FORWARD")

  function Tag(id: string): string { "husk:" + id }

  function ProtocolOf(p: Port): string { if p.protocol == "" then "tcp" else p.protocol }

  /** What publishPort installs for one mapping. */
  function InstallPort(net: Net, id: string, ip: string, p: Port): seq<Op> {
    [ Ensure(DNAT, ["-p", ProtocolOf(p), "--dport", p.hostPort, "-j", "DNAT",
                    "--to-destination", ip + ":" + p.containerPort, "-m", "comment", "--comment", "husk:" + id]),
      Ensure(FORWARD, ["-d", ip, "-p", ProtocolOf(p), "--dport", p.containerPort, "-o", net.bridge,
                       "-j", "ACCEPT", "-m", "comment", "--comment", "husk:" + id]) ]
  }

  /** What removeRules deletes for one mapping. */
  function RemovePort(net: Net, id: string, ip: string, p: Port): seq<Op> {
    [ Delete(DNAT, ["-p", ProtocolOf(p), "--dport", p.hostPort, "-j", "DNAT",
                    "--to-destination", ip + ":" + p.containerPort, "-m", "comment", "--comment", "husk:" + id]),
      Delete(FORWARD, ["-d", ip, "-p", ProtocolOf(p), "--dport", p.containerPort, "-o", net.bridge,
                       "-j", "ACCEPT", "-m", "comment", "--comment", "husk:" + id]) ]
  }

  function InstallPorts(net: Net, id: string, ip: string, ports: seq<Port>): seq<Op> {
    if ports == [] then []
    else InstallPorts(net, id, ip, ports[..|ports| - 1]) + InstallPort(net, id, ip, ports[|ports| - 1])
  }

  function RemovePorts(net: Net, id: string, ip: string, ports: seq<Port>): seq<Op> {
    if ports == [] then []
    else RemovePorts(net, id, ip, ports[..|ports| - 1]) + RemovePort(net, id, ip, ports[|ports| - 1])
  }

  function LinkOps(chain: Chain, parent: Chain): seq<Op> {
    [NewChain(chain), EnsureFirst(parent, ["-j", chain.name])]
  }

  function OutputOps(): seq<Op> { [EnsureFirst(Chain("nat", "OUTPUT"), ["-j", DNAT.name])] }

  /** ensureChains: the three chains, and the jumps that lead into them. */
  function ChainOps(): seq<Op> {
    LinkOps(NAT, Chain("nat", "POSTROUTING")) + LinkOps(DNAT, Chain("nat", "PREROUTING"))
    + LinkOps(FORWARD, Chain("filter", "FORWARD")) + OutputOps()
  }

  /** The masquerade, and the three general forward rules. */
  function EgressRules(net: Net): seq<(Chain, Rule)> {
    [ (NAT, ["-s", net.cidr, "!", "-o", net.bridge, "-j", "MASQUERADE"]),
      (FORWARD, ["-i", net.bridge, "!", "-o", net.bridge, "-j", "ACCEPT"]),
      (FORWARD, ["-o", net.bridge, "-m", "conntrack", "--ctstate", "RELATED,ESTABLISHED", "-j", "ACCEPT"]),
      (FORWARD, ["-i", net.bridge, "-o", net.bridge, "-j", "ACCEPT"]) ]
  }

  function Ensures(rules: seq<(Chain, Rule)>): (ops: seq<Op>)
    ensures |ops| == |rules| && forall i :: 0 <= i < |rules| ==> ops[i] == Ensure(rules[i].0, rules[i].1)
  {
    seq(|rules|, i requires 0 <= i < |rules| => Ensure(rules[i].0, rules[i].1))
  }

  function EgressOps(net: Net): seq<Op> { Ensures(EgressRules(net)) }

  function LoopbackOps(net: Net, ports: seq<Port>): seq<Op> {
    if ports == [] then [] else [Ensure(NAT, ["-s", "127.0.0.0/8", "-d", net.cidr, "-j", "MASQUERADE"])]
  }

  function SharedOps(net: Net, ports: seq<Port>): seq<Op> {
    ChainOps() + (EgressOps(net) + LoopbackOps(net, ports))
  }

  function InstallOps(net: Net, id: string, ip: string, ports: seq<Port>): seq<Op> {
    SharedOps(net, ports) + InstallPorts(net, id, ip, ports)
  }

  // ---------------------------------------------------------------- whose rule is it

  predicate Tagged(rule: Rule, id: string) { rule != [] && rule[|rule| - 1] == Tag(id) }

  predicate OpTagged(op: Op, id: string) { !op.NewChain? && Tagged(op.rule, id) }

  /** An operation of the container itself: it ensures or deletes rules with its tag. */
  predicate Own(op: Op, id: string) { OpTagged(op, id) }

  /** The rules of a chain that do not belong to the container, in order. */
  function Drop(rules: seq<Rule>, id: string): seq<Rule> {
    if rules == [] then []
    else if Tagged(rules[0], id) then Drop(rules[1..], id)
    else [rules[0]] + Drop(rules[1..], id)
  }

  function Without(c: Chains, id: string): Chains {
    map chain | chain in c :: Drop(c[chain], id)
  }

  function OthersOf(ops: seq<Op>, id: string): seq<Op> {
    if ops == [] then []
    else if Own(ops[0], id) then OthersOf(ops[1..], id)
    else [ops[0]] + OthersOf(ops[1..], id)
  }

  predicate NoneTagged(c: Chains, id: string) {
    forall chain :: chain in c ==> forall rule :: rule in c[chain] ==> !Tagged(rule, id)
  }

  lemma {:induction false} DropAppends(a: seq<Rule>, b: seq<Rule>, id: string)
    ensures Drop(a + b, id) == Drop(a, id) + Drop(b, id)
  {
    if a == [] {
      assert a + b == b;
    } else {
      assert (a + b)[1..] == a[1..] + b;
      DropAppends(a[1..], b, id);
    }
  }

  lemma {:induction false} DropKeepsOthers(rules: seq<Rule>, id: string, rule: Rule)
    ensures rule in Drop(rules, id) <==> rule in rules && !Tagged(rule, id)
  {
    if rules != [] {
      DropKeepsOthers(rules[1..], id, rule);
      assert rule in rules <==> rule == rules[0] || rule in rules[1..];
    }
  }

  lemma {:induction false} DropThenDelete(rules: seq<Rule>, id: string, rule: Rule)
    ensures Drop(DeleteFirst(rules, rule), id) == if Tagged(rule, id) then Drop(rules, id)
        else DeleteFirst(Drop(rules, id), rule)
  {
    if rules != [] && rules[0] != rule {
      DropThenDelete(rules[1..], id, rule);
      var tail := DeleteFirst(rules[1..], rule);
      assert ([rules[0]] + tail)[1..] == tail;
      assert !Tagged(rules[0], id) ==> ([rules[0]] + Drop(rules[1..], id))[1..] == Drop(rules[1..], id);
    } else if rules != [] && !Tagged(rule, id) {
      assert ([rules[0]] + Drop(rules[1..], id))[1..] == Drop(rules[1..], id);
    }
  }

  lemma {:induction false} NothingToDrop(rules: seq<Rule>, id: string)
    requires forall rule :: rule in rules ==> !Tagged(rule, id)
    ensures Drop(rules, id) == rules
  {
    if rules != [] {
      NothingToDrop(rules[1..], id);
    }
  }

  lemma NothingToDropAnywhere(c: Chains, id: string)
    requires NoneTagged(c, id)
    ensures Without(c, id) == c
  {
    forall chain | chain in c ensures Drop(c[chain], id) == c[chain] {
      NothingToDrop(c[chain], id);
    }
  }

  lemma WithoutUpdated(c: Chains, chain: Chain, rules: seq<Rule>, id: string)
    ensures Without(c[chain := rules], id) == Without(c, id)[chain := Drop(rules, id)]
  {}

  /** To everybody else, the container's own operations do not happen. */
  lemma StepIsInvisible(c: Chains, op: Op, id: string)
    ensures Without(Apply(c, op), id) == if Own(op, id) then Without(c, id) else Apply(Without(c, id), op)
  {
    if op.NewChain? {
      WithoutUpdated(c, op.chain, [], id);
    } else if op.chain in c {
      var rules := c[op.chain];
      assert Without(c, id) == Without(c, id)[op.chain := Drop(rules, id)];
      DropKeepsOthers(rules, id, op.rule);
      assert Drop([op.rule], id) == if Tagged(op.rule, id) then [] else [op.rule];
      match op {
        case Ensure(chain, rule) =>
          DropAppends(rules, [rule], id);
          assert Drop(rules, id) + [] == Drop(rules, id);
          WithoutUpdated(c, chain, rules + [rule], id);
        case EnsureFirst(chain, rule) =>
          DropAppends([rule], rules, id);
          WithoutUpdated(c, chain, [rule] + rules, id);
        case Delete(chain, rule) =>
          DropThenDelete(rules, id, rule);
          WithoutUpdated(c, chain, DeleteFirst(rules, rule), id);
      }
    }
  }

  lemma {:induction false} RunIsInvisible(c: Chains, ops: seq<Op>, id: string)
    ensures Without(ApplyAll(c, ops), id) == ApplyAll(Without(c, id), OthersOf(ops, id))
    decreases |ops|
  {
    if ops != [] {
      StepIsInvisible(c, ops[0], id);
      RunIsInvisible(Apply(c, ops[0]), ops[1..], id);
      assert !Own(ops[0], id) ==> ([ops[0]] + OthersOf(ops[1..], id))[1..] == OthersOf(ops[1..], id);
    }
  }

  // ---------------------------------------------------------------- what the container leaves behind

  /** Every rule with the tag was ensured by one of `own`, and is there once. */
  ghost predicate Accounted(c: Chains, id: string, own: seq<Op>) {
    forall chain :: chain in c ==> RulesAccounted(c[chain], chain, id, own)
  }

  ghost predicate RulesAccounted(rules: seq<Rule>, chain: Chain, id: string, own: seq<Op>) {
    && (forall rule :: rule in rules && Tagged(rule, id) ==> Ensure(chain, rule) in own)
    && Single(rules, id)
  }

  ghost predicate Single(rules: seq<Rule>, id: string) {
    forall i, j :: 0 <= i < j < |rules| && Tagged(rules[i], id) ==> rules[i] != rules[j]
  }

  lemma {:induction false} DeleteKeepsRules(rules: seq<Rule>, rule: Rule, id: string)
    requires Single(rules, id)
    ensures Single(DeleteFirst(rules, rule), id)
    ensures forall r :: r in DeleteFirst(rules, rule) ==> r in rules
    ensures Tagged(rule, id) ==> rule !in DeleteFirst(rules, rule)
  {
    if rules != [] {
      assert Single(rules[1..], id) by {
        assert forall i, j :: 0 <= i < j < |rules| - 1 ==>
                                rules[1..][i] == rules[i + 1] && rules[1..][j] == rules[j + 1];
      }
      DeleteKeepsRules(rules[1..], rule, id);
      var tail := DeleteFirst(rules[1..], rule);
      if rules[0] == rule {
        assert forall j :: 0 < j < |rules| && Tagged(rules[0], id) ==> rules[0] != rules[j];
      } else {
        assert Tagged(rules[0], id) ==> rules[0] !in rules[1..];
        assert Single([rules[0]] + tail, id);
      }
    }
  }

  lemma StepIsAccounted(c: Chains, op: Op, id: string, own: seq<Op>)
    requires Accounted(c, id, own)
    requires Own(op, id) ==> op in own || op.Delete?
    requires op.EnsureFirst? ==> !Own(op, id)
    ensures Accounted(Apply(c, op), id, own)
  {
    if !op.NewChain? && op.chain in c {
      var rules := c[op.chain];
      assert RulesAccounted(rules, op.chain, id, own);
      DeleteKeepsRules(rules, op.rule, id);
      match op {
        case Ensure(_, rule) => assert rule !in rules ==> RulesAccounted(rules + [rule], op.chain, id, own);
        case EnsureFirst(_, rule) => assert rule !in rules ==> RulesAccounted([rule] + rules, op.chain, id, own);
        case Delete(_, rule) => assert RulesAccounted(DeleteFirst(rules, rule), op.chain, id, own);
      }
    }
  }

  /** A trace in which the container only installs its rules, and everybody else does as they like. */
  predicate Mixed(ops: seq<Op>, id: string, own: seq<Op>) {
    forall i | 0 <= i < |ops| :: (Own(ops[i], id) ==> ops[i] in own && ops[i].Ensure?)
  }

  lemma {:induction false} RunIsAccounted(c: Chains, ops: seq<Op>, id: string, own: seq<Op>)
    requires Accounted(c, id, own) && Mixed(ops, id, own)
    ensures Accounted(ApplyAll(c, ops), id, own)
    decreases |ops|
  {
    if ops != [] {
      StepIsAccounted(c, ops[0], id, own);
      RunIsAccounted(Apply(c, ops[0]), ops[1..], id, own);
    }
  }

  lemma {:induction false} ApplyAllAppends(c: Chains, a: seq<Op>, b: seq<Op>)
    ensures ApplyAll(c, a + b) == ApplyAll(ApplyAll(c, a), b)
    decreases |a|
  {
    if a == [] {
      assert a + b == b;
    } else {
      assert (a + b)[1..] == a[1..] + b;
      ApplyAllAppends(Apply(c, a[0]), a[1..], b);
    }
  }

  /** The removal deletes the very texts the installation ensured, in the same order. */
  lemma {:induction false} SameTexts(net: Net, id: string, ip: string, ports: seq<Port>)
    ensures
      var own, gone := InstallPorts(net, id, ip, ports), RemovePorts(net, id, ip, ports);
      |own| == |gone| == 2 * |ports|
      && forall i :: 0 <= i < |own| ==>
           own[i].Ensure? && Own(own[i], id) && gone[i] == Delete(own[i].chain, own[i].rule)
  {
    if ports != [] {
      SameTexts(net, id, ip, ports[..|ports| - 1]);
    }
  }

  lemma {:induction false} RemovalClears(c: Chains, id: string, own: seq<Op>, gone: seq<Op>, done: nat)
    requires |own| == |gone| && done <= |own| && Accounted(c, id, own)
    requires forall i :: 0 <= i < |own| ==>
                           own[i].Ensure? && Own(own[i], id) && gone[i] == Delete(own[i].chain, own[i].rule)
    requires Cleared(c, own, done)
    ensures NoneTagged(ApplyAll(c, gone[done..]), id)
    decreases |own| - done
  {
    if done == |own| {
      forall chain, rule | chain in c && rule in c[chain] ensures !Tagged(rule, id) {
        assert RulesAccounted(c[chain], chain, id, own);
      }
    } else {
      var c' := Apply(c, gone[done]);
      StepIsAccounted(c, gone[done], id, own);
      OneMoreCleared(c, id, own, done);
      assert gone[done..][1..] == gone[done + 1..];
      RemovalClears(c', id, own, gone, done + 1);
    }
  }

  ghost predicate Cleared(c: Chains, own: seq<Op>, done: nat)
    requires done <= |own|
  {
    forall i :: 0 <= i < done && own[i].Ensure? && own[i].chain in c ==> own[i].rule !in c[own[i].chain]
  }

  lemma OneMoreCleared(c: Chains, id: string, own: seq<Op>, done: nat)
    requires done < |own| && Accounted(c, id, own) && Cleared(c, own, done) && own[done].Ensure? && Own(own[done], id)
    ensures Cleared(Apply(c, Delete(own[done].chain, own[done].rule)), own, done + 1)
  {
    if own[done].chain in c {
      assert RulesAccounted(c[own[done].chain], own[done].chain, id, own);
      DeleteKeepsRules(c[own[done].chain], own[done].rule, id);
    }
  }

  lemma {:induction false} OwnOnly(ops: seq<Op>, id: string)
    requires forall i :: 0 <= i < |ops| ==> Own(ops[i], id)
    ensures OthersOf(ops, id) == []
  {
    if ops != [] {
      OwnOnly(ops[1..], id);
    }
  }

  /** Attach and Detach are neutral. Start with no rule of the container; let it install the rules of
      its mappings, in any order and as often as it likes, among any operations on other rules; then
      remove the mappings. The chains are what the other operations alone would have made them: no
      rule of the container is left, and every other rule and its order is there. */
  lemma DetachUndoesAttach(net: Net, c: Chains, trace: seq<Op>, id: string, ip: string, ports: seq<Port>)
    requires NoneTagged(c, id) && Mixed(trace, id, InstallPorts(net, id, ip, ports))
    ensures
      var after := ApplyAll(ApplyAll(c, trace), RemovePorts(net, id, ip, ports));
      NoneTagged(after, id) && after == ApplyAll(c, OthersOf(trace, id))
  {
    var own, gone := InstallPorts(net, id, ip, ports), RemovePorts(net, id, ip, ports);
    var mid := ApplyAll(c, trace);
    var after := ApplyAll(mid, gone);
    SameTexts(net, id, ip, ports);
    forall chain | chain in c ensures RulesAccounted(c[chain], chain, id, own) {
      assert forall i :: 0 <= i < |c[chain]| ==> c[chain][i] in c[chain];
    }
    RunIsAccounted(c, trace, id, own);
    RemovalClears(mid, id, own, gone, 0);
    assert gone[0..] == gone;
    NothingToDropAnywhere(c, id);
    NothingToDropAnywhere(after, id);
    OwnOnly(gone, id);
    RunIsInvisible(c, trace, id);
    RunIsInvisible(mid, gone, id);
  }

  /** The shared operations are nobody's. */
  lemma SharedOpsAreNobodys(net: Net, id: string, ports: seq<Port>)
    ensures forall op :: op in SharedOps(net, ports) ==> !Own(op, id)
  {
    assert Tag(id)[0] == 'h' && "MASQUERADE"[0] == 'M' && "ACCEPT"[0] == 'A';
    assert NAT.name[0] == 'H' && DNAT.name[0] == 'H' && FORWARD.name[0] == 'H';
  }

  /** One container's installation and removal are not another's. */
  lemma OthersOpsAreTheirs(net: Net, id: string, other: string, ip: string, ports: seq<Port>)
    requires id != other
    ensures forall op :: op in InstallPorts(net, other, ip, ports) + RemovePorts(net, other, ip, ports) ==> !Own(op, id)
  {
    SameTexts(net, other, ip, ports);
    assert Tag(id)[5..] == id && Tag(other)[5..] == other;
  }

  /** An operation that some other container's Attach or Detach really makes. */
  ghost predicate ByAnother(net: Net, op: Op, id: string) {
    || (exists ports :: op in SharedOps(net, ports))
    || (exists other, ip, ports ::
          other != id && op in InstallPorts(net, other, ip, ports) + RemovePorts(net, other, ip, ports))
  }

  lemma AnothersIsNotOwn(net: Net, op: Op, id: string)
    requires ByAnother(net, op, id)
    ensures !Own(op, id)
  {
    if ports :| op in SharedOps(net, ports) {
      SharedOpsAreNobodys(net, id, ports);
    } else {
      var other, ip, ports :|
        other != id && op in InstallPorts(net, other, ip, ports) + RemovePorts(net, other, ip, ports);
      OthersOpsAreTheirs(net, id, other, ip, ports);
    }
  }

  /** One container's Attach, any number of other containers' whole Attaches and Detaches, all of their
      operations interleaved, and then its Detach: the chains are what the other containers' operations
      alone would have made. */
  lemma ContainersDoNotDisturb(net: Net, c: Chains, trace: seq<Op>, id: string, ip: string, ports: seq<Port>)
    requires NoneTagged(c, id)
    requires forall i :: 0 <= i < |trace| ==>
                           trace[i] in InstallPorts(net, id, ip, ports) || ByAnother(net, trace[i], id)
    ensures
      var after := ApplyAll(ApplyAll(c, trace), RemovePorts(net, id, ip, ports));
      NoneTagged(after, id) && after == ApplyAll(c, OthersOf(trace, id))
  {
    hide SharedOps, Own, ApplyAll;
    var own := InstallPorts(net, id, ip, ports);
    SameTexts(net, id, ip, ports);
    forall i | 0 <= i < |trace| && Own(trace[i], id) ensures trace[i] in own && trace[i].Ensure? {
      if trace[i] !in own {
        AnothersIsNotOwn(net, trace[i], id);
        assert false;
      }
    }
    DetachUndoesAttach(net, c, trace, id, ip, ports);
  }

  lemma {:induction false} OthersOfTwo(a: seq<Op>, b: seq<Op>, id: string)
    ensures OthersOf(a + b, id) == OthersOf(a, id) + OthersOf(b, id)
  {
    if a == [] {
      assert a + b == b;
    } else {
      assert (a + b)[1..] == a[1..] + b;
      OthersOfTwo(a[1..], b, id);
    }
  }

  lemma {:induction false} NoneOwn(ops: seq<Op>, id: string)
    requires forall op :: op in ops ==> !Own(op, id)
    ensures OthersOf(ops, id) == ops
  {
    if ops != [] {
      NoneOwn(ops[1..], id);
    }
  }

  function Prefix(ops: seq<Op>, n: nat): seq<Op> { if n < |ops| then ops[..n] else ops }

  /** Of an installation cut off anywhere, the shared part is what others see. */
  lemma SharedPartOf(shared: seq<Op>, own: seq<Op>, n: nat, id: string)
    requires (forall op :: op in shared ==> !Own(op, id)) && forall i :: 0 <= i < |own| ==> Own(own[i], id)
    ensures OthersOf(Prefix(shared + own, n), id) == Prefix(shared, n)
  {
    var a, b := Prefix(shared, n), if n < |shared| then [] else own[..|Prefix(shared + own, n)| - |shared|];
    assert Prefix(shared + own, n) == a + b;
    OthersOfTwo(a, b, id);
    NoneOwn(a, id);
    OwnOnly(b, id);
  }

  // ---------------------------------------------------------------- rules that are never taken back

  lemma StepKeepsForeignRule(c: Chains, op: Op, id: string, chain: Chain, rule: Rule)
    requires chain in c && rule in c[chain] && Tagged(rule, id) && !Own(op, id)
    ensures chain in Apply(c, op) && rule in Apply(c, op)[chain]
  {
    if !op.NewChain? && op.chain == chain {
      DeleteKeepsOthers(c[chain], op.rule, rule);
    }
  }

  lemma {:induction false} DeleteKeepsOthers(rules: seq<Rule>, gone: Rule, rule: Rule)
    requires rule in rules && rule != gone
    ensures rule in DeleteFirst(rules, gone)
  {
    if rules[0] != gone && rules[0] != rule {
      DeleteKeepsOthers(rules[1..], gone, rule);
    }
  }

  lemma {:induction false} RunKeepsForeignRule(c: Chains, ops: seq<Op>, id: string, chain: Chain, rule: Rule)
    requires chain in c && rule in c[chain] && Tagged(rule, id) && OthersOf(ops, id) == ops
    ensures chain in ApplyAll(c, ops) && rule in ApplyAll(c, ops)[chain]
    decreases |ops|
  {
    if ops != [] {
      OthersShrink(ops[1..], id);
      StepKeepsForeignRule(c, ops[0], id, chain, rule);
      RunKeepsForeignRule(Apply(c, ops[0]), ops[1..], id, chain, rule);
    }
  }

  lemma {:induction false} OthersShrink(ops: seq<Op>, id: string)
    ensures |OthersOf(ops, id)| <= |ops|
  {
    if ops != [] {
      OthersShrink(ops[1..], id);
    }
  }

  /** An Attach that fails while publishing ports does not take its rules back, and neither does a
      removal that finds no lease. The first rule installed is then there for good, whatever the other
      containers do; only a container that installed none leaves nothing. */
  lemma InstalledRulesStay(net: Net, c: Chains, id: string, ip: string, ports: seq<Port>, installed: nat,
      later: seq<Op>)
    requires NoneTagged(c, id) && DNAT in c && installed <= 2 * |ports| && OthersOf(later, id) == later
    ensures
      |InstallPorts(net, id, ip, ports)| == 2 * |ports|
      && var left := ApplyAll(ApplyAll(c, InstallPorts(net, id, ip, ports)[..installed]), later);
         NoneTagged(left, id) <==> installed == 0
  {
    var own := InstallPorts(net, id, ip, ports);
    SameTexts(net, id, ip, ports);
    if installed > 0 {
      FirstOp(net, id, ip, ports);
      var c1 := Apply(c, own[0]);
      assert own[..installed][0] == own[0];
      RunKeepsOwnRule(c1, own[..installed][1..], DNAT, own[0].rule);
      RunKeepsForeignRule(ApplyAll(c, own[..installed]), later, id, DNAT, own[0].rule);
    } else {
      NothingToDropAnywhere(c, id);
      RunIsInvisible(c, later, id);
      NoneLeft(ApplyAll(c, later), id);
    }
  }

  lemma NoneLeft(c: Chains, id: string)
    requires Without(c, id) == c
    ensures NoneTagged(c, id)
  {
    forall chain, rule | chain in c && rule in c[chain] ensures !Tagged(rule, id) {
      assert Without(c, id)[chain] == c[chain];
      DropKeepsOthers(c[chain], id, rule);
    }
  }

  lemma {:induction false} FirstOp(net: Net, id: string, ip: string, ports: seq<Port>)
    requires ports != []
    ensures InstallPorts(net, id, ip, ports) != [] && InstallPorts(net, id, ip, ports)[0].Ensure?
        && InstallPorts(net, id, ip, ports)[0].chain == DNAT
  {
    if |ports| > 1 {
      FirstOp(net, id, ip, ports[..|ports| - 1]);
    }
  }

  lemma {:induction false} RunKeepsOwnRule(c: Chains, ops: seq<Op>, chain: Chain, rule: Rule)
    requires chain in c && rule in c[chain] && forall i :: 0 <= i < |ops| ==> ops[i].Ensure?
    ensures chain in ApplyAll(c, ops) && rule in ApplyAll(c, ops)[chain]
    decreases |ops|
  {
    if ops != [] {
      RunKeepsOwnRule(Apply(c, ops[0]), ops[1..], chain, rule);
    }
  }

  // ---------------------------------------------------------------- installing again changes nothing

  predicate Present(c: Chains, op: Op) {
    op.chain in c && (op.NewChain? || op.rule in c[op.chain])
  }

  /** In this order every operation finds its chain. */
  predicate Ready(c: Chains, ops: seq<Op>)
    decreases |ops|
  {
    ops == [] || ((ops[0].NewChain? || ops[0].chain in c) && !ops[0].Delete? && Ready(Apply(c, ops[0]), ops[1..]))
  }

  lemma {:induction false} InstalledIsPresent(c: Chains, ops: seq<Op>, seen: seq<Op>)
    requires Ready(c, ops) && forall op :: op in seen ==> Present(c, op)
    ensures forall op :: op in seen || op in ops ==> Present(ApplyAll(c, ops), op)
    decreases |ops|
  {
    if ops != [] {
      InstalledIsPresent(Apply(c, ops[0]), ops[1..], seen + [ops[0]]);
    }
  }

  lemma {:induction false} PresentIsUntouched(c: Chains, ops: seq<Op>)
    requires forall op :: op in ops ==> Present(c, op) && !op.Delete?
    ensures ApplyAll(c, ops) == c
    decreases |ops|
  {
    if ops != [] {
      assert ops[0] in ops && Present(c, ops[0]);
      PresentIsUntouched(c, ops[1..]);
    }
  }

  predicate BuiltIn(c: Chains) {
    Chain("nat", "POSTROUTING") in c && Chain("nat", "PREROUTING") in c && Chain("filter", "FORWARD") in c
      && Chain("nat", "OUTPUT") in c
  }

  /** However many containers install the chains and the shared rules, they are there once. */
  lemma SharedRulesAreInstalledOnce(net: Net, c: Chains, ports: seq<Port>)
    requires BuiltIn(c)
    ensures ApplyAll(ApplyAll(c, SharedOps(net, ports)), SharedOps(net, ports)) == ApplyAll(c, SharedOps(net, ports))
    ensures DNAT in ApplyAll(c, SharedOps(net, ports)) && FORWARD in ApplyAll(c, SharedOps(net, ports))
  {
    var ops := SharedOps(net, ports);
    SharedIsReady(net, c, ports);
    InstalledIsPresent(c, ops, []);
    HuskChainsAreMade();
    assert NewChain(DNAT) in ops && NewChain(FORWARD) in ops;
    PresentIsUntouched(ApplyAll(c, ops), ops);
  }

  lemma {:induction false} ReadyAppends(c: Chains, a: seq<Op>, b: seq<Op>)
    requires Ready(c, a) && Ready(ApplyAll(c, a), b)
    ensures Ready(c, a + b)
    decreases |a|
  {
    if a == [] {
      assert a + b == b;
    } else {
      assert (a + b)[1..] == a[1..] + b;
      ReadyAppends(Apply(c, a[0]), a[1..], b);
    }
  }

  lemma {:induction false} ReadyOnceChainsExist(c: Chains, ops: seq<Op>)
    requires forall op :: op in ops ==> (op.NewChain? || op.chain in c) && !op.Delete?
    ensures Ready(c, ops)
    decreases |ops|
  {
    if ops != [] {
      assert ops[0] in ops;
      ReadyOnceChainsExist(Apply(c, ops[0]), ops[1..]);
    }
  }

  lemma WhereSharedRulesGo(net: Net, ports: seq<Port>)
    ensures forall op :: op in EgressOps(net) + LoopbackOps(net, ports) ==>
                           op.Ensure? && (op.chain == NAT || op.chain == FORWARD)
  {}

  lemma WhereJumpsGo(c: Chains)
    requires BuiltIn(c)
    ensures forall op :: op in ChainOps() ==> (op.NewChain? || op.chain in c) && !op.Delete?
  {}

  lemma HuskChainsAreMade()
    ensures NewChain(NAT) in ChainOps() && NewChain(DNAT) in ChainOps() && NewChain(FORWARD) in ChainOps()
  {
    assert LinkOps(NAT, Chain("nat", "POSTROUTING"))[0] == NewChain(NAT);
    assert LinkOps(DNAT, Chain("nat", "PREROUTING"))[0] == NewChain(DNAT);
    assert LinkOps(FORWARD, Chain("filter", "FORWARD"))[0] == NewChain(FORWARD);
  }

  lemma ChainsGetReady(c: Chains)
    requires BuiltIn(c)
    ensures Ready(c, ChainOps()) && NAT in ApplyAll(c, ChainOps()) && FORWARD in ApplyAll(c, ChainOps())
  {
    WhereJumpsGo(c);
    HuskChainsAreMade();
    InstalledAfterReady(c, ChainOps());
    assert Present(ApplyAll(c, ChainOps()), NewChain(NAT)) && Present(ApplyAll(c, ChainOps()), NewChain(FORWARD));
  }

  lemma InstalledAfterReady(c: Chains, ops: seq<Op>)
    requires forall op :: op in ops ==> (op.NewChain? || op.chain in c) && !op.Delete?
    ensures Ready(c, ops) && forall op :: op in ops ==> Present(ApplyAll(c, ops), op)
  {
    ReadyOnceChainsExist(c, ops);
    InstalledIsPresent(c, ops, []);
  }

  lemma ReadyInTwoParts(c: Chains, a: seq<Op>, b: seq<Op>)
    requires Ready(c, a) && forall op :: op in b ==> op.Ensure? && op.chain in ApplyAll(c, a)
    ensures Ready(c, a + b)
  {
    ReadyOnceChainsExist(ApplyAll(c, a), b);
    ReadyAppends(c, a, b);
  }

  lemma SharedIsReady(net: Net, c: Chains, ports: seq<Port>)
    requires BuiltIn(c)
    ensures Ready(c, SharedOps(net, ports))
  {
    ChainsGetReady(c);
    WhereSharedRulesGo(net, ports);
    ReadyInTwoParts(c, ChainOps(), EgressOps(net) + LoopbackOps(net, ports));
  }

  // ---------------------------------------------------------------- what the rules do to packets

  function RulesOf(c: Chains, chain: Chain): seq<Rule> { if chain in c then c[chain] else [] }

  /** The rules that the operations append to a chain, in order. */
  function Ensured(ops: seq<Op>, chain: Chain): seq<Rule> {
    if ops == [] then []
    else if ops[0].Ensure? && ops[0].chain == chain then [ops[0].rule] + Ensured(ops[1..], chain)
    else Ensured(ops[1..], chain)
  }

  lemma {:induction false} EnsuredAppends(a: seq<Op>, b: seq<Op>, chain: Chain)
    ensures Ensured(a + b, chain) == Ensured(a, chain) + Ensured(b, chain)
  {
    if a == [] {
      assert a + b == b;
    } else {
      assert (a + b)[1..] == a[1..] + b;
      EnsuredAppends(a[1..], b, chain);
    }
  }

  /** What was decided before stays so; of the rest, the rules that were ensured decide. */
  lemma {:induction false} EnsuredDecide(c: Chains, ops: seq<Op>, chain: Chain, p: Packet)
    requires Ready(c, ops) && forall op :: op in ops && op.EnsureFirst? ==> op.chain != chain
    ensures Decide(RulesOf(ApplyAll(c, ops), chain), p)
         == OrElse(Decide(RulesOf(c, chain), p), Decide(Ensured(ops, chain), p))
    decreases |ops|
  {
    hide Read;
    if ops != [] {
      var op := ops[0];
      EnsuredDecide(Apply(c, op), ops[1..], chain, p);
      if op.Ensure? && op.chain == chain {
        DecideAppends([op.rule], Ensured(ops[1..], chain), p);
        if op.rule in c[chain] {
          DecideHas(c[chain], op.rule, p);
        } else {
          DecideAppends(c[chain], [op.rule], p);
        }
      } else {
        assert RulesOf(Apply(c, op), chain) == RulesOf(c, chain);
      }
    }
  }

  /** A packet for the mapped port of the host. */
  predicate ToHostPort(port: Port, p: Packet) {
    p.port == port.hostPort && p.protocol == if port.protocol == "" then "tcp" else port.protocol
  }

  /** A packet for the container's side of a mapping, out by the bridge. */
  predicate ToContainerPort(net: Net, ip: string, port: Port, p: Packet) {
    && p.output == net.bridge && ip in p.to && p.port == port.containerPort
    && p.protocol == if port.protocol == "" then "tcp" else port.protocol
  }

  /** The first mapping of the port that the packet is for. */
  function FirstFor(ports: seq<Port>, p: Packet): (i: nat)
    ensures i <= |ports| && (i < |ports| ==> ToHostPort(ports[i], p))
    ensures forall k :: 0 <= k < i ==> !ToHostPort(ports[k], p)
  {
    if ports == [] then 0
    else
      var i := FirstFor(ports[..|ports| - 1], p);
      if i == |ports| - 1 && !ToHostPort(ports[i], p) then |ports| else i
  }

  predicate ToPublished(net: Net, ip: string, ports: seq<Port>, p: Packet) {
    exists i :: 0 <= i < |ports| && ToContainerPort(net, ip, ports[i], p)
  }

  function Dnat(ip: string, ports: seq<Port>, p: Packet): Option<Verdict> {
    var i := FirstFor(ports, p);
    if i < |ports| then Some(Verdict("DNAT", ip + ":" + ports[i].containerPort)) else None
  }

  function When(covers: bool, target: string): Option<Verdict> { if covers then Some(Verdict(target, "")) else None }

  predicate LeavesSubnet(net: Net, p: Packet) { net.cidr in p.from && p.output != net.bridge }

  predicate FromLoopback(net: Net, ports: seq<Port>, p: Packet) {
    ports != [] && "127.0.0.0/8" in p.from && net.cidr in p.to
  }

  predicate IsReply(net: Net, p: Packet) {
    p.output == net.bridge && (p.state == "RELATED" || p.state == "ESTABLISHED")
  }

  /** What the rules that the operations append decide. */
  function Added(ops: seq<Op>, chain: Chain, p: Packet): Option<Verdict> { Decide(Ensured(ops, chain), p) }

  lemma AddedAppends(a: seq<Op>, b: seq<Op>, chain: Chain, p: Packet)
    ensures Added(a + b, chain, p) == OrElse(Added(a, chain, p), Added(b, chain, p))
  {
    EnsuredAppends(a, b, chain);
    DecideAppends(Ensured(a, chain), Ensured(b, chain), p);
  }

  function AddedBy(op: Op, chain: Chain, p: Packet): Option<Verdict> {
    if op.Ensure? && op.chain == chain && Read(op.rule, p).covers
    then Some(Verdict(Read(op.rule, p).target, Read(op.rule, p).dest)) else None
  }

  lemma AddedOne(op: Op, chain: Chain, p: Packet)
    ensures Added([op], chain, p) == AddedBy(op, chain, p)
  {
    hide Read;
    assert [op][1..] == [] && Ensured([], chain) == [];
    if op.Ensure? && op.chain == chain {
      assert Ensured([op], chain) == [op.rule];
      DecideOne(op.rule, p);
    }
  }

  lemma AddedFour(a: Op, b: Op, c: Op, d: Op, chain: Chain, p: Packet)
    ensures Added([a, b, c, d], chain, p) == OrElse(AddedBy(a, chain, p), OrElse(AddedBy(b, chain, p),
        OrElse(AddedBy(c, chain, p), AddedBy(d, chain, p))))
  {
    hide Added, AddedBy;
    AddedOne(a, chain, p);
    AddedOne(b, chain, p);
    AddedOne(c, chain, p);
    AddedOne(d, chain, p);
    AddedAppends([c], [d], chain, p);
    AddedAppends([b], [c] + [d], chain, p);
    AddedAppends([a], [b] + ([c] + [d]), chain, p);
    assert [a] + ([b] + ([c] + [d])) == [a, b, c, d];
  }

  lemma {:induction false} AddedNothing(ops: seq<Op>, chain: Chain, p: Packet)
    requires forall op :: op in ops ==> !(op.Ensure? && op.chain == chain)
    ensures Added(ops, chain, p) == None
  {
    hide Read;
    if ops != [] {
      assert ops[0] in ops;
      AddedNothing(ops[1..], chain, p);
    }
  }

  /** The chains are told apart by their names. */
  lemma ChainsDiffer()
    ensures NAT != DNAT && NAT != FORWARD && DNAT != FORWARD
    ensures forall name :: name == "POSTROUTING" || name == "PREROUTING" || name == "OUTPUT" || name == "FORWARD" ==>
        Chain("nat", name) != NAT && Chain("nat", name) != DNAT && Chain("filter", name) != FORWARD
  {
    assert NAT.name[5] == 'P' && DNAT.name[5] == 'D' && NAT.name[0] == 'H' && DNAT.name[0] == 'H';
    assert FORWARD.name[0] == 'H' && "nat"[0] == 'n' && "filter"[0] == 'f';
    assert "POSTROUTING"[0] == 'P' && "PREROUTING"[0] == 'P' && "OUTPUT"[0] == 'O' && "FORWARD"[0] == 'F';
  }

  lemma ChainOpsAddNothing(chain: Chain, p: Packet)
    ensures Added(ChainOps(), chain, p) == None
  {
    assert forall op :: op in ChainOps() ==> !op.Ensure?;
    AddedNothing(ChainOps(), chain, p);
  }

  lemma EgressAdds(net: Net, chain: Chain, p: Packet)
    ensures chain == NAT ==> Added(EgressOps(net), chain, p) == When(LeavesSubnet(net, p), "MASQUERADE")
    ensures chain == FORWARD ==>
        Added(EgressOps(net), chain, p) == When(p.input == net.bridge || IsReply(net, p), "ACCEPT")
    ensures chain == DNAT ==> Added(EgressOps(net), chain, p) == None
  {
    hide Read, Added;
    var rules := EgressRules(net);
    var a, b := Ensure(rules[0].0, rules[0].1), Ensure(rules[1].0, rules[1].1);
    var c, d := Ensure(rules[2].0, rules[2].1), Ensure(rules[3].0, rules[3].1);
    assert EgressOps(net) == [a, b, c, d];
    AddedFour(a, b, c, d, chain, p);
    ChainsDiffer();
    hide NAT, FORWARD, DNAT;
    ReadEgress(net.cidr, net.bridge, p);
    ReadOutward(net.bridge, p);
    ReadReturn(net.bridge, p);
    ReadAcross(net.bridge, p);
  }

  lemma LoopbackAdds(net: Net, ports: seq<Port>, chain: Chain, p: Packet)
    ensures chain == NAT ==> Added(LoopbackOps(net, ports), chain, p) == When(FromLoopback(net, ports, p), "MASQUERADE")
    ensures chain == FORWARD || chain == DNAT ==> Added(LoopbackOps(net, ports), chain, p) == None
  {
    hide Read, Added;
    ChainsDiffer();
    ReadLoopback(net.cidr, p);
    var op := Ensure(NAT, ["-s", "127.0.0.0/8", "-d", net.cidr, "-j", "MASQUERADE"]);
    AddedOne(op, chain, p);
    AddedNothing([], chain, p);
    hide NAT, FORWARD, DNAT;
  }

  lemma PortAdds(net: Net, id: string, ip: string, port: Port, chain: Chain, p: Packet)
    ensures
      var added := Added(InstallPort(net, id, ip, port), chain, p);
      && (chain == NAT ==> added == None)
      && (chain == DNAT ==> added == if ToHostPort(port, p) then
              Some(Verdict("DNAT", ip + ":" + port.containerPort)) else None)
      && (chain == FORWARD ==> added == When(ToContainerPort(net, ip, port, p), "ACCEPT"))
  {
    hide Read, Added;
    ChainsDiffer();
    var ops := InstallPort(net, id, ip, port);
    ReadDnat(ProtocolOf(port), port.hostPort, ip + ":" + port.containerPort, "husk:" + id, p);
    ReadPublished(ip, ProtocolOf(port), port.containerPort, net.bridge, "husk:" + id, p);
    AddedOne(ops[0], chain, p);
    AddedOne(ops[1], chain, p);
    AddedAppends([ops[0]], [ops[1]], chain, p);
    assert [ops[0]] + [ops[1]] == ops;
    hide NAT, FORWARD, DNAT;
  }

  lemma {:induction false} PortsAdd(net: Net, id: string, ip: string, ports: seq<Port>, chain: Chain, p: Packet)
    ensures
      var added := Added(InstallPorts(net, id, ip, ports), chain, p);
      && (chain == NAT ==> added == None)
      && (chain == DNAT ==> added == Dnat(ip, ports, p))
      && (chain == FORWARD ==> added == When(ToPublished(net, ip, ports, p), "ACCEPT"))
  {
    hide Added, InstallPort, ToHostPort, ToContainerPort;
    if ports == [] {
      AddedNothing([], chain, p);
    } else {
      var front, last := ports[..|ports| - 1], ports[|ports| - 1];
      PortsAdd(net, id, ip, front, chain, p);
      PortAdds(net, id, ip, last, chain, p);
      AddedAppends(InstallPorts(net, id, ip, front), InstallPort(net, id, ip, last), chain, p);
      assert forall i :: 0 <= i < |front| ==> front[i] == ports[i];
      assert ToPublished(net, ip, ports, p) <==> ToPublished(net, ip, front, p) || ToContainerPort(net, ip, last, p);
    }
  }

  lemma InstallAdds(net: Net, id: string, ip: string, ports: seq<Port>, chain: Chain, p: Packet)
    ensures
      var added := Added(InstallOps(net, id, ip, ports), chain, p);
      && (chain == NAT ==> added == When(LeavesSubnet(net, p) || FromLoopback(net, ports, p), "MASQUERADE"))
      && (chain == DNAT ==> added == Dnat(ip, ports, p))
      && (chain == FORWARD ==>
            added == When(p.input == net.bridge || IsReply(net, p) || ToPublished(net, ip, ports, p), "ACCEPT"))
  {
    hide Added, ToPublished, FirstFor;
    ChainsDiffer();
    ChainOpsAddNothing(chain, p);
    EgressAdds(net, chain, p);
    LoopbackAdds(net, ports, chain, p);
    PortsAdd(net, id, ip, ports, chain, p);
    hide NAT, FORWARD, DNAT;
    AddedAppends(EgressOps(net), LoopbackOps(net, ports), chain, p);
    AddedAppends(ChainOps(), EgressOps(net) + LoopbackOps(net, ports), chain, p);
    AddedAppends(SharedOps(net, ports), InstallPorts(net, id, ip, ports), chain, p);
  }

  lemma InstallIsReady(net: Net, c: Chains, id: string, ip: string, ports: seq<Port>)
    requires BuiltIn(c)
    ensures Ready(c, InstallOps(net, id, ip, ports))
  {
    hide BuiltIn, SharedOps, InstallPort;
    SharedIsReady(net, c, ports);
    SharedRulesAreInstalledOnce(net, c, ports);
    WherePortsGo(net, id, ip, ports);
    ReadyInTwoParts(c, SharedOps(net, ports), InstallPorts(net, id, ip, ports));
  }

  lemma {:induction false} WherePortsGo(net: Net, id: string, ip: string, ports: seq<Port>)
    ensures forall op :: op in InstallPorts(net, id, ip, ports) ==>
                           op.Ensure? && (op.chain == DNAT || op.chain == FORWARD)
  {
    if ports != [] {
      WherePortsGo(net, id, ip, ports[..|ports| - 1]);
    }
  }

  predicate IsBuiltIn(chain: Chain) {
    || chain == Chain("nat", "POSTROUTING") || chain == Chain("nat", "PREROUTING")
    || chain == Chain("nat", "OUTPUT") || chain == Chain("filter", "FORWARD")
  }

  lemma BuiltInsDiffer(chain: Chain)
    requires IsBuiltIn(chain)
    ensures chain != NAT && chain != DNAT && chain != FORWARD
  {
    ChainsDiffer();
  }

  /** Only the jumps go into built-in chains. */
  lemma WhereAllGoes(net: Net, id: string, ip: string, ports: seq<Port>)
    ensures
      forall op :: op in EgressOps(net) + LoopbackOps(net, ports) + InstallPorts(net, id, ip, ports) ==>
        op.Ensure? && (op.chain == NAT || op.chain == DNAT || op.chain == FORWARD)
  {
    hide EgressOps, LoopbackOps, InstallPorts;
    WhereSharedRulesGo(net, ports);
    WherePortsGo(net, id, ip, ports);
  }

  lemma JumpsGoIntoBuiltIns(op: Op)
    requires op in ChainOps() && op.EnsureFirst?
    ensures IsBuiltIn(op.chain)
  {
    assert op in LinkOps(NAT, Chain("nat", "POSTROUTING")) || op in LinkOps(DNAT, Chain("nat", "PREROUTING"))
      || op in LinkOps(FORWARD, Chain("filter", "FORWARD")) || op in OutputOps();
  }

  lemma InstallParts(net: Net, id: string, ip: string, ports: seq<Port>)
    ensures InstallOps(net, id, ip, ports)
         == ChainOps() + (EgressOps(net) + LoopbackOps(net, ports) + InstallPorts(net, id, ip, ports))
  {
    hide EgressOps, LoopbackOps, InstallPorts, ChainOps;
  }

  /** On the three chains a packet is treated as it was before or, if nothing decided there, as the
      network and the mappings of the container ask. */
  lemma InstallDecides(net: Net, c: Chains, id: string, ip: string, ports: seq<Port>, p: Packet)
    requires BuiltIn(c)
    ensures Serves(net, ip, ports, c, ApplyAll(c, InstallOps(net, id, ip, ports)), p)
  {
    hide Read, BuiltIn, Decide, Ensured, ToPublished, FirstFor, ChainOps, EgressOps, LoopbackOps, InstallPorts;
    var ops := InstallOps(net, id, ip, ports);
    InstallIsReady(net, c, id, ip, ports);
    InstallParts(net, id, ip, ports);
    WhereAllGoes(net, id, ip, ports);
    forall op | op in ops && op.EnsureFirst? ensures op.chain != NAT && op.chain != DNAT && op.chain != FORWARD {
      JumpsGoIntoBuiltIns(op);
      BuiltInsDiffer(op.chain);
    }
    InstallAdds(net, id, ip, ports, NAT, p);
    InstallAdds(net, id, ip, ports, DNAT, p);
    InstallAdds(net, id, ip, ports, FORWARD, p);
    EnsuredDecide(c, ops, NAT, p);
    EnsuredDecide(c, ops, DNAT, p);
    EnsuredDecide(c, ops, FORWARD, p);
  }

  /** What happens to a packet in husk's chains, before and after. */
  predicate Serves(net: Net, ip: string, ports: seq<Port>, c: Chains, c': Chains, p: Packet) {
    && Decide(RulesOf(c', Chain("nat", "HUSK-POSTROUTING")), p)
         == OrElse(Decide(RulesOf(c, Chain("nat", "HUSK-POSTROUTING")), p),
                   When(LeavesSubnet(net, p) || FromLoopback(net, ports, p), "MASQUERADE"))
    && Decide(RulesOf(c', Chain("nat", "HUSK-DNAT")), p)
         == OrElse(Decide(RulesOf(c, Chain("nat", "HUSK-DNAT")), p), Dnat(ip, ports, p))
    && Decide(RulesOf(c', Chain("filter", "HUSK-FORWARD")), p)
         == OrElse(Decide(RulesOf(c, Chain("filter", "HUSK-FORWARD")), p),
                   When(p.input == net.bridge || IsReply(net, p) || ToPublished(net, ip, ports, p), "ACCEPT"))
  }

  /** How a jump gets into a chain: at the head, where nothing comes before it, unless it is there. */
  function Jumped(rules: seq<Rule>, target: string): seq<Rule> {
    if ["-j", target] in rules then rules else [["-j", target]] + rules
  }

  lemma {:induction false} OtherChainsStay(c: Chains, ops: seq<Op>, chain: Chain)
    requires chain in c && forall op :: op in ops ==> op.NewChain? || op.chain != chain
    ensures chain in ApplyAll(c, ops) && ApplyAll(c, ops)[chain] == c[chain]
    decreases |ops|
  {
    if ops != [] {
      assert ops[0] in ops;
      OtherChainsStay(Apply(c, ops[0]), ops[1..], chain);
    }
  }

  lemma OneJump(c: Chains, ops: seq<Op>, k: nat)
    requires k < |ops| && ops[k].EnsureFirst? && ops[k].chain in c
    requires forall i :: 0 <= i < |ops| && i != k ==> ops[i].NewChain? || ops[i].chain != ops[k].chain
    ensures
      var c', chain, rule := ApplyAll(c, ops), ops[k].chain, ops[k].rule;
      && chain in c' && c'[chain] == if rule in c[chain] then c[chain] else [rule] + c[chain]
  {
    var a, b, chain := ops[..k], ops[k + 1..], ops[k].chain;
    assert ops == a + [ops[k]] + b;
    ApplyAllAppends(c, a + [ops[k]], b);
    ApplyAllAppends(c, a, [ops[k]]);
    OtherChainsStay(c, a, chain);
    var mid := ApplyAll(c, a);
    assert ApplyAll(mid, [ops[k]]) == Apply(mid, ops[k]) by {
      assert [ops[k]][1..] == [];
    }
    OtherChainsStay(Apply(mid, ops[k]), b, chain);
  }

  predicate Linked(c: Chains, c': Chains)
    requires BuiltIn(c)
  {
    && BuiltIn(c')
    && c'[Chain("nat", "POSTROUTING")] == Jumped(c[Chain("nat", "POSTROUTING")], "HUSK-POSTROUTING")
    && c'[Chain("nat", "PREROUTING")] == Jumped(c[Chain("nat", "PREROUTING")], "HUSK-DNAT")
    && c'[Chain("nat", "OUTPUT")] == Jumped(c[Chain("nat", "OUTPUT")], "HUSK-DNAT")
    && c'[Chain("filter", "FORWARD")] == Jumped(c[Chain("filter", "FORWARD")], "HUSK-FORWARD")
  }

  /** The seven operations, written out. */
  lemma ChainOpsAre()
    ensures ChainOps() ==
      [ NewChain(Chain("nat", "HUSK-POSTROUTING")),
        EnsureFirst(Chain("nat", "POSTROUTING"), ["-j", "HUSK-POSTROUTING"]),
        NewChain(Chain("nat", "HUSK-DNAT")), EnsureFirst(Chain("nat", "PREROUTING"), ["-j", "HUSK-DNAT"]),
        NewChain(Chain("filter", "HUSK-FORWARD")), EnsureFirst(Chain("filter", "FORWARD"), ["-j", "HUSK-FORWARD"]),
        EnsureFirst(Chain("nat", "OUTPUT"), ["-j", "HUSK-DNAT"]) ]
  {}

  lemma BuiltInNamesDiffer()
    ensures "POSTROUTING" != "PREROUTING" && "POSTROUTING" != "OUTPUT" && "PREROUTING" != "OUTPUT" && "nat" != "filter"
  {
    assert "POSTROUTING"[1] == 'O' && "PREROUTING"[1] == 'R' && "OUTPUT"[0] == 'O' && "nat"[0] == 'n';
  }

  lemma ChainsAreLinked(c: Chains)
    requires BuiltIn(c)
    ensures Linked(c, ApplyAll(c, ChainOps()))
  {
    ChainOpsAre();
    BuiltInNamesDiffer();
    hide ChainOps, ApplyAll;
    OneJump(c, ChainOps(), 1);
    OneJump(c, ChainOps(), 3);
    OneJump(c, ChainOps(), 5);
    OneJump(c, ChainOps(), 6);
  }

  /** What a successful installation means to packets, on any host. */
  lemma InstallServes(net: Net, c: Chains, id: string, ip: string, ports: seq<Port>)
    requires BuiltIn(c)
    ensures Linked(c, ApplyAll(c, InstallOps(net, id, ip, ports)))
    ensures forall p :: Serves(net, ip, ports, c, ApplyAll(c, InstallOps(net, id, ip, ports)), p)
  {
    forall p ensures Serves(net, ip, ports, c, ApplyAll(c, InstallOps(net, id, ip, ports)), p) {
      InstallDecides(net, c, id, ip, ports, p);
    }
    hide ChainOps, EgressOps, LoopbackOps, InstallPorts, InstallOps, Serves;
    var rest := EgressOps(net) + LoopbackOps(net, ports) + InstallPorts(net, id, ip, ports);
    var mid := ApplyAll(c, ChainOps());
    InstallParts(net, id, ip, ports);
    ApplyAllAppends(c, ChainOps(), rest);
    ChainsAreLinked(c);
    WhereAllGoes(net, id, ip, ports);
    hide NAT, DNAT, FORWARD;
    forall chain | IsBuiltIn(chain) ensures chain in ApplyAll(mid, rest) && ApplyAll(mid, rest)[chain] == mid[chain] {
      BuiltInsDiffer(chain);
      OtherChainsStay(mid, rest, chain);
    }
  }

  /** A walk through the rules of a hook: a jump goes into a chain and comes back if nothing there
      decides. */
  function Walk(c: Chains, table: string, rules: seq<Rule>, p: Packet): Option<Verdict> {
    if rules == [] then None
    else
      var r := Read(rules[0], p);
      if !r.covers then Walk(c, table, rules[1..], p)
      else if Chain(table, r.target) in c
      then OrElse(Decide(c[Chain(table, r.target)], p), Walk(c, table, rules[1..], p))
      else Some(Verdict(r.target, r.dest))
  }

  function Hook(c: Chains, table: string, name: string, p: Packet): Option<Verdict> {
    Walk(c, table, RulesOf(c, Chain(table, name)), p)
  }

  lemma JumpGoesFirst(c: Chains, table: string, target: string, rules: seq<Rule>, p: Packet)
    requires Decide(RulesOf(c, Chain(table, target)), p).Some?
    ensures Walk(c, table, [["-j", target]] + rules, p) == Decide(RulesOf(c, Chain(table, target)), p)
  {
    hide Read;
    ReadJump(target, p);
  }

  /** No husk has been here: none of its chains, and no jump to them. */
  predicate NewHost(c: Chains) {
    && BuiltIn(c)
    && Chain("nat", "HUSK-POSTROUTING") !in c && Chain("nat", "HUSK-DNAT") !in c
    && Chain("filter", "HUSK-FORWARD") !in c
    && ["-j", "HUSK-POSTROUTING"] !in c[Chain("nat", "POSTROUTING")]
    && ["-j", "HUSK-DNAT"] !in c[Chain("nat", "PREROUTING")] && ["-j", "HUSK-DNAT"] !in c[Chain("nat", "OUTPUT")]
    && ["-j", "HUSK-FORWARD"] !in c[Chain("filter", "FORWARD")]
  }

  /** On a new host, whatever rules its own firewall has: packets of the subnet that leave by another
      interface are masqueraded; a packet to a published port, from outside or from the host itself, is
      sent to the container's address and port; and such a packet is let through, new or not. */
  lemma PublishedPortsAreReached(net: Net, c: Chains, id: string, ip: string, ports: seq<Port>, p: Packet)
    requires NewHost(c)
    ensures
      var c' := ApplyAll(c, InstallOps(net, id, ip, ports));
      && (net.cidr in p.from && p.output != net.bridge ==>
            Hook(c', "nat", "POSTROUTING", p) == Some(Verdict("MASQUERADE", "")))
      && (FirstFor(ports, p) < |ports| ==>
            && Hook(c', "nat", "PREROUTING", p) == Hook(c', "nat", "OUTPUT", p)
            && Hook(c', "nat", "PREROUTING", p)
                 == Some(Verdict("DNAT", ip + ":" + ports[FirstFor(ports, p)].containerPort)))
      && (p.input == net.bridge || IsReply(net, p) || ToPublished(net, ip, ports, p) ==>
            Hook(c', "filter", "FORWARD", p) == Some(Verdict("ACCEPT", "")))
  {
    hide Read, ToPublished, FirstFor, Walk, InstallOps;
    InstallServes(net, c, id, ip, ports);
    var c' := ApplyAll(c, InstallOps(net, id, ip, ports));
    assert Serves(net, ip, ports, c, c', p);
    if LeavesSubnet(net, p) {
      JumpGoesFirst(c', "nat", "HUSK-POSTROUTING", c[Chain("nat", "POSTROUTING")], p);
    }
    if FirstFor(ports, p) < |ports| {
      JumpGoesFirst(c', "nat", "HUSK-DNAT", c[Chain("nat", "PREROUTING")], p);
      JumpGoesFirst(c', "nat", "HUSK-DNAT", c[Chain("nat", "OUTPUT")], p);
    }
    if p.input == net.bridge || IsReply(net, p) || ToPublished(net, ip, ports, p) {
      JumpGoesFirst(c', "filter", "HUSK-FORWARD", c[Chain("filter", "FORWARD")], p);
    }
  }

  /** And no more than that: on a new host husk's chains accept a new packet from another interface to
      the bridge exactly if it is for a published port, and leave packets within the bridge alone. */
  lemma NothingElseIsOpened(net: Net, c: Chains, id: string, ip: string, ports: seq<Port>, p: Packet)
    requires NewHost(c) && p.input != net.bridge && p.output == net.bridge
    ensures
      var c' := ApplyAll(c, InstallOps(net, id, ip, ports));
      var forward := Decide(RulesOf(c', Chain("filter", "HUSK-FORWARD")), p);
      var leaving := Decide(RulesOf(c', Chain("nat", "HUSK-POSTROUTING")), p);
      && (p.state != "RELATED" && p.state != "ESTABLISHED" ==>
            (forward.Some? <==> exists i :: 0 <= i < |ports| && ToContainerPort(net, ip, ports[i], p)))
      && (leaving.Some? <==> ports != [] && "127.0.0.0/8" in p.from && net.cidr in p.to)
  {
    hide Read, InstallOps;
    InstallServes(net, c, id, ip, ports);
    assert Serves(net, ip, ports, c, ApplyAll(c, InstallOps(net, id, ip, ports)), p);
  }

  // ---------------------------------------------------------------- the code

  /** `ops` were begun with `n` more commands going to succeed: all of them were done, or the first n. */
  predicate Ran(c: Chains, n: nat, ops: seq<Op>, c': Chains, n': nat, ok: bool) {
    if ok then n >= |ops| && c' == ApplyAll(c, ops) && n' == n - |ops|
    else n < |ops| && c' == ApplyAll(c, ops[..n]) && n' == 0
  }

  lemma RanThen(c: Chains, n: nat, a: seq<Op>, c': Chains, n': nat, b: seq<Op>, c'': Chains, n'': nat, ok: bool)
    requires Ran(c, n, a, c', n', true) && Ran(c', n', b, c'', n'', ok)
    ensures Ran(c, n, a + b, c'', n'', ok)
  {
    ApplyAllAppends(c, a, b);
    if !ok {
      ApplyAllAppends(c, a, b[..n']);
      assert (a + b)[..n] == a + b[..n'];
    }
  }

  lemma RanStopped(c: Chains, n: nat, a: seq<Op>, c': Chains, n': nat, b: seq<Op>)
    requires Ran(c, n, a, c', n', false)
    ensures Ran(c, n, a + b, c', n', false)
  {
    assert (a + b)[..n] == a[..n];
  }

  lemma RanOne(c: Chains, n: nat, op: Op)
    requires n > 0
    ensures Ran(c, n, [op], Apply(c, op), n - 1, true)
  {
    assert [op][1..] == [];
  }

  class Firewall {
    const net: Net
    var chains: Chains
    var healthy: nat  // how many more rules can be installed before iptables starts to fail

    constructor (net: Net, chains: Chains, healthy: nat)
      ensures this.net == net && this.chains == chains && this.healthy == healthy
    {
      this.net, this.chains, this.healthy := net, chains, healthy;
    }

    method Check(chain: Chain, rule: Rule) returns (found: bool)
      ensures found <==> healthy > 0 && chain in chains && rule in chains[chain]
    {
      found := healthy > 0 && chain in chains && rule in chains[chain];
    }

    method Append(chain: Chain, rule: Rule) returns (ok: bool)
      modifies this`chains
      ensures ok <==> healthy > 0 && chain in old(chains)
      ensures chains == if ok then old(chains)[chain := old(chains)[chain] + [rule]] else old(chains)
    {
      ok := healthy > 0 && chain in chains;
      if ok {
        chains := chains[chain := chains[chain] + [rule]];
      }
    }

    method InsertFirst(chain: Chain, rule: Rule) returns (ok: bool)
      modifies this`chains
      ensures ok <==> healthy > 0 && chain in old(chains)
      ensures chains == if ok then old(chains)[chain := [rule] + old(chains)[chain]] else old(chains)
    {
      ok := healthy > 0 && chain in chains;
      if ok {
        chains := chains[chain := [rule] + chains[chain]];
      }
    }

    /** -N; that the chain exists is no error. */
    method AddChain(chain: Chain) returns (ok: bool)
      modifies this
      ensures Ran(old(chains), old(healthy), [NewChain(chain)], chains, healthy, ok)
      ensures chains == if ok then Apply(old(chains), NewChain(chain)) else old(chains)
    {
      ok := healthy > 0;
      assert [NewChain(chain)][..0] == [];
      if ok {
        RanOne(chains, healthy, NewChain(chain));
        if chain !in chains {
          chains := chains[chain := []];
        }
        healthy := healthy - 1;
      }
    }

    method EnsureRule(chain: Chain, rule: Rule) returns (ok: bool)
      requires chain in chains
      modifies this
      ensures Ran(old(chains), old(healthy), [Ensure(chain, rule)], chains, healthy, ok)
      ensures chains.Keys == old(chains.Keys)
    {
      var found := Check(chain, rule);
      ok := true;
      if !found {
        ok := Append(chain, rule);
      }
      if ok {
        RanOne(old(chains), old(healthy), Ensure(chain, rule));
        healthy := healthy - 1;
      }
    }

    method EnsureJump(parent: Chain, rule: Rule) returns (ok: bool)
      requires parent in chains
      modifies this
      ensures Ran(old(chains), old(healthy), [EnsureFirst(parent, rule)], chains, healthy, ok)
      ensures chains.Keys == old(chains.Keys)
    {
      var found := Check(parent, rule);
      ok := true;
      if !found {
        ok := InsertFirst(parent, rule);
      }
      if ok {
        RanOne(old(chains), old(healthy), EnsureFirst(parent, rule));
        healthy := healthy - 1;
      }
    }

    method LinkChain(chain: Chain, parent: Chain) returns (ok: bool)
      requires parent in chains
      modifies this
      ensures Ran(old(chains), old(healthy), LinkOps(chain, parent), chains, healthy, ok)
      ensures ok ==> chains.Keys == old(chains.Keys) + {chain}
    {
      ghost var make, jump := [NewChain(chain)], [EnsureFirst(parent, ["-j", chain.name])];
      assert make + jump == LinkOps(chain, parent);
      var made := AddChain(chain);  // its failure is ignored
      ghost var c, n := chains, healthy;
      ok := EnsureJump(parent, ["-j", chain.name]);
      if made {
        RanThen(old(chains), old(healthy), make, c, n, jump, chains, healthy, ok);
      } else {
        assert jump[..0] == [] && LinkOps(chain, parent)[..0] == [];
      }
    }

    method PublishPort(id: string, ip: string, p: Port) returns (ok: bool)
      requires DNAT in chains && FORWARD in chains
      modifies this
      ensures Ran(old(chains), old(healthy), InstallPort(net, id, ip, p), chains, healthy, ok)
      ensures chains.Keys == old(chains.Keys)
    {
      var protocol := if p.protocol == "" then "tcp" else p.protocol;
      var dest := ip + ":" + p.containerPort;
      ghost var ops := InstallPort(net, id, ip, p);
      assert ops == [ops[0]] + [ops[1]];
      ok := EnsureRule(DNAT, ["-p", protocol, "--dport", p.hostPort, "-j", "DNAT",
                              "--to-destination", dest, "-m", "comment", "--comment", "husk:" + id]);
      if !ok {
        RanStopped(old(chains), old(healthy), [ops[0]], chains, healthy, [ops[1]]);
        return;
      }
      ghost var c, n := chains, healthy;
      ok := EnsureRule(FORWARD, ["-d", ip, "-p", protocol, "--dport", p.containerPort, "-o", net.bridge,
                                 "-j", "ACCEPT", "-m", "comment", "--comment", "husk:" + id]);
      RanThen(old(chains), old(healthy), [ops[0]], c, n, [ops[1]], chains, healthy, ok);
    }

    method PublishPorts(id: string, ip: string, ports: seq<Port>) returns (ok: bool)
      requires DNAT in chains && FORWARD in chains
      modifies this
      ensures Ran(old(chains), old(healthy), InstallPorts(net, id, ip, ports), chains, healthy, ok)
      ensures chains.Keys == old(chains.Keys)
    {
      for i := 0 to |ports|
        invariant chains.Keys == old(chains.Keys)
        invariant Ran(old(chains), old(healthy), InstallPorts(net, id, ip, ports[..i]), chains, healthy, true)
      {
        ghost var c, n := chains, healthy;
        ok := PublishPort(id, ip, ports[i]);
        assert ports[..i + 1][..i] == ports[..i];
        RanThen(old(chains), old(healthy), InstallPorts(net, id, ip, ports[..i]), c, n,
          InstallPort(net, id, ip, ports[i]), chains, healthy, ok);
        if !ok {
          InstallPortsPrefix(net, id, ip, ports, i + 1);
          RanStopped(old(chains), old(healthy), InstallPorts(net, id, ip, ports[..i + 1]), chains, healthy,
                     InstallPorts(net, id, ip, ports)[2 * (i + 1)..]);
          return false;
        }
      }
      assert ports[..|ports|] == ports;
      ok := true;
    }

    /** Nothing here stops at an error. The address comes from the lease, so without a lease there is
        nothing to match the rules with. */
    method RemoveRules(id: string, lease: Option<string>, ports: seq<Port>)
      modifies this`chains
      ensures chains == if lease.Some? then ApplyAll(old(chains), RemovePorts(net, id, lease.value, ports))
          else old(chains)
    {
      if lease.None? {
        return;
      }
      var ip := lease.value;
      for i := 0 to |ports|
        invariant chains == ApplyAll(old(chains), RemovePorts(net, id, ip, ports[..i]))
      {
        var p := ports[i];
        var protocol := if p.protocol == "" then "tcp" else p.protocol;
        assert ports[..i + 1][..i] == ports[..i];
        ApplyAllAppends(old(chains), RemovePorts(net, id, ip, ports[..i]), RemovePort(net, id, ip, p));
        ghost var c := chains;
        DeleteRule(DNAT, ["-p", protocol, "--dport", p.hostPort, "-j", "DNAT",
                          "--to-destination", ip + ":" + p.containerPort, "-m", "comment", "--comment", "husk:" + id]);
        DeleteRule(FORWARD, ["-d", ip, "-p", protocol, "--dport", p.containerPort, "-o", net.bridge,
                             "-j", "ACCEPT", "-m", "comment", "--comment", "husk:" + id]);
        TwoOps(c, RemovePort(net, id, ip, p));
      }
      assert ports[..|ports|] == ports;
    }

    method DeleteRule(chain: Chain, rule: Rule)
      modifies this`chains
      ensures chains == Apply(old(chains), Delete(chain, rule))
    {
      if chain in chains {
        var rules := chains[chain];
        var i := 0;
        while i < |rules| && rules[i] != rule
          invariant i <= |rules| && forall k :: 0 <= k < i ==> rules[k] != rule
        {
          i := i + 1;
        }
        DeleteAt(rules, rule, i);
        if i < |rules| {
          chains := chains[chain := rules[..i] + rules[i + 1..]];
        } else {
          assert chains[chain := rules] == chains;
        }
      }
    }

    /** The jump from OUTPUT may fail without anybody noticing. */
    method EnsureChains() returns (ok: bool, ghost all: bool)
      requires BuiltIn(chains)
      modifies this
      ensures Ran(old(chains), old(healthy), ChainOps(), chains, healthy, all)
      ensures ok <==> all || old(healthy) == 6
      ensures ok ==> NAT in chains && DNAT in chains && FORWARD in chains
    {
      ghost var a, b := LinkOps(NAT, Chain("nat", "POSTROUTING")), LinkOps(DNAT, Chain("nat", "PREROUTING"));
      ghost var d, e := LinkOps(FORWARD, Chain("filter", "FORWARD")), OutputOps();
      all := false;
      ok := LinkChain(NAT, Chain("nat", "POSTROUTING"));
      if !ok {
        RanStopped(old(chains), old(healthy), a, chains, healthy, b);
        RanStopped(old(chains), old(healthy), a + b, chains, healthy, d);
        RanStopped(old(chains), old(healthy), a + b + d, chains, healthy, e);
        return;
      }
      ghost var c, n := chains, healthy;
      ok := LinkChain(DNAT, Chain("nat", "PREROUTING"));
      RanThen(old(chains), old(healthy), a, c, n, b, chains, healthy, ok);
      if !ok {
        RanStopped(old(chains), old(healthy), a + b, chains, healthy, d);
        RanStopped(old(chains), old(healthy), a + b + d, chains, healthy, e);
        return;
      }
      c, n := chains, healthy;
      ok := LinkChain(FORWARD, Chain("filter", "FORWARD"));
      RanThen(old(chains), old(healthy), a + b, c, n, d, chains, healthy, ok);
      if !ok {
        RanStopped(old(chains), old(healthy), a + b + d, chains, healthy, e);
        return;
      }
      c, n := chains, healthy;
      var linked := EnsureJump(Chain("nat", "OUTPUT"), ["-j", DNAT.name]);
      all := linked;
      RanThen(old(chains), old(healthy), a + b + d, c, n, e, chains, healthy, all);
    }

    method EnsureAll(rules: seq<(Chain, Rule)>) returns (ok: bool)
      requires forall i :: 0 <= i < |rules| ==> rules[i].0 in chains
      modifies this
      ensures Ran(old(chains), old(healthy), Ensures(rules), chains, healthy, ok)
      ensures chains.Keys == old(chains.Keys)
    {
      for i := 0 to |rules|
        invariant chains.Keys == old(chains.Keys)
        invariant Ran(old(chains), old(healthy), Ensures(rules)[..i], chains, healthy, true)
      {
        ghost var c, n, ops := chains, healthy, Ensures(rules);
        ok := EnsureRule(rules[i].0, rules[i].1);
        assert [Ensure(rules[i].0, rules[i].1)] == [ops[i]] && ops[..i] + [ops[i]] == ops[..i + 1];
        RanThen(old(chains), old(healthy), ops[..i], c, n, [ops[i]], chains, healthy, ok);
        if !ok {
          RanStopped(old(chains), old(healthy), ops[..i + 1], chains, healthy, ops[i + 1..]);
          assert ops[..i + 1] + ops[i + 1..] == ops;
          return false;
        }
      }
      assert Ensures(rules)[..|rules|] == Ensures(rules);
      ok := true;
    }

    method ApplyShared(ports: seq<Port>) returns (ok: bool)
      requires BuiltIn(chains)
      modifies this
      ensures Ran(old(chains), old(healthy), SharedOps(net, ports), chains, healthy, ok)
      ensures ok ==> DNAT in chains && FORWARD in chains
    {
      ghost var chainOps, egress, loopback := ChainOps(), EgressOps(net), LoopbackOps(net, ports);
      ghost var all;
      ok, all := EnsureChains();
      if !all {
        RanStopped(old(chains), old(healthy), chainOps, chains, healthy, egress + loopback);
      }
      if !ok {
        return;
      }
      ghost var c, n := chains, healthy;
      ok := EnsureAll(EgressRules(net));
      if all {
        RanThen(old(chains), old(healthy), chainOps, c, n, egress, chains, healthy, ok);
      }
      assert egress[..0] == [];
      assert chainOps + egress + loopback == chainOps + (egress + loopback);
      if !ok {
        if all {
          RanStopped(old(chains), old(healthy), chainOps + egress, chains, healthy, loopback);
        }
        return;
      }
      c, n := chains, healthy;
      ok := LocalhostRule(ports);
      RanThen(old(chains), old(healthy), chainOps + egress, c, n, loopback, chains, healthy, ok);
    }

    /** Egress, forwarding and the published ports. When iptables starts to fail, what was installed
        stays. */
    method ApplyRules(id: string, ip: string, ports: seq<Port>) returns (ok: bool)
      requires BuiltIn(chains)
      modifies this
      ensures Ran(old(chains), old(healthy), InstallOps(net, id, ip, ports), chains, healthy, ok)
      ensures ok ==> Linked(old(chains), chains) && forall p :: Serves(net, ip, ports, old(chains), chains, p)
    {
      hide Linked, Serves, SharedOps;
      InstallServes(net, chains, id, ip, ports);
      ok := ApplyShared(ports);
      if !ok {
        RanStopped(old(chains), old(healthy), SharedOps(net, ports), chains, healthy, InstallPorts(net, id, ip, ports));
        return;
      }
      ghost var c, n := chains, healthy;
      ok := PublishPorts(id, ip, ports);
      RanThen(old(chains), old(healthy), SharedOps(net, ports), c, n, InstallPorts(net, id, ip, ports), chains,
        healthy, ok);
    }

    /** enableLocalhostPublishing, when there is something to publish. */
    method LocalhostRule(ports: seq<Port>) returns (ok: bool)
      requires NAT in chains
      modifies this
      ensures Ran(old(chains), old(healthy), LoopbackOps(net, ports), chains, healthy, ok)
      ensures chains.Keys == old(chains.Keys)
    {
      ok := true;
      if |ports| > 0 {
        ok := EnsureRule(NAT, ["-s", "127.0.0.0/8", "-d", net.cidr, "-j", "MASQUERADE"]);
      }
    }
  }

  /** Deleting behind rules that are kept, one rule at a time from the back. */
  lemma {:induction false} DeleteBehind(front: seq<Rule>, rules: seq<Rule>, rule: Rule)
    requires rule !in front
    ensures DeleteFirst(front + rules, rule) == front + DeleteFirst(rules, rule)
    decreases |front|
  {
    if front == [] {
      assert front + rules == rules && front + DeleteFirst(rules, rule) == DeleteFirst(rules, rule);
    } else {
      DeleteBehind(front[1..], rules, rule);
      assert (front + rules)[0] == front[0] && (front + rules)[1..] == front[1..] + rules;
      assert front == [front[0]] + front[1..];
      assert [front[0]] + (front[1..] + DeleteFirst(rules, rule)) == front + DeleteFirst(rules, rule);
    }
  }

  lemma DeleteAt(rules: seq<Rule>, rule: Rule, i: nat)
    requires i <= |rules| && (forall k :: 0 <= k < i ==> rules[k] != rule) && (i < |rules| ==> rules[i] == rule)
    ensures DeleteFirst(rules, rule) == if i < |rules| then rules[..i] + rules[i + 1..] else rules
  {
    DeleteBehind(rules[..i], rules[i..], rule);
    assert rules == rules[..i] + rules[i..];
    if i < |rules| {
      assert rules[i..][0] == rule && rules[i..][1..] == rules[i + 1..];
    }
  }

  lemma TwoOps(c: Chains, ops: seq<Op>)
    requires |ops| == 2
    ensures ApplyAll(c, ops) == Apply(Apply(c, ops[0]), ops[1])
  {
    ApplyAllAppends(c, [ops[0]], [ops[1]]);
    assert [ops[0]] + [ops[1]] == ops;
    RanOne(c, 1, ops[0]);
    RanOne(Apply(c, ops[0]), 1, ops[1]);
  }

  lemma {:induction false} InstallPortsPrefix(net: Net, id: string, ip: string, ports: seq<Port>, i: nat)
    requires i <= |ports|
    ensures |InstallPorts(net, id, ip, ports)| == 2 * |ports|
    ensures InstallPorts(net, id, ip, ports[..i]) + InstallPorts(net, id, ip, ports)[2 * i..]
        == InstallPorts(net, id, ip, ports)
  {
    if i < |ports| {
      var front := ports[..|ports| - 1];
      InstallPortsPrefix(net, id, ip, front, i);
      assert front[..i] == ports[..i];
    } else {
      assert ports[..i] == ports;
      SameTexts(net, id, ip, ports);
    }
  }
}
