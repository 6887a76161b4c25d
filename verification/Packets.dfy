/** What a rule of iptables does to a packet: the options that husk's rules use, read as iptables(8) and
    iptables-extensions(8) define them. */
module Packets {
  import opened Wrappers

  /** The arguments that describe one rule. */
  type Rule = seq<string>

  /** `from` and `to`: the addresses and networks, as they are written, that its two ends lie in.
      `state` is what connection tracking says of it. */
  datatype Packet = Packet(
    from: set<string>, to: set<string>, input: string, output: string, protocol: string, port: string, state: string)

  datatype Flag =
    | Source | Destination | In | Out | Not | Protocol | DPort | Module | State | Comment | Jump | ToDestination
    | Unknown

  function FlagOf(arg: string): Flag {
    if arg == "-s" then Source else if arg == "-d" then Destination
    else if arg == "-i" then In else if arg == "-o" then Out else if arg == "!" then Not
    else if arg == "-p" then Protocol else if arg == "--dport" then DPort
    else if arg == "-m" then Module else if arg == "--ctstate" then State else if arg == "--comment" then Comment
    else if arg == "-j" then Jump else if arg == "--to-destination" then ToDestination
    else Unknown
  }

  lemma Flags()
    ensures FlagOf("-s") == Source && FlagOf("-d") == Destination && FlagOf("-i") == In && FlagOf("-o") == Out
    ensures FlagOf("!") == Not && FlagOf("-p") == Protocol && FlagOf("--dport") == DPort && FlagOf("-m") == Module
    ensures FlagOf("--ctstate") == State && FlagOf("--comment") == Comment && FlagOf("-j") == Jump
    ensures FlagOf("--to-destination") == ToDestination
  {
    assert "-s"[1] == 's' && "-d"[1] == 'd' && "-i"[1] == 'i' && "-o"[1] == 'o' && "-p"[1] == 'p' && "-m"[1] == 'm'
      && "-j"[1] == 'j' && "--dport"[2] == 'd' && "--ctstate"[3] == 't' && "--comment"[3] == 'o'
      && "--to-destination"[2] == 't';
  }

  function Comma(list: string): (k: nat)
    ensures k <= |list| && (k < |list| ==> list[k] == ',') && forall i :: 0 <= i < k ==> list[i] != ','
  {
    if list == "" || list[0] == ',' then 0 else 1 + Comma(list[1..])
  }

  predicate Listed(word: string, list: string)
    decreases |list|
  {
    word == list[..Comma(list)] || (Comma(list) < |list| && Listed(word, list[Comma(list) + 1..]))
  }

  /** Whether the rule covers the packet, and what it then does with it. */
  datatype Reading = Reading(covers: bool, target: string, dest: string)

  function And(r: Reading, covers: bool): Reading { r.(covers := r.covers && covers) }

  /** What one option with its value makes of what the rest of the rule says. */
  function Narrow(flag: Flag, value: string, rest: Reading, p: Packet): Reading {
    match flag
    case Source => And(rest, value in p.from)
    case Destination => And(rest, value in p.to)
    case In => And(rest, value == p.input)
    case Out => And(rest, value == p.output)
    case Protocol => And(rest, value == p.protocol)
    case DPort => And(rest, value == p.port)
    case State => And(rest, Listed(p.state, value))
    case Module => rest
    case Comment => rest
    case Jump => rest.(target := value)
    case ToDestination => rest.(dest := value)
    case _ => Reading(false, "", "")
  }

  function Read(rule: Rule, p: Packet): Reading
    decreases |rule|
  {
    if rule == [] then Reading(true, "", "")
    else if |rule| == 1 then Reading(false, "", "")
    else if FlagOf(rule[0]) != Not then Narrow(FlagOf(rule[0]), rule[1], Read(rule[2..], p), p)
    else if |rule| > 2 && FlagOf(rule[1]) == Out then And(Read(rule[3..], p), rule[2] != p.output)
    else Reading(false, "", "")
  }

  datatype Verdict = Verdict(target: string, dest: string)

  /** The first rule that covers the packet decides. */
  function Decide(rules: seq<Rule>, p: Packet): Option<Verdict> {
    if rules == [] then None
    else if Read(rules[0], p).covers then Some(Verdict(Read(rules[0], p).target, Read(rules[0], p).dest))
    else Decide(rules[1..], p)
  }

  function OrElse(a: Option<Verdict>, b: Option<Verdict>): Option<Verdict> { if a.Some? then a else b }

  lemma {:induction false} DecideAppends(a: seq<Rule>, b: seq<Rule>, p: Packet)
    ensures Decide(a + b, p) == OrElse(Decide(a, p), Decide(b, p))
  {
    hide Read;
    if a == [] {
      assert a + b == b;
    } else {
      assert (a + b)[1..] == a[1..] + b;
      DecideAppends(a[1..], b, p);
    }
  }

  lemma DecideOne(rule: Rule, p: Packet)
    ensures Decide([rule], p) == if Read(rule, p).covers then Some(Verdict(Read(rule, p).target, Read(rule, p).dest))
        else None
  {
    hide Read;
    assert [rule][1..] == [];
  }

  /** A rule that is there already need not be there again. */
  lemma {:induction false} DecideHas(rules: seq<Rule>, rule: Rule, p: Packet)
    requires rule in rules
    ensures OrElse(Decide(rules, p), Decide([rule], p)) == Decide(rules, p)
  {
    hide Read;
    DecideOne(rule, p);
    if rules[0] != rule {
      DecideHas(rules[1..], rule, p);
    }
  }

  // ---------------------------------------------------------------- husk's rules, read

  lemma ReadPair(flag: string, value: string, rest: Rule, p: Packet)
    requires FlagOf(flag) != Not
    ensures Read([flag, value] + rest, p) == Narrow(FlagOf(flag), value, Read(rest, p), p)
  {
    hide FlagOf;
    assert ([flag, value] + rest)[2..] == rest;
  }

  lemma ReadNotOut(bridge: string, rest: Rule, p: Packet)
    ensures Read(["!", "-o", bridge] + rest, p) == And(Read(rest, p), bridge != p.output)
  {
    Flags();
    hide FlagOf;
    assert (["!", "-o", bridge] + rest)[3..] == rest;
  }

  lemma ReadJump(target: string, p: Packet)
    ensures Read(["-j", target], p) == Reading(true, target, "")
  {
    Flags();
    ReadPair("-j", target, [], p);
    assert ["-j", target] + [] == ["-j", target];
  }

  lemma ReadEgress(cidr: string, bridge: string, p: Packet)
    ensures Read(["-s", cidr, "!", "-o", bridge, "-j", "MASQUERADE"], p)
         == Reading(cidr in p.from && p.output != bridge, "MASQUERADE", "")
  {
    Flags();
    hide FlagOf, Read;
    ReadJump("MASQUERADE", p);
    ReadNotOut(bridge, ["-j", "MASQUERADE"], p);
    ReadPair("-s", cidr, ["!", "-o", bridge] + ["-j", "MASQUERADE"], p);
    assert ["-s", cidr] + (["!", "-o", bridge] + ["-j", "MASQUERADE"])
        == ["-s", cidr, "!", "-o", bridge, "-j", "MASQUERADE"];
  }

  lemma ReadLoopback(cidr: string, p: Packet)
    ensures Read(["-s", "127.0.0.0/8", "-d", cidr, "-j", "MASQUERADE"], p)
         == Reading("127.0.0.0/8" in p.from && cidr in p.to, "MASQUERADE", "")
  {
    Flags();
    hide FlagOf, Read;
    ReadJump("MASQUERADE", p);
    ReadPair("-d", cidr, ["-j", "MASQUERADE"], p);
    ReadPair("-s", "127.0.0.0/8", ["-d", cidr] + ["-j", "MASQUERADE"], p);
    assert ["-s", "127.0.0.0/8"] + (["-d", cidr] + ["-j", "MASQUERADE"])
        == ["-s", "127.0.0.0/8", "-d", cidr, "-j", "MASQUERADE"];
  }

  lemma ReadOutward(bridge: string, p: Packet)
    ensures Read(["-i", bridge, "!", "-o", bridge, "-j", "ACCEPT"], p)
         == Reading(p.input == bridge && p.output != bridge, "ACCEPT", "")
  {
    Flags();
    hide FlagOf, Read;
    ReadJump("ACCEPT", p);
    ReadNotOut(bridge, ["-j", "ACCEPT"], p);
    ReadPair("-i", bridge, ["!", "-o", bridge] + ["-j", "ACCEPT"], p);
    assert ["-i", bridge] + (["!", "-o", bridge] + ["-j", "ACCEPT"])
        == ["-i", bridge, "!", "-o", bridge, "-j", "ACCEPT"];
  }

  lemma ReadAcross(bridge: string, p: Packet)
    ensures Read(["-i", bridge, "-o", bridge, "-j", "ACCEPT"], p)
         == Reading(p.input == bridge && p.output == bridge, "ACCEPT", "")
  {
    Flags();
    hide FlagOf, Read;
    ReadJump("ACCEPT", p);
    ReadPair("-o", bridge, ["-j", "ACCEPT"], p);
    ReadPair("-i", bridge, ["-o", bridge] + ["-j", "ACCEPT"], p);
    assert ["-i", bridge] + (["-o", bridge] + ["-j", "ACCEPT"]) == ["-i", bridge, "-o", bridge, "-j", "ACCEPT"];
  }

  lemma CommaAt(list: string, k: nat)
    requires k <= |list| && (k < |list| ==> list[k] == ',') && forall i :: 0 <= i < k ==> list[i] != ','
    ensures Comma(list) == k
  {
  }

  lemma TwoItems(word: string, a: string, b: string)
    requires (forall i :: 0 <= i < |a| ==> a[i] != ',') && forall i :: 0 <= i < |b| ==> b[i] != ','
    ensures Listed(word, a + "," + b) <==> word == a || word == b
  {
    var list := a + "," + b;
    CommaAt(list, |a|);
    CommaAt(b, |b|);
    assert list[..|a|] == a && list[|a| + 1..] == b && b[..|b|] == b;
    assert Listed(word, b) <==> word == b;
  }

  lemma TwoStates(state: string)
    ensures Listed(state, "RELATED,ESTABLISHED") <==> state == "RELATED" || state == "ESTABLISHED"
  {
    hide Listed;
    TwoItems(state, "RELATED", "ESTABLISHED");
    assert "RELATED" + "," + "ESTABLISHED" == "RELATED,ESTABLISHED";
  }

  lemma ReadReturn(bridge: string, p: Packet)
    ensures Read(["-o", bridge, "-m", "conntrack", "--ctstate", "RELATED,ESTABLISHED", "-j", "ACCEPT"], p)
         == Reading(p.output == bridge && (p.state == "RELATED" || p.state == "ESTABLISHED"), "ACCEPT", "")
  {
    Flags();
    hide FlagOf, Read, Listed;
    var states := "RELATED,ESTABLISHED";
    ReadJump("ACCEPT", p);
    TwoStates(p.state);
    ReadPair("--ctstate", states, ["-j", "ACCEPT"], p);
    ReadPair("-m", "conntrack", ["--ctstate", states] + ["-j", "ACCEPT"], p);
    ReadPair("-o", bridge, ["-m", "conntrack"] + (["--ctstate", states] + ["-j", "ACCEPT"]), p);
    assert ["-o", bridge] + (["-m", "conntrack"] + (["--ctstate", states] + ["-j", "ACCEPT"]))
        == ["-o", bridge, "-m", "conntrack", "--ctstate", states, "-j", "ACCEPT"];
  }

  lemma ReadComment(comment: string, p: Packet)
    ensures Read(["-m", "comment"] + ["--comment", comment], p) == Reading(true, "", "")
  {
    Flags();
    ReadPair("--comment", comment, [], p);
    assert ["--comment", comment] + [] == ["--comment", comment];
    ReadPair("-m", "comment", ["--comment", comment], p);
  }

  lemma ReadDnat(protocol: string, port: string, dest: string, comment: string, p: Packet)
    ensures Read(["-p", protocol, "--dport", port, "-j", "DNAT", "--to-destination", dest,
                  "-m", "comment", "--comment", comment], p)
         == Reading(p.protocol == protocol && p.port == port, "DNAT", dest)
  {
    Flags();
    hide FlagOf, Read;
    ReadComment(comment, p);
    var a := ["-m", "comment"] + ["--comment", comment];
    ReadPair("--to-destination", dest, a, p);
    var b := ["--to-destination", dest] + a;
    ReadPair("-j", "DNAT", b, p);
    var c := ["-j", "DNAT"] + b;
    ReadPair("--dport", port, c, p);
    var d := ["--dport", port] + c;
    ReadPair("-p", protocol, d, p);
    assert ["-p", protocol] + d == ["-p", protocol, "--dport", port, "-j", "DNAT", "--to-destination", dest,
                                    "-m", "comment", "--comment", comment];
  }

  lemma ReadPublished(ip: string, protocol: string, port: string, bridge: string, comment: string, p: Packet)
    ensures Read(["-d", ip, "-p", protocol, "--dport", port, "-o", bridge, "-j", "ACCEPT",
                  "-m", "comment", "--comment", comment], p)
         == Reading(ip in p.to && p.protocol == protocol && p.port == port && p.output == bridge, "ACCEPT", "")
  {
    Flags();
    hide FlagOf, Read;
    ReadComment(comment, p);
    var a := ["-m", "comment"] + ["--comment", comment];
    ReadPair("-j", "ACCEPT", a, p);
    var b := ["-j", "ACCEPT"] + a;
    ReadPair("-o", bridge, b, p);
    var c := ["-o", bridge] + b;
    ReadPair("--dport", port, c, p);
    var d := ["--dport", port] + c;
    ReadPair("-p", protocol, d, p);
    var e := ["-p", protocol] + d;
    ReadPair("-d", ip, e, p);
    assert ["-d", ip] + e == ["-d", ip, "-p", protocol, "--dport", port, "-o", bridge, "-j", "ACCEPT",
                              "-m", "comment", "--comment", comment];
  }
}
