/** From a container's security settings to the filter that is installed: name lookup, the final
    deny list of `Apply`, and the translation of an OCI seccomp section that feeds it.

    The table of default denials is a parameter, because its numbers belong to the architecture. */
module SyscallPolicy {
  import opened Seccomp
  import opened Wrappers

  const EPERM: nat := 1

  /** Simple case folding as strings.EqualFold applies it to the letters of ASCII: besides the
      upper-case letters, the Kelvin sign and the long s fold to k and s. */
  function FoldChar(c: char): char {
    if 'A' <= c <= 'Z' then c + ' '
    else if c == '\U{212A}' then 'k'
    else if c == '\U{17F}' then 's'
    else c
  }

  predicate EqualFold(a: string, b: string) {
    |a| == |b| && forall i :: 0 <= i < |a| ==> FoldChar(a[i]) == FoldChar(b[i])
  }

  /** Names in ASCII, as all names of system calls are, fold alike exactly if they differ in the case of
      letters at most. */
  lemma FoldingIsCase(a: string, b: string)
    requires forall i :: 0 <= i < |a| ==> a[i] < '\U{80}'
    requires forall i :: 0 <= i < |b| ==> b[i] < '\U{80}'
    ensures EqualFold(a, b) <==>
              |a| == |b| && forall i :: 0 <= i < |a| ==>
                              || a[i] == b[i]
                              || ('a' <= a[i] <= 'z' && a[i] as int == b[i] as int + 32)
                              || ('a' <= b[i] <= 'z' && b[i] as int == a[i] as int + 32)
  {}

  predicate Known(table: seq<Denied>, name: string) {
    exists i :: 0 <= i < |table| && EqualFold(table[i].name, name)
  }

  /** The number of the first table entry with this name. */
  function NumberOf(table: seq<Denied>, name: string): (nr: int)
    requires Known(table, name)
    ensures exists i :: 0 <= i < |table| && table[i].nr == nr && EqualFold(table[i].name, name)
  {
    if EqualFold(table[0].name, name) then table[0].nr
    else
      assert Known(table[1..], name) by {
        var i :| 0 <= i < |table| && EqualFold(table[i].name, name);
        assert table[1..][i - 1] == table[i];
      }
      NumberOf(table[1..], name)
  }

  method LookupSyscall(table: seq<Denied>, name: string) returns (r: Option<int>)
    ensures r.Some? <==> Known(table, name)
    ensures r.Some? ==> r.value == NumberOf(table, name)
    ensures r.Some? ==>
              exists i :: 0 <= i < |table| && EqualFold(table[i].name, name) && r.value == table[i].nr
                          && forall k :: 0 <= k < i ==> !EqualFold(table[k].name, name)
  {
    for i := 0 to |table|
      invariant Known(table, name) ==> Known(table[i..], name) && NumberOf(table, name) == NumberOf(table[i..], name)
      invariant forall k :: 0 <= k < i ==> !EqualFold(table[k].name, name)
    {
      assert table[i..][0] == table[i] && table[i..][1..] == table[i + 1..];
      if EqualFold(table[i].name, name) {
        assert Known(table, name);
        return Some(table[i].nr);
      }
    }
    return None;
  }

  // ---------------------------------------------------------------- Apply

  datatype Failure = UnknownSyscall(name: string) | PolicyTooLong
  datatype Policy = Rejected(why: Failure) | Filter(program: Program)

  function Resolved(table: seq<Denied>, extra: seq<string>): seq<Denied>
    requires forall n :: n in extra ==> Known(table, n)
  {
    seq(|extra|, i requires 0 <= i < |extra| => Denied(extra[i], NumberOf(table, extra[i])))
  }

  function ActionOf(setting: string): (action: Word)
    ensures action == if EqualFold(setting, "kill") then 0x8000_0000 else 0x0005_0001
  {
    if EqualFold(setting, "kill") then ActionKill() else ActionErrno(EPERM)
  }

  /** The seccomp part of Apply up to, and without, the installation. It reports the first name it
      cannot resolve, then an over-long list; otherwise the filter decides as the extended list. */
  method BuildPolicy(table: seq<Denied>, extra: seq<string>, setting: string, native: Word) returns (p: Policy)
    ensures p.Rejected? && p.why.UnknownSyscall? <==> exists n :: n in extra && !Known(table, n)
    ensures p.Rejected? && p.why.UnknownSyscall? ==>
      exists i :: 0 <= i < |extra| && p.why.name == extra[i] && !Known(table, extra[i])
                  && forall k :: 0 <= k < i ==> Known(table, extra[k])
    ensures p.Rejected? && p.why.PolicyTooLong? <==>
      (forall n :: n in extra ==> Known(table, n)) && |table| + |extra| > 250
    ensures p.Filter? ==>
      && (forall n :: n in extra ==> Known(table, n))
      && p.program.denied == table + Resolved(table, extra)
      && Implements(p.program.instructions, table + Resolved(table, extra),
                    if EqualFold(setting, "kill") then 0x8000_0000 else 0x0005_0001, native)
  {
    var denied := table;
    for i := 0 to |extra|
      invariant forall k :: 0 <= k < i ==> Known(table, extra[k])
      invariant denied == table + Resolved(table, extra[..i])
    {
      var nr := LookupSyscall(table, extra[i]);
      if nr == None {
        return Rejected(UnknownSyscall(extra[i]));
      }
      assert extra[..i + 1][..i] == extra[..i];
      denied := denied + [Denied(extra[i], nr.value)];
    }
    assert extra[..|extra|] == extra;
    var r := BuildFilter(denied, ActionOf(setting), native);
    if r.Err? {
      return Rejected(PolicyTooLong);
    }
    return Filter(r.value);
  }

  /** Every name that resolves is already in the table under the same number, so an extended list
      makes the same decisions as the table alone. */
  lemma ExtraDenialsChangeNothing(table: seq<Denied>, extra: seq<string>, action: Word, native: Word, data: SeccompData)
    requires forall n :: n in extra ==> Known(table, n)
    ensures Decide(table + Resolved(table, extra), action, native, data) == Decide(table, action, native, data)
  {
    var all := table + Resolved(table, extra);
    if Listed(table, data.nr) {
      var i :| 0 <= i < |table| && ToWord(table[i].nr) == data.nr;
      assert all[i] == table[i];
      assert Listed(all, data.nr);
    }
    if Listed(all, data.nr) {
      var i :| 0 <= i < |all| && ToWord(all[i].nr) == data.nr;
      if i < |table| {
        assert all[i] == table[i];
      } else {
        assert all[i] == Denied(extra[i - |table|], NumberOf(table, extra[i - |table|]));
        var k :| 0 <= k < |table| && table[k].nr == all[i].nr;
      }
      assert Listed(table, data.nr);
    }
  }

  /** Any two extensions of one table that compile at all give filters that decide alike, with the
      table's own decisions. */
  lemma ExtendedFiltersDecideAsTheTable(table: seq<Denied>, extra: seq<string>, program: seq<SockFilter>, action: Word,
      native: Word)
    requires forall n :: n in extra ==> Known(table, n)
    requires Implements(program, table + Resolved(table, extra), action, native)
    ensures Implements(program, table, action, native)
  {
    forall data: SeccompData
      ensures Execute(program, data) == Returned(Decide(table, action, native, data))
    {
      ExtraDenialsChangeNothing(table, extra, action, native, data);
    }
  }

  // ---------------------------------------------------------------- OCI translation

  datatype SpecRule = SpecRule(names: seq<string>, action: string)
  datatype SpecSeccomp = SpecSeccomp(defaultAction: string, syscalls: seq<SpecRule>)
  datatype SeccompConfig = SeccompConfig(enabled: bool, action: string, extraDenied: seq<string>)

  const ACT_ALLOW := "SCMP_ACT_ALLOW"
  const ACT_KILL_PROCESS := "SCMP_ACT_KILL_PROCESS"

  function KnownNames(table: seq<Denied>, names: seq<string>): (r: seq<string>)
    ensures forall n :: n in r <==> n in names && Known(table, n)
  {
    if names == [] then []
    else
      var rest := KnownNames(table, names[..|names| - 1]);
      var last := names[|names| - 1];
      if Known(table, last) then rest + [last] else rest
  }

  function HonouredNames(table: seq<Denied>, rules: seq<SpecRule>): (r: seq<string>)
    ensures forall n :: n in r <==>
              Known(table, n)
              && exists i :: 0 <= i < |rules| && rules[i].action != "SCMP_ACT_ALLOW" && n in rules[i].names
  {
    if rules == [] then []
    else
      var init, last := rules[..|rules| - 1], rules[|rules| - 1];
      var rest := HonouredNames(table, init);
      var r := if last.action == ACT_ALLOW then rest else rest + KnownNames(table, last.names);
      assert forall n | Known(table, n) && last.action != ACT_ALLOW && n in last.names :: n in r;
      assert forall n, i | 0 <= i < |init| && init[i].action != ACT_ALLOW && n in init[i].names ::
          0 <= i < |rules| && rules[i] == init[i];
      assert forall n, i | 0 <= i < |rules| && rules[i].action != ACT_ALLOW && n in rules[i].names ::
          i == |rules| - 1 || (0 <= i < |init| && init[i] == rules[i]);
      r
  }

  method SeccompFromSpec(table: seq<Denied>, s: SpecSeccomp) returns (cfg: SeccompConfig)
    ensures cfg == SeccompConfig(true,
                                 if EqualFold(s.defaultAction, "SCMP_ACT_KILL_PROCESS") then "kill" else "errno",
                                 HonouredNames(table, s.syscalls))
  {
    var action := if EqualFold(s.defaultAction, ACT_KILL_PROCESS) then "kill" else "errno";
    var extra: seq<string> := [];
    for i := 0 to |s.syscalls|
      invariant extra == HonouredNames(table, s.syscalls[..i])
    {
      var sc := s.syscalls[i];
      assert s.syscalls[..i + 1][..i] == s.syscalls[..i];
      if sc.action == ACT_ALLOW {
        continue;
      }
      ghost var before := extra;
      for j := 0 to |sc.names|
        invariant extra == before + KnownNames(table, sc.names[..j])
      {
        assert sc.names[..j + 1][..j] == sc.names[..j];
        var nr := LookupSyscall(table, sc.names[j]);
        if nr.Some? {
          extra := extra + [sc.names[j]];
        }
      }
      assert sc.names[..|sc.names|] == sc.names;
    }
    assert s.syscalls[..|s.syscalls|] == s.syscalls;
    return SeccompConfig(true, action, extra);
  }

  /** A seccomp section never fails on a name: what reaches Apply always resolves, so the only way
      for it to be refused is its length. What is installed decides every call by the default
      table; the section's own rules, allowing or denying, have no say beyond its default action. */
  method PolicyForSpec(table: seq<Denied>, s: SpecSeccomp, native: Word) returns (p: Policy)
    ensures p.Rejected? <==> |table| + |HonouredNames(table, s.syscalls)| > 250
    ensures p.Rejected? ==> p.why == PolicyTooLong
    ensures p.Filter? ==>
      Implements(p.program.instructions, table,
                 if EqualFold(s.defaultAction, "SCMP_ACT_KILL_PROCESS") then 0x8000_0000 else 0x0005_0001, native)
  {
    var cfg := SeccompFromSpec(table, s);
    assert forall n :: n in cfg.extraDenied ==> Known(table, n);
    p := BuildPolicy(table, cfg.extraDenied, cfg.action, native);
    if p.Filter? {
      assert EqualFold("kill", "kill") && !EqualFold("errno", "kill");
      ExtendedFiltersDecideAsTheTable(table, cfg.extraDenied, p.program.instructions, ActionOf(cfg.action), native);
    }
  }

  // ---------------------------------------------------------------- is it narrower than requested?

  /** What an OCI section asks for: the first rule that names the call, or else the default action.
      `names` gives the name of every system call number. */
  function Requested(s: SpecSeccomp, names: map<Word, string>, nr: Word): string {
    RequestedBy(s.syscalls, s.defaultAction, if nr in names then names[nr] else "")
  }

  function RequestedBy(rules: seq<SpecRule>, fallback: string, name: string): string {
    if rules == [] then fallback
    else if name in rules[0].names then rules[0].action
    else RequestedBy(rules[1..], fallback, name)
  }

  /** The filter allows nothing that the section does not. */
  ghost predicate Narrower(program: seq<SockFilter>, s: SpecSeccomp, names: map<Word, string>, native: Word) {
    forall nr: Word :: Execute(program, SeccompData(nr, native)) == Returned(0x7fff_0000) ==>
      Requested(s, names, nr) == "SCMP_ACT_ALLOW"
  }

  /** The documentation promises a filter that is always narrower than requested. It is, exactly when
      the section allows every native call that the table does not deny. */
  lemma NarrowerOnlyIfTheRestIsAllowed(table: seq<Denied>, program: seq<SockFilter>, action: Word, native: Word,
      s: SpecSeccomp, names: map<Word, string>)
    requires Implements(program, table, action, native) && action != RET_ALLOW
    ensures Narrower(program, s, names, native) <==>
              forall nr: Word :: nr < 0x4000_0000 && !Listed(table, nr) ==> Requested(s, names, nr) == "SCMP_ACT_ALLOW"
  {
    forall nr: Word
      ensures Execute(program, SeccompData(nr, native)) == Returned(0x7fff_0000)
         <==> nr < 0x4000_0000 && !Listed(table, nr)
    {
      assert Execute(program, SeccompData(nr, native))
        == Returned(Decide(table, action, native, SeccompData(nr, native)));
    }
  }

  /** A section that denies everything by default gets a filter that allows what the table omits. */
  lemma DenyByDefaultIsWidened(table: seq<Denied>, program: seq<SockFilter>, action: Word, native: Word,
      names: map<Word, string>, nr: Word)
    requires Implements(program, table, action, native) && action != RET_ALLOW && nr < 0x4000_0000 && !Listed(table, nr)
    ensures !Narrower(program, SpecSeccomp("SCMP_ACT_ERRNO", []), names, native)
  {
    var s := SpecSeccomp("SCMP_ACT_ERRNO", []);
    NarrowerOnlyIfTheRestIsAllowed(table, program, action, native, s, names);
    assert "SCMP_ACT_ERRNO"[9] == 'E' && ACT_ALLOW[9] == 'A';
    assert Requested(s, names, nr) != ACT_ALLOW;
  }
}
