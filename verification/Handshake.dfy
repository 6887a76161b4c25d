/** The start handshake between the runtime (the parent) and `husk init` (the child), over all
    interleavings, with any step of either side failing and either side dying anywhere.

    Every action is one step of `spawn.start`, of the setup callback of `launchConfig`, of
    `initproc.Run`, or of the environment. */
module Handshake {
  import opened Ipc
  import opened Wrappers

  datatype ParentPc =
    | PClone | PDropCopies | PSendConfig | PAwaitBooted | PCgroup | PAttach | PTellFailure | PSendReady
    | PAwaitJailed | PKill | PReap | PReturned(ok: bool) | PDead

  datatype ChildPc =
    | CAbsent | CAwaitConfig | CSignalBooted | CAwaitReady | CSetup | CTellFailure | CExiting | CSignalJailed
    | CStartWait | CLaunch | CRunning | CExited | CReaped

  /** What one side has sent, and how much of it the other has read. */
  datatype Chan = Chan(log: seq<Message>, taken: nat)

  /** `copies`: the parent still holds the child's pipe ends. `net`: what the setup callback
      returned. `held`: the configuration as the child has it. `jailed`: the child's own setup
      succeeded. `launched`: the child has reached launch. `disorder`: some wait reported a
      message out of order. */
  datatype State = State(
    parent: ParentPc, child: ChildPc, toChild: Chan, toParent: Chan, copies: bool, killed: bool,
    inCgroup: bool, net: Option<Network>, held: Option<Config>, jailed: bool, launched: bool, disorder: bool)

  /** `dropCopies` is what the source does; without it the parent keeps the child's ends. */
  datatype Params = Params(config: Config, dropCopies: bool)

  datatype Action =
    | Clone(ok: bool) | Drop | ParentSend(ok: bool) | ParentReceive | AddToCgroup(ok: bool)
    | Attach(result: Option<Network>) | TellChild | Kill | Reap
    | ChildReceive | ChildSend | ChildSetup(ok: bool) | TellParent | ChildExit | StartSignal | Exec(ok: bool)
    | KillLands | CrashParent(torn: bool) | CrashChild(torn: bool)

  const INITIAL := State(PClone, CAbsent, Chan([], 0), Chan([], 0), true, false, false, None, None, false, false, false)

  // ---------------------------------------------------------------- steps

  predicate ParentLives(s: State) { !s.parent.PDead? && s.parent != PReturned(false) }

  predicate ChildLives(s: State) { !s.child.CAbsent? && !s.child.CExited? && !s.child.CReaped? }

  /** Somebody can still write to the parent: the child, or the parent's own copies of its ends. */
  predicate ToParentWriters(s: State) { ChildLives(s) || (s.copies && ParentLives(s)) }

  predicate ToChildReaders(s: State) { ChildLives(s) || (s.copies && ParentLives(s)) }

  function Unread(c: Chan): seq<Message> {
    if c.taken <= |c.log| then c.log[c.taken..] else []
  }

  function Sent(c: Chan, m: Message): Chan { c.(log := c.log + [m]) }

  function Taken(c: Chan): Chan { c.(taken := c.taken + 1) }

  function ParentWant(pc: ParentPc): Stage { if pc.PAwaitBooted? then StageChildBooted else StageChildJailed }

  function ChildWant(pc: ChildPc): Stage { if pc.CAwaitConfig? then StageConfig else StageParentReady }

  function ParentHears(s: State): Outcome {
    Receive(Unread(s.toParent), ToParentWriters(s), ParentWant(s.parent), false)
  }

  function ChildHears(s: State): Outcome {
    Receive(Unread(s.toChild), ParentLives(s), ChildWant(s.child), true)
  }

  predicate Enabled(pr: Params, s: State, act: Action) {
    match act
    case Clone(_) => s.parent.PClone? && s.child.CAbsent?
    case Drop => s.parent.PDropCopies?
    case ParentSend(ok) => (s.parent.PSendConfig? || s.parent.PSendReady?) && (ok ==> ToChildReaders(s))
    case ParentReceive => (s.parent.PAwaitBooted? || s.parent.PAwaitJailed?) && !ParentHears(s).Blocked?
    case AddToCgroup(_) => s.parent.PCgroup?
    case Attach(_) => s.parent.PAttach?
    case TellChild => s.parent.PTellFailure?
    case Kill => s.parent.PKill?
    case Reap => s.parent.PReap? && s.child.CExited?
    case ChildReceive => (s.child.CAwaitConfig? || s.child.CAwaitReady?) && !ChildHears(s).Blocked?
    case ChildSend => s.child.CSignalBooted? || s.child.CSignalJailed?
    case ChildSetup(_) => s.child.CSetup?
    case TellParent => s.child.CTellFailure?
    case ChildExit => s.child.CExiting?
    case StartSignal => s.child.CStartWait?
    case Exec(_) => s.child.CLaunch?
    case KillLands => s.killed && ChildLives(s)
    case CrashParent(torn) =>
      ParentLives(s)
      && (torn ==> (s.parent.PSendConfig? || s.parent.PSendReady? || s.parent.PTellFailure?) && ToChildReaders(s))
    case CrashChild(torn) =>
      ChildLives(s)
      && (torn ==> (s.child.CSignalBooted? || s.child.CSignalJailed? || s.child.CTellFailure?) && ParentLives(s))
  }

  function ParentDo(pr: Params, s: State, act: Action): State
    requires Enabled(pr, s, act)
  {
    match act
    case Clone(ok) => if ok then s.(parent := PDropCopies, child := CAwaitConfig) else s.(parent := PReturned(false))
    case Drop => s.(parent := PSendConfig, copies := !pr.dropCopies)
    case ParentSend(ok) =>
      if !ok then s.(parent := PKill)
      else if s.parent.PSendConfig? then
        s.(parent := PAwaitBooted, toChild := Sent(s.toChild, Message(StageConfig, ConfigBody(pr.config))))
      else
        s.(parent := PAwaitJailed,
           toChild := Sent(s.toChild,
             Message(StageParentReady, NetworkBody(if s.net.Some? then s.net.value else pr.config.network))))
    case ParentReceive =>
      var o := ParentHears(s);
      var read := if o == Failed(EndOfFile) then s.toParent else Taken(s.toParent);
      if o.Failed? then s.(parent := PKill, toParent := read, disorder := s.disorder || o.why.OutOfOrder?)
      else s.(parent := if s.parent.PAwaitBooted? then PCgroup else PReturned(true), toParent := read)
    case AddToCgroup(ok) =>
      if !ok then s.(parent := PTellFailure)
      else if pr.config.network.mode == "bridge" && pr.config.netns then s.(parent := PAttach, inCgroup := true)
      else s.(parent := PSendReady, inCgroup := true, net := Some(pr.config.network))
    case Attach(result) =>
      if result.None? then s.(parent := PTellFailure) else s.(parent := PSendReady, net := result)
    case TellChild =>
      s.(parent := PKill,
         toChild := if ToChildReaders(s) then Sent(s.toChild, Message(StageError, NoBody)) else s.toChild)
    case Kill => s.(parent := PReap, killed := true)
    case Reap => s.(parent := PReturned(false), child := CReaped)
    case CrashParent(torn) => s.(parent := PDead, toChild := if torn then Sent(s.toChild, Torn) else s.toChild)
    case _ => s
  }

  function Exit(s: State): State { s.(child := CExited) }

  function Launched(s: State): State { s.(child := CLaunch, launched := true) }

  function ChildDo(pr: Params, s: State, act: Action): State
    requires Enabled(pr, s, act)
  {
    match act
    case ChildReceive =>
      var o := ChildHears(s);
      var t := s.(toChild := if o == Failed(EndOfFile) then s.toChild else Taken(s.toChild));
      if o.Failed? then Exit(t).(disorder := s.disorder || o.why.OutOfOrder?)
      else if s.child.CAwaitConfig? then
        if o.body.ConfigBody? then t.(child := CSignalBooted, held := Some(o.body.config)) else Exit(t)
      else
        if o.body.NetworkBody? && s.held.Some? then
          t.(child := CSetup, held := Some(s.held.value.(network := o.body.network)))
        else Exit(t)
    case ChildSend =>
      if !ParentLives(s) then Exit(s)
      else if s.child.CSignalBooted? then
        s.(child := CAwaitReady, toParent := Sent(s.toParent, Message(StageChildBooted, NoBody)))
      else
        var t := s.(toParent := Sent(s.toParent, Message(StageChildJailed, NoBody)));
        if s.held.Some? && s.held.value.awaitStart then t.(child := CStartWait) else Launched(t)
    case ChildSetup(ok) => if ok then s.(child := CSignalJailed, jailed := true) else s.(child := CTellFailure)
    case TellParent =>
      s.(child := CExiting,
         toParent := if ParentLives(s) then Sent(s.toParent, Message(StageError, NoBody)) else s.toParent)
    case ChildExit => Exit(s)
    case StartSignal => Launched(s)
    case Exec(ok) => if ok then s.(child := CRunning) else Exit(s)
    case KillLands => Exit(s)
    case CrashChild(torn) => Exit(s).(toParent := if torn then Sent(s.toParent, Torn) else s.toParent)
    case _ => s
  }

  predicate OfChild(act: Action) {
    act.ChildReceive? || act.ChildSend? || act.ChildSetup? || act.TellParent? || act.ChildExit?
    || act.StartSignal? || act.Exec?
    || act.KillLands? || act.CrashChild?
  }

  function Do(pr: Params, s: State, act: Action): State
    requires Enabled(pr, s, act)
  {
    if OfChild(act) then ChildDo(pr, s, act) else ParentDo(pr, s, act)
  }

  predicate IsRun(pr: Params, s: State, acts: seq<Action>)
    decreases |acts|
  {
    acts == [] || (Enabled(pr, s, acts[0]) && IsRun(pr, Do(pr, s, acts[0]), acts[1..]))
  }

  function After(pr: Params, s: State, acts: seq<Action>): State
    requires IsRun(pr, s, acts)
    decreases |acts|
  {
    if acts == [] then s else After(pr, Do(pr, s, acts[0]), acts[1..])
  }

  // ---------------------------------------------------------------- what the logs can hold

  function ConfigMessage(pr: Params): Message { Message(StageConfig, ConfigBody(pr.config)) }

  function ReadyMessage(n: Network): Message { Message(StageParentReady, NetworkBody(n)) }

  const ERROR := Message(StageError, NoBody)
  const BOOTED := Message(StageChildBooted, NoBody)
  const JAILED := Message(StageChildJailed, NoBody)

  /** How many messages are whole: a writer that died may have left a fragment behind them. */
  function Whole(log: seq<Message>): nat {
    if log != [] && log[|log| - 1] == Torn then |log| - 1 else |log|
  }

  predicate Released(s: State) {
    |s.toChild.log| >= 2 && s.toChild.log[1].Message? && s.toChild.log[1].stage == StageParentReady
  }

  predicate Reported(s: State) {
    |s.toParent.log| >= 2 && s.toParent.log[1] == JAILED
  }

  /** The parent sends its configuration, then either an error or the network its setup returned. */
  predicate ParentLogOk(pr: Params, s: State) {
    var log, n := s.toChild.log, Whole(s.toChild.log);
    && (|log| != n ==> s.parent.PDead?)
    && n <= 2
    && (n >= 1 ==> log[0] == ConfigMessage(pr))
    && (n == 2 ==> log[1] == ERROR || (s.net.Some? && s.inCgroup && log[1] == ReadyMessage(s.net.value)))
  }

  /** The child does nothing more than exit, if that. */
  predicate Ending(s: State) { !ChildLives(s) || s.child.CExiting? }

  /** The child reports that it booted, then either an error or that its setup is done. */
  predicate ChildLogOk(s: State) {
    var log, n := s.toParent.log, Whole(s.toParent.log);
    && (|log| != n ==> !ChildLives(s))
    && n <= 2
    && (n >= 1 ==> log[0] == BOOTED)
    && (n == 2 ==> (log[1] == ERROR && Ending(s)) || (log[1] == JAILED && s.jailed && Released(s)))
  }

  predicate ParentPcOk(pr: Params, s: State) {
    var sent := |s.toChild.log|;
    && (s.parent.PClone? <==> (s.child.CAbsent? && s.parent != PReturned(false) && !s.parent.PDead?))
    && match s.parent
       case PClone => sent == 0 && s.toParent.taken == 0 && s.copies
       case PDropCopies => sent == 0 && s.toParent.taken == 0
       case PSendConfig => sent == 0 && s.toParent.taken == 0
       case PAwaitBooted => sent == 1 && s.toParent.taken == 0
       case PCgroup => sent == 1 && s.toParent.taken == 1
       case PAttach => sent == 1 && s.toParent.taken == 1 && s.inCgroup
       case PTellFailure => sent == 1 && s.toParent.taken == 1
       case PSendReady => sent == 1 && s.toParent.taken == 1 && s.inCgroup && s.net.Some?
       case PAwaitJailed => Released(s) && s.toParent.taken == 1
       case PKill => Doomed(s)
       case PReap => Doomed(s) && s.killed
       case PReturned(ok) => if ok then Reported(s) else !s.launched && (s.child.CReaped? || s.child.CAbsent?)
       case PDead => true
  }

  /** The child has not reported success, and it never will. */
  predicate Doomed(s: State) {
    !Reported(s) && !s.launched && (!Released(s) || Ending(s))
  }

  predicate ChildPcOk(pr: Params, s: State) {
    var sent := |s.toParent.log|;
    match s.child
    case CAbsent => sent == 0 && s.toChild.taken == 0
    case CAwaitConfig => sent == 0 && s.toChild.taken == 0
    case CSignalBooted => sent == 0 && s.toChild.taken == 1 && s.held == Some(pr.config)
    case CAwaitReady => sent == 1 && s.toChild.taken == 1 && s.held == Some(pr.config)
    case CSetup => sent == 1 && FullyConfigured(pr, s)
    case CTellFailure => sent == 1 && FullyConfigured(pr, s)
    case CExiting => !Reported(s) && !s.launched && FullyConfigured(pr, s)
    case CSignalJailed => sent == 1 && FullyConfigured(pr, s) && s.jailed
    case CStartWait => Reported(s) && FullyConfigured(pr, s)
    case CLaunch => Reported(s) && FullyConfigured(pr, s)
    case CRunning => Reported(s) && FullyConfigured(pr, s)
    case CExited => true
    case CReaped => s.parent == PReturned(false)
  }

  /** The parent's setup is complete, and the child's network is the one it returned. */
  predicate FullyConfigured(pr: Params, s: State) {
    s.inCgroup && s.net.Some? && Released(s) && s.held == Some(pr.config.(network := s.net.value))
  }

  predicate LaunchOk(pr: Params, s: State) {
    s.launched ==> FullyConfigured(pr, s) && s.jailed && Reported(s)
  }

  predicate Inv(pr: Params, s: State) {
    && s.toChild.taken <= |s.toChild.log| && s.toParent.taken <= |s.toParent.log|
    && ParentLogOk(pr, s) && ChildLogOk(s)
    && ParentPcOk(pr, s) && ChildPcOk(pr, s) && LaunchOk(pr, s)
    && !s.disorder
    && (pr.dropCopies ==> s.copies ==> s.parent.PClone? || s.parent.PDropCopies? || !ParentLives(s))
  }

  // What each wait can hear. A message out of order is never among it.

  lemma ParentHearing(pr: Params, s: State)
    requires Inv(pr, s) && (s.parent.PAwaitBooted? || s.parent.PAwaitJailed?)
    ensures
      var n := if s.parent.PAwaitBooted? then 0 else 1;
      ParentHears(s) ==
        if Whole(s.toParent.log) <= n then (if ToParentWriters(s) then Blocked else Failed(EndOfFile))
        else if s.toParent.log[n] == ERROR then Failed(PeerFailed)
        else Got(NoBody)
  {
    var n := if s.parent.PAwaitBooted? then 0 else 1;
    var unread := Unread(s.toParent);
    assert unread != [] ==> unread[0] == s.toParent.log[n];
  }

  lemma ChildHearing(pr: Params, s: State)
    requires Inv(pr, s) && (s.child.CAwaitConfig? || s.child.CAwaitReady?)
    ensures
      var n := if s.child.CAwaitConfig? then 0 else 1;
      ChildHears(s) ==
        if Whole(s.toChild.log) <= n then (if ParentLives(s) then Blocked else Failed(EndOfFile))
        else if s.toChild.log[n] == ERROR then Failed(PeerFailed)
        else Got(if n == 0 then ConfigBody(pr.config) else NetworkBody(s.net.value))
  {
    var n := if s.child.CAwaitConfig? then 0 else 1;
    var unread := Unread(s.toChild);
    assert unread != [] ==> unread[0] == s.toChild.log[n];
  }

  lemma ParentBootedKeepsInv(pr: Params, s: State)
    requires Inv(pr, s) && Enabled(pr, s, ParentReceive) && s.parent.PAwaitBooted?
    ensures Inv(pr, Do(pr, s, ParentReceive))
  {
    ParentHearing(pr, s);
    if ParentHears(s).Got? {
      assert Do(pr, s, ParentReceive) == s.(parent := PCgroup, toParent := Taken(s.toParent));
    }
  }

  lemma ParentJailedKeepsInv(pr: Params, s: State)
    requires Inv(pr, s) && Enabled(pr, s, ParentReceive) && s.parent.PAwaitJailed?
    ensures Inv(pr, Do(pr, s, ParentReceive))
  {
    ParentHearing(pr, s);
    if ParentHears(s).Got? {
      assert Do(pr, s, ParentReceive) == s.(parent := PReturned(true), toParent := Taken(s.toParent));
    }
  }

  lemma ParentSendKeepsInv(pr: Params, s: State, ok: bool)
    requires Inv(pr, s) && Enabled(pr, s, ParentSend(ok))
    ensures Inv(pr, Do(pr, s, ParentSend(ok)))
  {}

  lemma TellChildKeepsInv(pr: Params, s: State)
    requires Inv(pr, s) && Enabled(pr, s, TellChild)
    ensures Inv(pr, Do(pr, s, TellChild))
  {}

  lemma CrashParentKeepsInv(pr: Params, s: State, torn: bool)
    requires Inv(pr, s) && Enabled(pr, s, CrashParent(torn))
    ensures Inv(pr, Do(pr, s, CrashParent(torn)))
  {}

  lemma ForkKeepsInv(pr: Params, s: State, act: Action)
    requires Inv(pr, s) && Enabled(pr, s, act) && (act.Clone? || act.Drop?)
    ensures Inv(pr, Do(pr, s, act))
  {}

  lemma CgroupKeepsInv(pr: Params, s: State, ok: bool)
    requires Inv(pr, s) && Enabled(pr, s, AddToCgroup(ok))
    ensures Inv(pr, Do(pr, s, AddToCgroup(ok)))
  {
    assert !Released(s) && !s.launched;
  }

  lemma AttachKeepsInv(pr: Params, s: State, result: Option<Network>)
    requires Inv(pr, s) && Enabled(pr, s, Attach(result))
    ensures Inv(pr, Do(pr, s, Attach(result)))
  {
    assert !Released(s) && !s.launched;
  }

  lemma ReapKeepsInv(pr: Params, s: State, act: Action)
    requires Inv(pr, s) && Enabled(pr, s, act) && (act.Kill? || act.Reap?)
    ensures Inv(pr, Do(pr, s, act))
  {}

  lemma ChildConfigKeepsInv(pr: Params, s: State)
    requires Inv(pr, s) && Enabled(pr, s, ChildReceive) && s.child.CAwaitConfig?
    ensures Inv(pr, Do(pr, s, ChildReceive))
  {
    ChildHearing(pr, s);
    var t := Do(pr, s, ChildReceive);
    if ChildHears(s).Got? {
      assert t == s.(child := CSignalBooted, held := Some(pr.config), toChild := Taken(s.toChild));
    } else {
      assert t.child == CExited;
    }
  }

  lemma ChildReadyKeepsInv(pr: Params, s: State)
    requires Inv(pr, s) && Enabled(pr, s, ChildReceive) && s.child.CAwaitReady?
    ensures Inv(pr, Do(pr, s, ChildReceive))
  {
    ChildHearing(pr, s);
    var t := Do(pr, s, ChildReceive);
    if ChildHears(s).Got? {
      assert t == s.(child := CSetup, held := Some(pr.config.(network := s.net.value)), toChild := Taken(s.toChild));
    } else {
      assert t.child == CExited;
    }
  }

  lemma SendBootedKeepsInv(pr: Params, s: State)
    requires Inv(pr, s) && Enabled(pr, s, ChildSend) && s.child.CSignalBooted?
    ensures Inv(pr, Do(pr, s, ChildSend))
  {
    if ParentLives(s) {
      assert Do(pr, s, ChildSend) == s.(child := CAwaitReady, toParent := Sent(s.toParent, BOOTED));
    }
  }

  lemma SendJailedKeepsInv(pr: Params, s: State)
    requires Inv(pr, s) && Enabled(pr, s, ChildSend) && s.child.CSignalJailed?
    ensures Inv(pr, Do(pr, s, ChildSend))
  {
    if ParentLives(s) {
      assert s.parent.PAwaitJailed?;
      assert Reported(Do(pr, s, ChildSend));
    }
  }

  lemma TellParentKeepsInv(pr: Params, s: State)
    requires Inv(pr, s) && Enabled(pr, s, TellParent)
    ensures Inv(pr, Do(pr, s, TellParent))
  {}

  lemma CrashChildKeepsInv(pr: Params, s: State)
    requires Inv(pr, s) && Enabled(pr, s, CrashChild(false))
    ensures Inv(pr, Do(pr, s, CrashChild(false)))
  {}

  lemma TornChildKeepsInv(pr: Params, s: State)
    requires Inv(pr, s) && Enabled(pr, s, CrashChild(true))
    ensures Inv(pr, Do(pr, s, CrashChild(true)))
  {
    var log := s.toParent.log;
    assert Whole(log) == |log| && Whole(log + [Torn]) == |log|;
    assert !s.parent.PReturned? && (Reported(s) <==> Reported(Do(pr, s, CrashChild(true))));
  }

  lemma ChildSetupKeepsInv(pr: Params, s: State, ok: bool)
    requires Inv(pr, s) && Enabled(pr, s, ChildSetup(ok))
    ensures Inv(pr, Do(pr, s, ChildSetup(ok)))
  {}

  lemma ChildEndKeepsInv(pr: Params, s: State, act: Action)
    requires Inv(pr, s) && Enabled(pr, s, act) && (act.StartSignal? || act.Exec? || act.ChildExit?)
    ensures Inv(pr, Do(pr, s, act))
  {}

  lemma KillLandsKeepsInv(pr: Params, s: State)
    requires Inv(pr, s) && Enabled(pr, s, KillLands)
    ensures Inv(pr, Do(pr, s, KillLands))
  {}

  lemma StepKeepsInv(pr: Params, s: State, act: Action)
    requires Inv(pr, s) && Enabled(pr, s, act)
    ensures Inv(pr, Do(pr, s, act))
  {
    match act
    case Clone(_) => ForkKeepsInv(pr, s, act);
    case Drop => ForkKeepsInv(pr, s, act);
    case ParentSend(ok) => ParentSendKeepsInv(pr, s, ok);
    case ParentReceive =>
      if s.parent.PAwaitBooted? { ParentBootedKeepsInv(pr, s); } else { ParentJailedKeepsInv(pr, s); }
    case AddToCgroup(ok) => CgroupKeepsInv(pr, s, ok);
    case Attach(result) => AttachKeepsInv(pr, s, result);
    case TellChild => TellChildKeepsInv(pr, s);
    case Kill => ReapKeepsInv(pr, s, act);
    case Reap => ReapKeepsInv(pr, s, act);
    case ChildReceive =>
      if s.child.CAwaitConfig? { ChildConfigKeepsInv(pr, s); } else { ChildReadyKeepsInv(pr, s); }
    case ChildSend =>
      if s.child.CSignalBooted? { SendBootedKeepsInv(pr, s); } else { SendJailedKeepsInv(pr, s); }
    case ChildSetup(ok) => ChildSetupKeepsInv(pr, s, ok);
    case TellParent => TellParentKeepsInv(pr, s);
    case ChildExit => ChildEndKeepsInv(pr, s, act);
    case StartSignal => ChildEndKeepsInv(pr, s, act);
    case Exec(_) => ChildEndKeepsInv(pr, s, act);
    case KillLands => KillLandsKeepsInv(pr, s);
    case CrashParent(torn) => CrashParentKeepsInv(pr, s, torn);
    case CrashChild(torn) =>
      if torn { TornChildKeepsInv(pr, s); } else { CrashChildKeepsInv(pr, s); }
  }

  lemma {:induction false} RunKeepsInv(pr: Params, s: State, acts: seq<Action>)
    requires Inv(pr, s) && IsRun(pr, s, acts)
    ensures Inv(pr, After(pr, s, acts))
    decreases |acts|
  {
    if acts != [] {
      StepKeepsInv(pr, s, acts[0]);
      RunKeepsInv(pr, Do(pr, s, acts[0]), acts[1..]);
    }
  }

  // ---------------------------------------------------------------- the theorems

  lemma InvGivesVerdict(pr: Params, s: State)
    requires Inv(pr, s)
    ensures s.parent == PReturned(false) ==> !s.launched && (s.child.CReaped? || s.child.CAbsent?)
    ensures s.parent == PReturned(true) ==> s.jailed && s.inCgroup && s.net.Some?
  {}

  /** In every interleaving, whoever fails or dies: the child launches only after the parent's
      setup succeeded, cgroup first, and its own setup succeeded; the network it then holds is the
      one the setup returned; and no wait ever sees a message out of order. */
  lemma LaunchNeedsBothSetups(pr: Params, acts: seq<Action>)
    requires IsRun(pr, INITIAL, acts)
    ensures
      var s := After(pr, INITIAL, acts);
      && (s.launched ==> s.inCgroup && s.jailed && s.net.Some?
                         && s.held == Some(pr.config.(network := s.net.value)))
      && !s.disorder
  {
    RunKeepsInv(pr, INITIAL, acts);
  }

  /** The verdict of start is exact. An error: the user's command never ran, and a child that was
      cloned is dead and reaped. Success: the child completed all of its setup. */
  lemma VerdictIsExact(pr: Params, acts: seq<Action>)
    requires IsRun(pr, INITIAL, acts)
    ensures
      var s := After(pr, INITIAL, acts);
      && (s.parent == PReturned(false) ==> !s.launched && (s.child.CReaped? || s.child.CAbsent?))
      && (s.parent == PReturned(true) ==> s.jailed && s.inCgroup && s.net.Some?)
  {
    RunKeepsInv(pr, INITIAL, acts);
    InvGivesVerdict(pr, After(pr, INITIAL, acts));
  }

  /** A side that fails tells the other one, which hears of it as a failure of its peer and not as an end
      of file. */
  lemma FailuresAreTold(pr: Params, s: State)
    requires Inv(pr, s)
    ensures Enabled(pr, s, TellChild) && s.child.CAwaitReady? ==>
              ChildHears(ParentDo(pr, s, TellChild)) == Failed(PeerFailed)
    ensures Enabled(pr, s, TellParent) && s.parent.PAwaitJailed? ==>
              ParentHears(ChildDo(pr, s, TellParent)) == Failed(PeerFailed)
  {
    if s.parent.PTellFailure? && s.child.CAwaitReady? {
      var t := ParentDo(pr, s, TellChild);
      assert Unread(t.toChild) == [ERROR];
    }
    if s.child.CTellFailure? && s.parent.PAwaitJailed? {
      var t := ChildDo(pr, s, TellParent);
      assert Unread(t.toParent) == [ERROR];
    }
  }

  // ---------------------------------------------------------------- what a launch was preceded by

  /** What the steps of the run so far must have been, in which order. */
  predicate Earned(pr: Params, s: State, past: seq<Action>) {
    var bridged := pr.config.network.mode == "bridge" && pr.config.netns;
    && (s.inCgroup ==> AddToCgroup(true) in past)
    && (s.parent.PAttach? ==> bridged)
    && (s.net.Some? && bridged ==> InOrder(past, AddToCgroup(true), Attach(s.net)))
    && (s.net.Some? && !bridged ==> s.net.value == pr.config.network)
    && (s.jailed ==> Released(s) && s.net.Some? && InOrder(past, AddToCgroup(true), ChildSetup(true)))
    && (s.jailed && bridged ==> InOrder(past, Attach(s.net), ChildSetup(true)))
    && (s.launched && pr.config.awaitStart ==> InOrder(past, ChildSetup(true), StartSignal))
  }

  /** Only two steps of the parent set the child up, and only before it is released. */
  lemma ParentWorkIsEarned(pr: Params, s: State, past: seq<Action>, act: Action)
    requires ParentPcOk(pr, s) && Enabled(pr, s, act) && (act.AddToCgroup? || act.Attach?) && Earned(pr, s, past)
    ensures Earned(pr, Do(pr, s, act), past + [act])
  {
    OneMore(past, AddToCgroup(true), Attach(Do(pr, s, act).net), act);
    OneMore(past, ChildSetup(true), StartSignal, act);
    hide InOrder;
    assert !s.jailed && !Released(s) && Do(pr, s, act) == ParentDo(pr, s, act);
    assert act in past + [act] && (AddToCgroup(true) in past ==> AddToCgroup(true) in past + [act]);
  }

  /** No other step of the parent, and no step of the child but three, touches any of it. */
  predicate SameSetup(s: State, t: State) {
    && t.inCgroup == s.inCgroup && t.net == s.net && t.jailed == s.jailed && t.launched == s.launched
    && (Released(s) ==> Released(t)) && (t.parent.PAttach? ==> s.parent.PAttach?)
  }

  lemma ParentSendIsNoSetup(pr: Params, s: State, ok: bool)
    requires Enabled(pr, s, ParentSend(ok))
    ensures SameSetup(s, ParentDo(pr, s, ParentSend(ok)))
  {}

  lemma ParentLastWordIsNoSetup(pr: Params, s: State, act: Action)
    requires Enabled(pr, s, act) && (act.TellChild? || act.CrashParent?)
    ensures SameSetup(s, ParentDo(pr, s, act))
  {}

  lemma ParentReceiveIsNoSetup(pr: Params, s: State)
    requires Enabled(pr, s, ParentReceive)
    ensures SameSetup(s, ParentDo(pr, s, ParentReceive))
  {
    hide ParentHears;
    assert ParentDo(pr, s, ParentReceive).toChild == s.toChild;
  }

  lemma ParentRestIsNoSetup(pr: Params, s: State, act: Action)
    requires Enabled(pr, s, act) && (act.Clone? || act.Drop? || act.Kill? || act.Reap?)
    ensures SameSetup(s, ParentDo(pr, s, act))
  {}

  lemma ChildReceiveIsNoSetup(pr: Params, s: State)
    requires Enabled(pr, s, ChildReceive)
    ensures SameSetup(s, ChildDo(pr, s, ChildReceive))
  {
    hide ChildHears;
    assert ChildDo(pr, s, ChildReceive).toChild.log == s.toChild.log;
  }

  lemma ChildRestIsNoSetup(pr: Params, s: State, act: Action)
    requires Enabled(pr, s, act)
    requires act.TellParent? || act.ChildExit? || act.Exec? || act.KillLands? || act.CrashChild?
    ensures SameSetup(s, ChildDo(pr, s, act))
  {}

  lemma ChildSetupIsEarned(pr: Params, s: State, past: seq<Action>, ok: bool)
    requires ChildPcOk(pr, s) && Enabled(pr, s, ChildSetup(ok)) && Earned(pr, s, past)
    ensures Earned(pr, ChildDo(pr, s, ChildSetup(ok)), past + [ChildSetup(ok)])
  {
    EarnedGrows(pr, s, past, ChildSetup(ok));
    hide InOrder;
    assert AddToCgroup(true) in past ==> AddToCgroup(true) in past + [ChildSetup(ok)];
  }

  /** Sending and the start signal can launch, but only a child that is set up. */
  predicate LaunchStep(pr: Params, s: State, t: State, act: Action) {
    && t.inCgroup == s.inCgroup && t.net == s.net && t.jailed == s.jailed
    && t.toChild == s.toChild && t.parent == s.parent
    && (t.launched ==> s.launched || (s.jailed && (pr.config.awaitStart ==> act.StartSignal?)))
  }

  lemma SendIsLaunchStep(pr: Params, s: State)
    requires ChildPcOk(pr, s) && Enabled(pr, s, ChildSend)
    ensures LaunchStep(pr, s, ChildDo(pr, s, ChildSend), ChildSend)
  {}

  lemma StartIsLaunchStep(pr: Params, s: State)
    requires ChildPcOk(pr, s) && ChildLogOk(s) && Enabled(pr, s, StartSignal)
    ensures LaunchStep(pr, s, ChildDo(pr, s, StartSignal), StartSignal)
  {}

  lemma LaunchStepIsEarned(pr: Params, s: State, t: State, past: seq<Action>, act: Action)
    requires LaunchStep(pr, s, t, act) && Earned(pr, s, past)
    ensures Earned(pr, t, past + [act])
  {
    EarnedGrows(pr, s, past, act);
    hide InOrder;
    assert AddToCgroup(true) in past ==> AddToCgroup(true) in past + [act];
  }

  lemma EarnedGrows(pr: Params, s: State, past: seq<Action>, act: Action)
    ensures InOrder(past + [act], AddToCgroup(true), Attach(s.net))
       <==> InOrder(past, AddToCgroup(true), Attach(s.net)) || (AddToCgroup(true) in past && act == Attach(s.net))
    ensures InOrder(past + [act], AddToCgroup(true), ChildSetup(true))
       <==> InOrder(past, AddToCgroup(true), ChildSetup(true)) || (AddToCgroup(true) in past && act == ChildSetup(true))
    ensures InOrder(past + [act], Attach(s.net), ChildSetup(true))
       <==> InOrder(past, Attach(s.net), ChildSetup(true)) || (Attach(s.net) in past && act == ChildSetup(true))
    ensures InOrder(past + [act], ChildSetup(true), StartSignal)
       <==> InOrder(past, ChildSetup(true), StartSignal) || (ChildSetup(true) in past && act == StartSignal)
    ensures InOrder(past, AddToCgroup(true), Attach(s.net)) ==> Attach(s.net) in past
    ensures InOrder(past, AddToCgroup(true), ChildSetup(true)) ==> ChildSetup(true) in past
  {
    OneMore(past, AddToCgroup(true), Attach(s.net), act);
    OneMore(past, AddToCgroup(true), ChildSetup(true), act);
    OneMore(past, Attach(s.net), ChildSetup(true), act);
    OneMore(past, ChildSetup(true), StartSignal, act);
  }

  lemma StepIsEarned(pr: Params, s: State, past: seq<Action>, act: Action)
    requires Inv(pr, s) && Enabled(pr, s, act) && Earned(pr, s, past)
    ensures Earned(pr, Do(pr, s, act), past + [act])
  {
    hide ParentDo, ChildDo, Enabled;
    if act.AddToCgroup? || act.Attach? {
      ParentWorkIsEarned(pr, s, past, act);
    } else if act.ChildSetup? {
      ChildSetupIsEarned(pr, s, past, act.ok);
    } else if act.ChildSend? || act.StartSignal? {
      if act.ChildSend? { SendIsLaunchStep(pr, s); } else { StartIsLaunchStep(pr, s); }
      LaunchStepIsEarned(pr, s, Do(pr, s, act), past, act);
    } else {
      if act.ChildReceive? {
        ChildReceiveIsNoSetup(pr, s);
      } else if OfChild(act) {
        ChildRestIsNoSetup(pr, s, act);
      } else if act.ParentSend? {
        ParentSendIsNoSetup(pr, s, act.ok);
      } else if act.TellChild? || act.CrashParent? {
        ParentLastWordIsNoSetup(pr, s, act);
      } else if act.ParentReceive? {
        ParentReceiveIsNoSetup(pr, s);
      } else {
        ParentRestIsNoSetup(pr, s, act);
      }
      StaysEarned(pr, s, Do(pr, s, act), past, act);
    }
  }

  lemma StaysEarned(pr: Params, s: State, t: State, past: seq<Action>, act: Action)
    requires Earned(pr, s, past) && SameSetup(s, t)
    ensures Earned(pr, t, past + [act])
  {
    EarnedGrows(pr, s, past, act);
    hide InOrder, Released;
  }

  lemma {:induction false} RunIsEarned(pr: Params, s: State, past: seq<Action>, acts: seq<Action>)
    requires Inv(pr, s) && IsRun(pr, s, acts) && Earned(pr, s, past)
    ensures Earned(pr, After(pr, s, acts), past + acts)
    decreases |acts|
  {
    hide Inv, Enabled, Do, Earned;
    if acts == [] {
      assert past + acts == past;
    } else {
      StepKeepsInv(pr, s, acts[0]);
      StepIsEarned(pr, s, past, acts[0]);
      RunIsEarned(pr, Do(pr, s, acts[0]), past + [acts[0]], acts[1..]);
      assert past + [acts[0]] + acts[1..] == past + acts;
    }
  }

  /** Every run that launches has moved the child into its cgroup, attached it to a bridge if it has
      one, and only then let it set itself up; and a child that was told to wait for a start has had
      one, after all of that. */
  lemma LaunchIsEarned(pr: Params, acts: seq<Action>)
    requires IsRun(pr, INITIAL, acts) && After(pr, INITIAL, acts).launched
    ensures InOrder(acts, AddToCgroup(true), ChildSetup(true))
    ensures
      var net := After(pr, INITIAL, acts).net;
      if pr.config.network.mode == "bridge" && pr.config.netns
      then InOrder(acts, AddToCgroup(true), Attach(net)) && InOrder(acts, Attach(net), ChildSetup(true))
      else net == Some(pr.config.network)
    ensures pr.config.awaitStart ==> InOrder(acts, ChildSetup(true), StartSignal)
  {
    RunIsEarned(pr, INITIAL, [], acts);
    RunKeepsInv(pr, INITIAL, acts);
    assert [] + acts == acts;
  }

  // ---------------------------------------------------------------- progress

  predicate Finished(s: State) {
    && (s.parent.PReturned? || s.parent.PDead?)
    && (s.child.CAbsent? || s.child.CStartWait? || s.child.CRunning? || s.child.CExited? || s.child.CReaped?)
  }

  predicate IsCrash(act: Action) { act.CrashParent? || act.CrashChild? }

  function ParentRank(pc: ParentPc): nat {
    match pc
    case PClone => 13 case PDropCopies => 12 case PSendConfig => 11 case PAwaitBooted => 10 case PCgroup => 9
    case PAttach => 8 case PSendReady => 7 case PAwaitJailed => 6 case PTellFailure => 5 case PKill => 4
    case PReap => 3 case PReturned(ok) => if ok then 2 else 0 case PDead => 0
  }

  function ChildRank(pc: ChildPc): nat {
    match pc
    case CAbsent => 13 case CAwaitConfig => 12 case CSignalBooted => 11 case CAwaitReady => 10 case CSetup => 9
    case CTellFailure => 8 case CSignalJailed => 7 case CStartWait => 6 case CLaunch => 5 case CRunning => 4
    case CExiting => 2 case CExited => 1 case CReaped => 0
  }

  function Measure(s: State): nat { ParentRank(s.parent) + ChildRank(s.child) }

  /** A step that can be taken in an unfinished state, other than a crash. */
  function NextAction(pr: Params, s: State): Action {
    match s.parent
    case PClone => Clone(true)
    case PDropCopies => Drop
    case PSendConfig => ParentSend(ToChildReaders(s))
    case PCgroup => AddToCgroup(true)
    case PAttach => Attach(Some(pr.config.network))
    case PSendReady => ParentSend(ToChildReaders(s))
    case PTellFailure => TellChild
    case PKill => Kill
    case PReap => if ChildLives(s) then KillLands else Reap
    case _ =>
      if (s.parent.PAwaitBooted? || s.parent.PAwaitJailed?) && !ParentHears(s).Blocked? then ParentReceive
      else
        match s.child
        case CAwaitConfig => ChildReceive
        case CAwaitReady => ChildReceive
        case CSignalBooted => ChildSend
        case CSignalJailed => ChildSend
        case CSetup => ChildSetup(true)
        case CTellFailure => TellParent
        case CExiting => ChildExit
        case _ => Exec(true)
  }

  lemma NoDeadlock(pr: Params, s: State)
    requires Inv(pr, s) && pr.dropCopies && !Finished(s)
    ensures Enabled(pr, s, NextAction(pr, s)) && !IsCrash(NextAction(pr, s))
  {
    if s.parent.PAwaitBooted? || s.parent.PAwaitJailed? {
      ParentHearing(pr, s);
    }
    if s.child.CAwaitConfig? || s.child.CAwaitReady? {
      ChildHearing(pr, s);
    }
  }

  /** The handshake always ends: every reachable unfinished state has a step to take that is not a
      crash, and every step at all brings the end nearer. */
  lemma HandshakeEnds(pr: Params, acts: seq<Action>)
    requires pr.dropCopies && IsRun(pr, INITIAL, acts)
    ensures
      var s := After(pr, INITIAL, acts);
      && (!Finished(s) ==> Enabled(pr, s, NextAction(pr, s)) && !IsCrash(NextAction(pr, s)))
      && (forall act :: Enabled(pr, s, act) ==> Measure(Do(pr, s, act)) < Measure(s))
  {
    RunKeepsInv(pr, INITIAL, acts);
    var s := After(pr, INITIAL, acts);
    if !Finished(s) {
      NoDeadlock(pr, s);
    }
    EveryStepDescends(pr, s);
  }

  /** The edges of the parent's control flow. */
  predicate ParentEdge(a: ParentPc, b: ParentPc) {
    match a
    case PClone => b.PDropCopies? || b == PReturned(false) || b.PDead?
    case PDropCopies => b.PSendConfig? || b.PDead?
    case PSendConfig => b.PAwaitBooted? || b.PKill? || b.PDead?
    case PAwaitBooted => b.PCgroup? || b.PKill? || b.PDead?
    case PCgroup => b.PAttach? || b.PSendReady? || b.PTellFailure? || b.PDead?
    case PAttach => b.PSendReady? || b.PTellFailure? || b.PDead?
    case PSendReady => b.PAwaitJailed? || b.PKill? || b.PDead?
    case PAwaitJailed => b == PReturned(true) || b.PKill? || b.PDead?
    case PTellFailure => b.PKill? || b.PDead?
    case PKill => b.PReap? || b.PDead?
    case PReap => b == PReturned(false) || b.PDead?
    case PReturned(ok) => ok && b.PDead?
    case PDead => false
  }

  predicate ChildEdge(a: ChildPc, b: ChildPc) {
    match a
    case CAbsent => b.CAwaitConfig?
    case CAwaitConfig => b.CSignalBooted? || b.CExited?
    case CSignalBooted => b.CAwaitReady? || b.CExited?
    case CAwaitReady => b.CSetup? || b.CExited?
    case CSetup => b.CSignalJailed? || b.CTellFailure? || b.CExited?
    case CTellFailure => b.CExiting? || b.CExited?
    case CExiting => b.CExited?
    case CSignalJailed => b.CStartWait? || b.CLaunch? || b.CExited?
    case CStartWait => b.CLaunch? || b.CExited?
    case CLaunch => b.CRunning? || b.CExited?
    case CRunning => b.CExited?
    case CExited => b.CReaped?
    case CReaped => false
  }

  lemma ParentTalkEdge(pr: Params, s: State, act: Action)
    requires Enabled(pr, s, act) && (act.ParentSend? || act.TellChild?)
    ensures ParentEdge(s.parent, ParentDo(pr, s, act).parent) && ParentDo(pr, s, act).child == s.child
  {}

  lemma ParentListenEdge(pr: Params, s: State)
    requires Enabled(pr, s, ParentReceive)
    ensures ParentEdge(s.parent, ParentDo(pr, s, ParentReceive).parent)
    ensures ParentDo(pr, s, ParentReceive).child == s.child
  {}

  lemma ParentWorkEdge(pr: Params, s: State, act: Action)
    requires Enabled(pr, s, act) && (act.Drop? || act.AddToCgroup? || act.Attach? || act.Kill? || act.CrashParent?)
    ensures ParentEdge(s.parent, ParentDo(pr, s, act).parent) && ParentDo(pr, s, act).child == s.child
  {}

  lemma ForkReapEdge(pr: Params, s: State, act: Action)
    requires Enabled(pr, s, act) && (act.Clone? || act.Reap?)
    ensures ParentEdge(s.parent, ParentDo(pr, s, act).parent)
    ensures ParentDo(pr, s, act).child == s.child || ChildEdge(s.child, ParentDo(pr, s, act).child)
  {}

  lemma ChildListenEdge(pr: Params, s: State)
    requires Enabled(pr, s, ChildReceive)
    ensures ChildEdge(s.child, ChildDo(pr, s, ChildReceive).child) && ChildDo(pr, s, ChildReceive).parent == s.parent
  {}

  lemma ChildTalkEdge(pr: Params, s: State, act: Action)
    requires Enabled(pr, s, act) && (act.ChildSend? || act.TellParent?)
    ensures ChildEdge(s.child, ChildDo(pr, s, act).child) && ChildDo(pr, s, act).parent == s.parent
  {}

  lemma ChildWorkEdge(pr: Params, s: State, act: Action)
    requires Enabled(pr, s, act)
    requires act.ChildSetup? || act.ChildExit? || act.StartSignal? || act.Exec? || act.KillLands? || act.CrashChild?
    ensures ChildEdge(s.child, ChildDo(pr, s, act).child) && ChildDo(pr, s, act).parent == s.parent
  {}

  lemma EdgesDescend(a: ParentPc, b: ParentPc, c: ChildPc, d: ChildPc)
    ensures ParentEdge(a, b) ==> ParentRank(b) < ParentRank(a)
    ensures ChildEdge(c, d) ==> ChildRank(d) < ChildRank(c)
  {}

  lemma StepDescends(pr: Params, s: State, act: Action)
    requires Enabled(pr, s, act)
    ensures Measure(Do(pr, s, act)) < Measure(s)
  {
    var t := Do(pr, s, act);
    EdgesDescend(s.parent, t.parent, s.child, t.child);
    if act.ChildReceive? {
      ChildListenEdge(pr, s);
    } else if act.ChildSend? || act.TellParent? {
      ChildTalkEdge(pr, s, act);
    } else if OfChild(act) {
      ChildWorkEdge(pr, s, act);
    } else if act.ParentReceive? {
      ParentListenEdge(pr, s);
    } else if act.ParentSend? || act.TellChild? {
      ParentTalkEdge(pr, s, act);
    } else if act.Clone? || act.Reap? {
      ForkReapEdge(pr, s, act);
    } else {
      ParentWorkEdge(pr, s, act);
    }
  }

  lemma EveryStepDescends(pr: Params, s: State)
    ensures forall act :: Enabled(pr, s, act) ==> Measure(Do(pr, s, act)) < Measure(s)
  {
    forall act | Enabled(pr, s, act) ensures Measure(Do(pr, s, act)) < Measure(s) {
      StepDescends(pr, s, act);
    }
  }

  /** So no run is longer than the measure it starts with, and one that cannot go on without a crash has
      finished. */
  lemma {:induction false} RunsAreBounded(pr: Params, s: State, acts: seq<Action>)
    requires IsRun(pr, s, acts)
    ensures |acts| + Measure(After(pr, s, acts)) <= Measure(s)
    decreases |acts|
  {
    if acts != [] {
      StepDescends(pr, s, acts[0]);
      RunsAreBounded(pr, Do(pr, s, acts[0]), acts[1..]);
    }
  }

  lemma RunCons(pr: Params, s: State, act: Action, rest: seq<Action>)
    requires Enabled(pr, s, act) && IsRun(pr, Do(pr, s, act), rest)
    ensures IsRun(pr, s, [act] + rest) && After(pr, s, [act] + rest) == After(pr, Do(pr, s, act), rest)
  {
    assert ([act] + rest)[1..] == rest;
  }

  // ---------------------------------------------------------------- success is within reach

  lemma {:induction false} RunSnoc(pr: Params, s: State, acts: seq<Action>, act: Action)
    requires IsRun(pr, s, acts) && Enabled(pr, After(pr, s, acts), act)
    ensures IsRun(pr, s, acts + [act]) && After(pr, s, acts + [act]) == Do(pr, After(pr, s, acts), act)
    decreases |acts|
  {
    if acts == [] {
      assert acts + [act] == [act] && [act][1..] == [];
    } else {
      assert (acts + [act])[1..] == acts[1..] + [act];
      RunSnoc(pr, Do(pr, s, acts[0]), acts[1..], act);
    }
  }

  lemma Then(pr: Params, acts: seq<Action>, s: State, act: Action) returns (acts': seq<Action>, s': State)
    requires IsRun(pr, INITIAL, acts) && After(pr, INITIAL, acts) == s && Enabled(pr, s, act)
    ensures IsRun(pr, INITIAL, acts') && After(pr, INITIAL, acts') == s' && s' == Do(pr, s, act)
  {
    hide Enabled, Do;
    RunSnoc(pr, INITIAL, acts, act);
    acts', s' := acts + [act], Do(pr, s, act);
  }

  lemma Configured(pr: Params) returns (acts: seq<Action>, s: State)
    requires pr.dropCopies
    ensures IsRun(pr, INITIAL, acts) && After(pr, INITIAL, acts) == s
    ensures s == State(PAwaitBooted, CAwaitConfig, Chan([ConfigMessage(pr)], 0), Chan([], 0), false, false,
                       false, None, None, false, false, false)
  {
    acts, s := Then(pr, [], INITIAL, Clone(true));
    acts, s := Then(pr, acts, s, Drop);
    acts, s := Then(pr, acts, s, ParentSend(true));
  }

  /** The child has booted, and the parent is about to set it up. */
  lemma Boots(pr: Params) returns (acts: seq<Action>, s: State)
    requires pr.dropCopies
    ensures IsRun(pr, INITIAL, acts) && After(pr, INITIAL, acts) == s
    ensures s == State(PCgroup, CAwaitReady, Chan([ConfigMessage(pr)], 1), Chan([BOOTED], 1), false, false,
                       false, None, Some(pr.config), false, false, false)
  {
    hide IsRun, After;
    acts, s := Configured(pr);
    assert Unread(s.toChild) == [ConfigMessage(pr)];
    acts, s := Then(pr, acts, s, ChildReceive);
    acts, s := Then(pr, acts, s, ChildSend);
    assert Unread(s.toParent) == [BOOTED];
    acts, s := Then(pr, acts, s, ParentReceive);
  }

  /** The parent's setup is done and has been sent. */
  lemma IsReleased(pr: Params, net: Network) returns (acts: seq<Action>, s: State, given: Network)
    requires pr.dropCopies
    ensures IsRun(pr, INITIAL, acts) && After(pr, INITIAL, acts) == s
    ensures given == if pr.config.network.mode == "bridge" && pr.config.netns then net else pr.config.network
    ensures s == State(PAwaitJailed, CAwaitReady, Chan([ConfigMessage(pr), ReadyMessage(given)], 1), Chan([BOOTED], 1),
                       false, false, true, Some(given), Some(pr.config), false, false, false)
  {
    hide IsRun, After;
    given := if pr.config.network.mode == "bridge" && pr.config.netns then net else pr.config.network;
    acts, s := Boots(pr);
    acts, s := Then(pr, acts, s, AddToCgroup(true));
    if pr.config.network.mode == "bridge" && pr.config.netns {
      acts, s := Then(pr, acts, s, Attach(Some(net)));
    }
    acts, s := Then(pr, acts, s, ParentSend(true));
  }

  lemma IsJailed(pr: Params, net: Network) returns (acts: seq<Action>, s: State, given: Network)
    requires pr.dropCopies
    ensures IsRun(pr, INITIAL, acts) && After(pr, INITIAL, acts) == s
    ensures given == if pr.config.network.mode == "bridge" && pr.config.netns then net else pr.config.network
    ensures s == State(PAwaitJailed, if pr.config.awaitStart then CStartWait else CLaunch,
                       Chan([ConfigMessage(pr), ReadyMessage(given)], 2), Chan([BOOTED, JAILED], 1), false, false,
                       true, Some(given), Some(pr.config.(network := given)), true, !pr.config.awaitStart, false)
  {
    hide IsRun, After;
    acts, s, given := IsReleased(pr, net);
    assert Unread(s.toChild) == [ReadyMessage(given)];
    acts, s := Then(pr, acts, s, ChildReceive);
    acts, s := Then(pr, acts, s, ChildSetup(true));
    acts, s := Then(pr, acts, s, ChildSend);
  }

  /** For every configuration, and whatever network the attach would return, there is a run in which
      start succeeds and the child launches with that network. */
  lemma SuccessIsReachable(pr: Params, net: Network) returns (acts: seq<Action>)
    requires pr.dropCopies
    ensures IsRun(pr, INITIAL, acts)
    ensures
      var s := After(pr, INITIAL, acts);
      s.parent == PReturned(true) && s.launched
      && s.net == Some(if pr.config.network.mode == "bridge" && pr.config.netns then net else pr.config.network)
  {
    hide IsRun, After;
    var s, given;
    acts, s, given := IsJailed(pr, net);
    assert Unread(s.toParent) == [JAILED];
    acts, s := Then(pr, acts, s, ParentReceive);
    if pr.config.awaitStart {
      acts, s := Then(pr, acts, s, StartSignal);
    }
  }

  lemma OnlyCrashesRemain(pr: Params, s: State)
    requires s.parent.PAwaitBooted? && s.child.CExited? && !s.killed && ParentHears(s).Blocked?
    ensures forall act :: Enabled(pr, s, act) ==> act.CrashParent?
  {}

  /** Keep the copies, and a child that dies at once leaves the parent waiting for good: only a
      crash of the parent itself is left to happen. */
  lemma KeptCopiesDeadlock(config: Config) returns (acts: seq<Action>)
    ensures
      var pr := Params(config, false);
      && IsRun(pr, INITIAL, acts)
      && var s := After(pr, INITIAL, acts);
         && !Finished(s) && s.child.CExited? && s.parent.PAwaitBooted?
         && (forall act :: Enabled(pr, s, act) ==> act.CrashParent?)
  {
    var pr := Params(config, false);
    var s1 := Do(pr, INITIAL, Clone(true));
    var s2 := Do(pr, s1, CrashChild(false));
    var s3 := Do(pr, s2, Drop);
    var s4 := Do(pr, s3, ParentSend(true));
    OnlyCrashesRemain(pr, s4);
    acts := [];
    RunCons(pr, s3, ParentSend(true), acts);
    acts := [ParentSend(true)] + acts;
    RunCons(pr, s2, Drop, acts);
    acts := [Drop] + acts;
    RunCons(pr, s1, CrashChild(false), acts);
    acts := [CrashChild(false)] + acts;
    RunCons(pr, INITIAL, Clone(true), acts);
    acts := [Clone(true)] + acts;
  }

  /** Unfinished, with nothing left to happen but a crash. */
  ghost predicate Stuck(pr: Params, acts: seq<Action>) {
    && IsRun(pr, INITIAL, acts) && !Finished(After(pr, INITIAL, acts))
    && forall act :: Enabled(pr, After(pr, INITIAL, acts), act) ==> IsCrash(act)
  }

  /** No run gets stuck if and only if the parent drops its copies. */
  lemma NeverStuckIffDropped(pr: Params)
    ensures (forall acts :: !Stuck(pr, acts)) <==> pr.dropCopies
  {
    hide Enabled, Do, Finished;
    if pr.dropCopies {
      forall acts | IsRun(pr, INITIAL, acts) ensures !Stuck(pr, acts) {
        HandshakeEnds(pr, acts);
      }
    } else {
      var acts := KeptCopiesDeadlock(pr.config);
      assert Stuck(pr, acts);
    }
  }
}
