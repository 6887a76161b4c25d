/** The start rendezvous: the init of one created container waits on `exec.fifo`, and any number of
    `husk start` processes, arriving at any time and dying at any step, open its read end.

    The kernel's part follows fifo(7). A writer blocked in open already counts as a writer. It is
    released by any reader that opens, even one that has gone again by the time the writer runs. A
    non-blocking read of an empty FIFO is end of file without a writer and EAGAIN with one, a write
    without readers is EPIPE, and the buffer goes with the last descriptor. */
module Rendezvous {
  type Pid = nat

  datatype Status = Creating | Created | Running

  datatype InitPc =
    | InSetup | Reporting | Opening | Blocked(woken: bool) | Writing | Written | Launched | Dead

  datatype StartPc = Loaded | Reading | Polled | GotByte

  /** `joined`: some start opened the FIFO. `written`: init's write succeeded. `got` and `lost`: bytes
      that a start read and bytes that went with the last descriptor. */
  datatype History = History(jailed: bool, joined: bool, written: bool, got: nat, lost: nat)

  datatype State = State(init: InitPc, record: Status, buffer: nat, starts: map<Pid, StartPc>, past: History)

  datatype Action =
    | FinishSetup | Report | OpenWrite | Wake | WriteByte | CloseAndLaunch | Die
    | RecordCreated
    | Load(p: Pid) | OpenRead(p: Pid) | ReadByte(p: Pid) | ReadEof(p: Pid) | ReadEagain(p: Pid)
    | SeeDead(p: Pid) | SeeAlive(p: Pid) | SaveRunning(p: Pid)
    | Quit(p: Pid)  // timed out, failed to save, or died

  const FRESH := State(InSetup, Creating, 0, map[], History(false, false, false, 0, 0))

  predicate HasWriter(s: State) { s.init.Blocked? || s.init.Writing? || s.init.Written? }

  predicate Holds(pc: StartPc) { !pc.Loaded? }

  predicate IsReader(s: State, p: Pid) { p in s.starts && Holds(s.starts[p]) }

  predicate HasReader(s: State) { exists p :: p in s.starts && IsReader(s, p) }

  predicate At(s: State, p: Pid, pc: StartPc) { p in s.starts && s.starts[p] == pc }

  predicate Enabled(s: State, act: Action) {
    match act
    case FinishSetup => s.init.InSetup?
    case Report => s.init.Reporting?
    case OpenWrite => s.init.Opening?
    case Wake => s.init == Blocked(true)
    case WriteByte => s.init.Writing?
    case CloseAndLaunch => s.init.Written?
    case Die => !s.init.Dead?
    case RecordCreated => s.record.Creating? && s.past.jailed
    case Load(p) => p !in s.starts && s.record.Created?
    case OpenRead(p) => At(s, p, Loaded)
    case ReadByte(p) => At(s, p, Reading) && s.buffer > 0
    case ReadEof(p) => At(s, p, Reading) && s.buffer == 0 && !HasWriter(s)
    case ReadEagain(p) => At(s, p, Reading) && s.buffer == 0 && HasWriter(s)
    case SeeDead(p) => At(s, p, Polled) && s.init.Dead?
    case SeeAlive(p) => At(s, p, Polled)  // signal 0 also reaches a process that is dead and not yet reaped
    case SaveRunning(p) => At(s, p, GotByte)
    case Quit(p) => p in s.starts
  }

  /** What is left of the buffer once the descriptors may have changed. */
  function Settle(s: State): State {
    if HasWriter(s) || HasReader(s) then s
    else s.(buffer := 0, past := s.past.(lost := s.past.lost + s.buffer))
  }

  function Goto(s: State, p: Pid, pc: StartPc): State { s.(starts := s.starts[p := pc]) }

  function Leave(s: State, p: Pid): State { Settle(s.(starts := s.starts - {p})) }

  function Do(s: State, act: Action): State
    requires Enabled(s, act)
  {
    match act
    case FinishSetup => s.(init := Reporting)
    case Report => s.(init := Opening, past := s.past.(jailed := true))
    case OpenWrite => s.(init := if HasReader(s) then Writing else Blocked(false))
    case Wake => s.(init := Writing)
    case WriteByte =>
      if HasReader(s) then s.(init := Written, buffer := s.buffer + 1, past := s.past.(written := true))
      else Settle(s.(init := Dead))
    case CloseAndLaunch => Settle(s.(init := Launched))
    case Die => Settle(s.(init := Dead))
    case RecordCreated => s.(record := Created)
    case Load(p) => Goto(s, p, Loaded)
    case OpenRead(p) =>
      Goto(s, p, Reading).(init := if s.init.Blocked? then Blocked(true) else s.init, past := s.past.(joined := true))
    case ReadByte(p) => Goto(s, p, GotByte).(buffer := s.buffer - 1, past := s.past.(got := s.past.got + 1))
    case ReadEof(p) => Leave(s, p)
    case ReadEagain(p) => Goto(s, p, Polled)
    case SeeDead(p) => Leave(s, p)
    case SeeAlive(p) => Goto(s, p, Reading)
    case SaveRunning(p) => Leave(s, p).(record := Running)
    case Quit(p) => Leave(s, p)
  }

  predicate IsRun(s: State, acts: seq<Action>)
    decreases |acts|
  {
    acts == [] || (Enabled(s, acts[0]) && IsRun(Do(s, acts[0]), acts[1..]))
  }

  function After(s: State, acts: seq<Action>): State
    requires IsRun(s, acts)
    decreases |acts|
  {
    if acts == [] then s else After(Do(s, acts[0]), acts[1..])
  }

  // ---------------------------------------------------------------- at most one start

  predicate BeforeWrite(pc: InitPc) {
    pc.InSetup? || pc.Reporting? || pc.Opening? || pc.Blocked? || pc.Writing?
  }

  /** Nobody is started twice, and nothing runs that nobody started. */
  ghost predicate StartedOnce(s: State) {
    && s.past.got <= 1
    && (s.past.got == 1 ==> s.past.jailed && s.past.written)
    && (s.init.Launched? ==> s.past.written && s.past.joined && s.past.jailed)
    && (s.record.Running? ==> s.past.got == 1)
  }

  predicate HistoryOk(s: State) {
    && s.past.got + s.buffer + s.past.lost == (if s.past.written then 1 else 0)
    && (BeforeWrite(s.init) ==> !s.past.written)
    && (s.init.Written? || s.init.Launched? ==> s.past.written)
    && (s.past.written ==> s.past.joined)
    && (s.past.joined ==> s.past.jailed)
    && (s.record.Creating? || s.past.jailed)
    && (s.init.InSetup? || s.init.Reporting? ==> !s.past.jailed)
    && (s.init.Opening? || s.init.Blocked? || s.init.Writing? ==> s.past.jailed)
    && (s.record.Running? ==> s.past.got == 1)
  }

  ghost predicate Inv(s: State) {
    && HistoryOk(s)
    && (s.record.Creating? ==> s.starts == map[])
    && (forall p :: IsReader(s, p) ==> s.past.joined)
    && (forall p :: At(s, p, GotByte) ==> s.past.got == 1)
    && (forall p, q :: At(s, p, GotByte) && At(s, q, GotByte) ==> p == q)
    && (s.init == Blocked(false) ==> !HasReader(s))
    && (s.buffer > 0 ==> HasWriter(s) || HasReader(s))
  }

  lemma InitStepKeepsInv(s: State, act: Action)
    requires Inv(s) && Enabled(s, act)
    requires act.FinishSetup? || act.Report? || act.OpenWrite? || act.Wake? || act.WriteByte? || act.CloseAndLaunch?
        || act.Die? || act.RecordCreated?
    ensures Inv(Do(s, act))
  {
    var t := Do(s, act);
    assert t.starts == s.starts;
    assert forall p :: IsReader(t, p) <==> IsReader(s, p);
    assert forall p :: At(t, p, GotByte) <==> At(s, p, GotByte);
  }

  lemma StartMovesKeepInv(s: State, act: Action)
    requires Inv(s) && Enabled(s, act)
    requires act.Load? || act.OpenRead? || act.ReadByte? || act.ReadEagain? || act.SeeAlive?
    ensures Inv(Do(s, act))
  {
    var t, p := Do(s, act), act.p;
    assert forall q :: q != p ==> (IsReader(t, q) <==> IsReader(s, q)) && (At(t, q, GotByte) <==> At(s, q, GotByte));
    assert act.Load? ==> forall q :: IsReader(t, q) <==> IsReader(s, q);
    assert !act.Load? ==> IsReader(t, p) && (act.OpenRead? || IsReader(s, p));
  }

  lemma StartEndsKeepInv(s: State, act: Action)
    requires Inv(s) && Enabled(s, act)
    requires act.ReadEof? || act.SeeDead? || act.SaveRunning? || act.Quit?
    ensures Inv(Do(s, act))
  {
    var t, p := Do(s, act), act.p;
    assert t.starts == s.starts - {p};
    assert forall q ::
             (IsReader(t, q) <==> q != p && IsReader(s, q)) && (At(t, q, GotByte) <==> q != p && At(s, q, GotByte));
  }

  lemma StepKeepsInv(s: State, act: Action)
    requires Inv(s) && Enabled(s, act)
    ensures Inv(Do(s, act))
  {
    if act.Load? || act.OpenRead? || act.ReadByte? || act.ReadEagain? || act.SeeAlive? {
      StartMovesKeepInv(s, act);
    } else if act.ReadEof? || act.SeeDead? || act.SaveRunning? || act.Quit? {
      StartEndsKeepInv(s, act);
    } else {
      InitStepKeepsInv(s, act);
    }
  }

  lemma {:induction false} RunKeepsInv(s: State, acts: seq<Action>)
    requires Inv(s) && IsRun(s, acts)
    ensures Inv(After(s, acts))
    decreases |acts|
  {
    if acts != [] {
      StepKeepsInv(s, acts[0]);
      RunKeepsInv(Do(s, acts[0]), acts[1..]);
    }
  }

  /** With any number of starts, and init and every start dying wherever they like, at most one start
      gets the byte, and only after init finished its setup. Init launches only after its write
      succeeded, hence after some start opened the FIFO. */
  lemma AtMostOneStart(acts: seq<Action>)
    requires IsRun(FRESH, acts)
    ensures StartedOnce(After(FRESH, acts))
  {
    RunKeepsInv(FRESH, acts);
  }

  // ---------------------------------------------------------------- what end of file means

  /** To a start whose byte is still to come, end of file does not say that init is gone. It says so
      unless init has reported itself ready and has not yet entered its open. */
  lemma EofBeforeTheWrite(s: State, p: Pid)
    requires Inv(s) && At(s, p, Reading) && !s.past.written
    ensures Enabled(s, ReadEof(p)) <==> s.init.Dead? || s.init.Opening?
  {
    assert IsReader(s, p);
  }

  /** Started, and recorded as such. */
  predicate Up(s: State) { s.init.Launched? && s.record.Running? && s.past.got == 1 }

  lemma Prepend(s: State, act: Action, tail: seq<Action>) returns (acts: seq<Action>)
    requires Enabled(s, act) && IsRun(Do(s, act), tail)
    ensures acts == [act] + tail && IsRun(s, acts) && After(s, acts) == After(Do(s, act), tail)
  {
    acts := [act] + tail;
    assert acts[1..] == tail;
  }

  /** From every state in which init lives, waits to be started and is recorded as created, one more
      start can succeed: one that was refused too early costs nothing. */
  lemma StillStartable(s: State, p: Pid) returns (acts: seq<Action>)
    requires Inv(s) && s.record.Created? && (s.init.Opening? || s.init.Blocked? || s.init.Writing?) && p !in s.starts
    ensures IsRun(s, acts) && Up(After(s, acts))
  {
    var s1 := Do(s, Load(p));
    StepKeepsInv(s, Load(p));
    if s.init.Opening? {
      StepKeepsInv(s1, OpenWrite);
      acts := AcceptAfterOpen(Do(s1, OpenWrite), p);
      acts := Prepend(s1, OpenWrite, acts);
    } else {
      acts := AcceptAfterOpen(s1, p);
    }
    acts := Prepend(s, Load(p), acts);
  }

  /** Once init is in its open, a loaded start goes all the way. */
  lemma AcceptAfterOpen(s: State, p: Pid) returns (acts: seq<Action>)
    requires Inv(s) && At(s, p, Loaded) && (s.init.Blocked? || s.init.Writing?)
    ensures IsRun(s, acts) && Up(After(s, acts))
  {
    var s1 := Do(s, OpenRead(p));
    StepKeepsInv(s, OpenRead(p));
    if s.init.Blocked? {
      acts := WriteAndTake(Do(s1, Wake), p);
      acts := Prepend(s1, Wake, acts);
    } else {
      acts := WriteAndTake(s1, p);
    }
    acts := Prepend(s, OpenRead(p), acts);
  }

  lemma WriteAndTake(s: State, p: Pid) returns (acts: seq<Action>)
    requires HistoryOk(s) && At(s, p, Reading) && s.init.Writing?
    ensures IsRun(s, acts) && Up(After(s, acts))
  {
    assert IsReader(s, p);
    var s1 := Do(s, WriteByte);
    var s2 := Do(s1, ReadByte(p));
    assert At(s2, p, GotByte) && IsReader(s2, p);
    var s3 := Do(s2, CloseAndLaunch);
    acts := Prepend(s3, SaveRunning(p), []);
    acts := Prepend(s2, CloseAndLaunch, acts);
    acts := Prepend(s1, ReadByte(p), acts);
    acts := Prepend(s, WriteByte, acts);
  }

  // ---------------------------------------------------------------- when the byte is lost

  /** The byte went with a start that died holding it. */
  ghost predicate Lost(s: State) {
    s.past.lost == 1 || (s.past.got == 1 && s.record.Created? && forall p :: !At(s, p, GotByte))
  }

  /** A byte that is lost stays lost: no later start succeeds, and the record says created for good,
      whatever init is doing. */
  lemma {:induction false} LostByteIsFinal(s: State, acts: seq<Action>)
    requires Inv(s) && Lost(s) && IsRun(s, acts)
    ensures Lost(After(s, acts)) && !After(s, acts).record.Running?
    decreases |acts|
  {
    assert HistoryOk(s);
    if acts != [] {
      StepKeepsInv(s, acts[0]);
      LostStays(s, acts[0]);
      LostByteIsFinal(Do(s, acts[0]), acts[1..]);
    }
  }

  lemma LostStays(s: State, act: Action)
    requires Inv(s) && Lost(s) && Enabled(s, act)
    ensures Lost(Do(s, act))
  {
    var t := Do(s, act);
    assert s.buffer == 0 && t.past.lost == s.past.lost;
    assert forall p :: At(t, p, GotByte) ==> At(s, p, GotByte);
  }

  lemma {:induction false} UnusedPid(starts: set<Pid>) returns (p: Pid)
    ensures forall q :: q in starts ==> q < p
  {
    if starts == {} {
      p := 0;
    } else {
      var q :| q in starts;
      var r := UnusedPid(starts - {q});
      p := if q < r then r else q + 1;
      assert forall x :: x in starts ==> x == q || x in starts - {q};
    }
  }

  /** A start that holds the byte only has to save; a byte still in the FIFO is there for one more
      start, even if init has long gone on or died. */
  lemma ByteIsStillThere(s: State) returns (acts: seq<Action>)
    requires Inv(s) && s.record.Created? && s.past.written && !Lost(s)
    ensures IsRun(s, acts) && After(s, acts).record.Running?
  {
    if s.past.got == 1 {
      var p :| At(s, p, GotByte);
      acts := Prepend(s, SaveRunning(p), []);
    } else {
      var q := UnusedPid(s.starts.Keys);
      assert q !in s.starts;
      var s1 := Do(s, Load(q));
      var s2 := Do(s1, OpenRead(q));
      assert s2.buffer > 0 && At(s2, q, Reading);
      var s3 := Do(s2, ReadByte(q));
      acts := Prepend(s3, SaveRunning(q), []);
      acts := Prepend(s2, ReadByte(q), acts);
      acts := Prepend(s1, OpenRead(q), acts);
      acts := Prepend(s, Load(q), acts);
    }
  }

  /** Once init has written, the record can still come to say running if and only if the byte is not
      lost. */
  lemma RecordedUnlessLost(s: State)
    requires Inv(s) && s.record.Created? && s.past.written
    ensures (exists acts :: IsRun(s, acts) && After(s, acts).record.Running?) <==> !Lost(s)
  {
    if Lost(s) {
      forall acts | IsRun(s, acts) ensures !After(s, acts).record.Running? {
        LostByteIsFinal(s, acts);
      }
    } else {
      var acts := ByteIsStillThere(s);
      assert IsRun(s, acts) && After(s, acts).record.Running?;
    }
  }

  // ---------------------------------------------------------------- when init dies of its write

  /** Init is on its way from a completed rendezvous to its write. */
  predicate Released(s: State) { s.init == Blocked(true) || s.init.Writing? }

  predicate Abandoned(s: State) { Released(s) && !HasReader(s) }

  ghost predicate LastHolder(s: State, p: Pid) {
    Released(s) && IsReader(s, p) && forall q :: IsReader(s, q) ==> q == p
  }

  /** Only one kind of step abandons init: its last holder quits between release and write. */
  lemma OnlyQuittingAbandons(s: State, act: Action)
    requires Inv(s) && Enabled(s, act) && !Abandoned(s)
    ensures Abandoned(Do(s, act)) <==> act.Quit? && LastHolder(s, act.p)
  {
    var t := Do(s, act);
    if act.Quit? {
      assert forall q :: IsReader(t, q) <==> q != act.p && IsReader(s, q);
    } else if act.OpenRead? || act.ReadByte? || act.ReadEagain? || act.SeeAlive? {
      assert IsReader(t, act.p);
    } else if act.Load? {
      assert forall q :: IsReader(t, q) <==> IsReader(s, q);
    } else if act.SaveRunning? {
      assert At(s, act.p, GotByte);
    }
  }

  /** Some step of the run abandons init. */
  ghost predicate Abandons(s: State, acts: seq<Action>)
    requires IsRun(s, acts)
    decreases |acts|
  {
    acts != [] && ((acts[0].Quit? && LastHolder(s, acts[0].p)) || Abandons(Do(s, acts[0]), acts[1..]))
  }

  /** In every run in which init is not killed from outside, it dies only if it was abandoned. */
  lemma {:induction false} DeathMeansAbandoned(s: State, acts: seq<Action>)
    requires Inv(s) && IsRun(s, acts) && Die !in acts && !s.init.Dead? && !Abandoned(s)
    ensures After(s, acts).init.Dead? ==> Abandons(s, acts)
    decreases |acts|
  {
    if acts != [] {
      var t := Do(s, acts[0]);
      StepKeepsInv(s, acts[0]);
      OnlyQuittingAbandons(s, acts[0]);
      if !Abandoned(t) {
        assert acts[0] in acts && !t.init.Dead?;
        DeathMeansAbandoned(t, acts[1..]);
      }
    }
  }

  lemma {:induction false} QuitBehindAbandons(s: State, acts: seq<Action>)
    requires IsRun(s, acts) && Abandons(s, acts)
    ensures exists i :: 0 <= i < |acts| && acts[i].Quit?
    decreases |acts|
  {
    if !acts[0].Quit? {
      QuitBehindAbandons(Do(s, acts[0]), acts[1..]);
      var i :| 0 <= i < |acts[1..]| && acts[1..][i].Quit?;
      assert acts[i + 1].Quit?;
    }
  }

  /** If nobody kills init and no start gives up, init never dies. */
  lemma NobodyQuitsNobodyDies(acts: seq<Action>)
    requires IsRun(FRESH, acts) && Die !in acts && forall i :: 0 <= i < |acts| ==> !acts[i].Quit?
    ensures !After(FRESH, acts).init.Dead?
  {
    DeathMeansAbandoned(FRESH, acts);
    if After(FRESH, acts).init.Dead? {
      QuitBehindAbandons(FRESH, acts);
      assert false;
    }
  }

  // ---------------------------------------------------------------- no refusals once init is blocked

  predicate Undisturbed(acts: seq<Action>) {
    forall i :: 0 <= i < |acts| ==> !acts[i].Die? && !acts[i].Quit?
  }

  /** Init has reached its open, and the byte is on its way to a start or has reached one. */
  ghost predicate OnItsWay(s: State) {
    && Inv(s) && !Abandoned(s) && s.past.lost == 0
    && (s.init.Blocked? || s.init.Writing? || s.init.Written? || s.init.Launched?)
    && (s.past.written && s.past.got == 0 ==> HasReader(s))
  }

  /** A start is told that init is gone, or closed the FIFO unstarted, and no start has the byte. */
  predicate Refuses(s: State, act: Action) { (act.ReadEof? || act.SeeDead?) && s.past.got == 0 }

  lemma StaysOnItsWay(s: State, act: Action)
    requires OnItsWay(s) && Enabled(s, act) && !act.Die? && !act.Quit?
    ensures OnItsWay(Do(s, act)) && !Refuses(s, act)
  {
    var t := Do(s, act);
    StepKeepsInv(s, act);
    OnlyQuittingAbandons(s, act);
    assert HistoryOk(s) && HistoryOk(t);
    if act.OpenRead? || act.ReadEagain? || act.SeeAlive? {
      assert IsReader(t, act.p);
    } else if act.SaveRunning? {
      assert At(s, act.p, GotByte);
    } else if act.Load? {
      assert forall q :: IsReader(t, q) <==> IsReader(s, q);
    }
  }

  ghost predicate RefusedOnTheWay(s: State, acts: seq<Action>)
    requires IsRun(s, acts)
    decreases |acts|
  {
    acts != [] && (Refuses(s, acts[0]) || RefusedOnTheWay(Do(s, acts[0]), acts[1..]))
  }

  lemma {:induction false} RunStaysOnItsWay(s: State, acts: seq<Action>)
    requires OnItsWay(s) && IsRun(s, acts) && Undisturbed(acts)
    ensures OnItsWay(After(s, acts)) && !RefusedOnTheWay(s, acts)
    decreases |acts|
  {
    if acts != [] {
      StaysOnItsWay(s, acts[0]);
      RunStaysOnItsWay(Do(s, acts[0]), acts[1..]);
    }
  }

  /** In every run from init's open on in which nobody quits or kills, init does not die, the byte is
      not lost, and no start is refused before some start has it. */
  lemma NoRefusalOnceBlocked(s: State, acts: seq<Action>)
    requires Inv(s) && s.init.Blocked? && !Abandoned(s) && IsRun(s, acts) && Undisturbed(acts)
    ensures !After(s, acts).init.Dead? && After(s, acts).past.lost == 0 && !RefusedOnTheWay(s, acts)
  {
    RunStaysOnItsWay(s, acts);
  }

  predicate NoHelp(acts: seq<Action>) {
    forall i :: 0 <= i < |acts| ==> !acts[i].Die? && !acts[i].OpenRead?
  }

  lemma {:induction false} AbandonedNeverLaunches(s: State, acts: seq<Action>)
    requires Inv(s) && IsRun(s, acts) && NoHelp(acts) && (Abandoned(s) || s.init.Dead?)
    ensures !After(s, acts).init.Launched?
    decreases |acts|
  {
    if acts != [] {
      var t := Do(s, acts[0]);
      StepKeepsInv(s, acts[0]);
      assert forall q :: IsReader(t, q) ==> IsReader(s, q) by {
        assert !acts[0].OpenRead?;
      }
      AbandonedNeverLaunches(t, acts[1..]);
    }
  }

  /** A released init that is left to whoever holds the FIFO can still launch if and only if somebody
      does. */
  lemma LaunchNeedsAHolder(s: State)
    requires Inv(s) && Released(s)
    ensures (exists acts :: IsRun(s, acts) && NoHelp(acts) && After(s, acts).init.Launched?) <==> HasReader(s)
  {
    if HasReader(s) {
      var w := if s.init.Writing? then s else Do(s, Wake);
      assert w.starts == s.starts && (forall q :: IsReader(w, q) <==> IsReader(s, q));
      var acts := Prepend(Do(w, WriteByte), CloseAndLaunch, []);
      acts := Prepend(w, WriteByte, acts);
      if !s.init.Writing? {
        acts := Prepend(s, Wake, acts);
      }
      assert IsRun(s, acts) && NoHelp(acts) && After(s, acts).init.Launched?;
    } else {
      forall acts | IsRun(s, acts) && NoHelp(acts) ensures !After(s, acts).init.Launched? {
        AbandonedNeverLaunches(s, acts);
      }
    }
  }

  // ---------------------------------------------------------------- runs that show the difference

  lemma {:induction false} RunSnoc(s: State, acts: seq<Action>, act: Action)
    requires IsRun(s, acts) && Enabled(After(s, acts), act)
    ensures IsRun(s, acts + [act]) && After(s, acts + [act]) == Do(After(s, acts), act)
    decreases |acts|
  {
    if acts == [] {
      assert acts + [act] == [act] && [act][1..] == [];
    } else {
      assert (acts + [act])[1..] == acts[1..] + [act];
      RunSnoc(Do(s, acts[0]), acts[1..], act);
    }
  }

  lemma Then(acts: seq<Action>, s: State, act: Action) returns (acts': seq<Action>, s': State)
    requires IsRun(FRESH, acts) && After(FRESH, acts) == s && Enabled(s, act)
    ensures acts' == acts + [act] && IsRun(FRESH, acts') && After(FRESH, acts') == s' && s' == Do(s, act)
  {
    RunSnoc(FRESH, acts, act);
    acts', s' := acts + [act], Do(s, act);
  }

  /** Created, with one start that has read the record and init not yet in its open. */
  lemma ReadyToOpen() returns (acts: seq<Action>, s: State)
    ensures IsRun(FRESH, acts) && After(FRESH, acts) == s
    ensures Die !in acts && s == State(Opening, Created, 0, map[1 := Loaded], History(true, false, false, 0, 0))
  {
    acts, s := Then([], FRESH, FinishSetup);
    acts, s := Then(acts, s, Report);
    acts, s := Then(acts, s, RecordCreated);
    acts, s := Then(acts, s, Load(1));
  }

  /** A start can overtake init on its way to the FIFO and is told that init exited, though it lives. */
  lemma EarlyStartIsRefused() returns (acts: seq<Action>, s: State)
    ensures IsRun(FRESH, acts) && After(FRESH, acts) == s
    ensures s.init.Opening? && At(s, 1, Reading) && Enabled(s, ReadEof(1))
  {
    acts, s := ReadyToOpen();
    acts, s := Then(acts, s, OpenRead(1));
  }

  /** A start that gives up after releasing init and before init writes takes init down with it. */
  lemma AbandonedStartKillsInit() returns (acts: seq<Action>, s: State)
    ensures IsRun(FRESH, acts) && After(FRESH, acts) == s
    ensures Die !in acts && s.init.Dead? && !s.past.written && s.record.Created?
  {
    acts, s := WokenByOne();
    acts, s := Then(acts, s, Quit(1));
    assert s.starts == map[] && forall p :: !IsReader(s, p);
    acts, s := Then(acts, s, WriteByte);
  }

  lemma WokenByOne() returns (acts: seq<Action>, s: State)
    ensures IsRun(FRESH, acts) && After(FRESH, acts) == s
    ensures Die !in acts && s == State(Writing, Created, 0, map[1 := Reading], History(true, true, false, 0, 0))
  {
    acts, s := ReadyToOpen();
    assert forall p :: !IsReader(s, p);
    acts, s := Then(acts, s, OpenWrite);
    acts, s := Then(acts, s, OpenRead(1));
    acts, s := Then(acts, s, Wake);
  }

  /** A start that dies between init's write and its own read leaves the command running under a
      record that says created. */
  lemma UnreportedStart() returns (acts: seq<Action>, s: State)
    ensures IsRun(FRESH, acts) && After(FRESH, acts) == s
    ensures s.init.Launched? && s.record.Created? && Lost(s)
  {
    acts, s := WokenByOne();
    assert IsReader(s, 1);
    acts, s := Then(acts, s, WriteByte);
    acts, s := Then(acts, s, Quit(1));
    assert s.starts == map[] && forall p :: !IsReader(s, p);
    acts, s := Then(acts, s, CloseAndLaunch);
  }

  // ---------------------------------------------------------------- the reading loop

  datatype ReadResult = Byte | EndOfFile | Again | ReadError

  /** One round of the loop: what the read returned and whether signal 0 reached the process. */
  datatype Poll = Poll(read: ReadResult, alive: bool)

  datatype Verdict = Started | ClosedUnstarted | Unreadable | Gone | TimedOut

  /** The loop of `husk start`: `polls` are the rounds that fit before the deadline. It goes on exactly
      while the FIFO is empty and the process, if its pid is known, lives. */
  method AwaitFifoByte(polls: seq<Poll>, pid: int) returns (verdict: Verdict, round: nat)
    ensures round <= |polls|
    ensures forall k :: 0 <= k < round ==> polls[k].read.Again? && (pid <= 0 || polls[k].alive)
    ensures verdict.TimedOut? <==> round == |polls|
    ensures verdict.Gone? ==> pid > 0 && polls[round] == Poll(Again, false)
    ensures round < |polls| ==> (verdict.Started? <==> polls[round].read.Byte?)
    ensures round < |polls| ==> (verdict.ClosedUnstarted? <==> polls[round].read.EndOfFile?)
    ensures round < |polls| ==> (verdict.Unreadable? <==> polls[round].read.ReadError?)
  {
    round := 0;
    while round < |polls|
      invariant round <= |polls|
      invariant forall k :: 0 <= k < round ==> polls[k].read.Again? && (pid <= 0 || polls[k].alive)
    {
      match polls[round].read {
        case Byte => return Started, round;
        case EndOfFile => return ClosedUnstarted, round;
        case ReadError => return Unreadable, round;
        case Again =>
          if pid > 0 && !polls[round].alive {
            return Gone, round;
          }
      }
      round := round + 1;
    }
    verdict := TimedOut;
  }

  /** What one step of a run is to the loop of start `p`. */
  function PollOf(act: Action, p: Pid): seq<Poll> {
    if act == ReadByte(p) then [Poll(Byte, true)]
    else if act == ReadEof(p) then [Poll(EndOfFile, true)]
    else if act == SeeAlive(p) then [Poll(Again, true)]
    else if act == SeeDead(p) then [Poll(Again, false)]
    else []
  }

  function PollsIn(acts: seq<Action>, p: Pid): seq<Poll> {
    if acts == [] then [] else PollOf(acts[0], p) + PollsIn(acts[1..], p)
  }

  lemma {:induction false} SeenForGood(s: State, acts: seq<Action>)
    requires IsRun(s, acts)
    ensures s.init.Dead? ==> After(s, acts).init.Dead?
    ensures s.past.got <= After(s, acts).past.got
    decreases |acts|
  {
    if acts != [] {
      SeenForGood(Do(s, acts[0]), acts[1..]);
    }
  }

  lemma {:induction false} PollsAreTrue(s: State, acts: seq<Action>, p: Pid, k: nat)
    requires IsRun(s, acts) && k < |PollsIn(acts, p)|
    ensures PollsIn(acts, p)[k].read.Again? && !PollsIn(acts, p)[k].alive ==> After(s, acts).init.Dead?
    ensures PollsIn(acts, p)[k].read.Byte? ==> After(s, acts).past.got > 0
    ensures PollsIn(acts, p)[k].read.EndOfFile? ==> ReadEof(p) in acts
    ensures !PollsIn(acts, p)[k].read.ReadError?
    decreases |acts|
  {
    var head := PollOf(acts[0], p);
    if k < |head| {
      SeenForGood(Do(s, acts[0]), acts[1..]);
    } else {
      PollsAreTrue(Do(s, acts[0]), acts[1..], p, k - |head|);
      assert ReadEof(p) in acts[1..] ==> ReadEof(p) in acts;
    }
  }

  /** In every run, what start `p` makes of its polls is so: whoever is told that init is gone, init is
      dead; whoever is told started has taken the one byte of a container that finished its setup. */
  method AwaitInRun(acts: seq<Action>, p: Pid, pid: int) returns (verdict: Verdict)
    requires IsRun(FRESH, acts)
    ensures verdict.Gone? ==> After(FRESH, acts).init.Dead?
    ensures verdict.Started? ==> After(FRESH, acts).past.got == 1 && After(FRESH, acts).past.jailed
    ensures verdict.ClosedUnstarted? ==> ReadEof(p) in acts
    ensures !verdict.Unreadable?
  {
    var polls, round := PollsIn(acts, p), 0;
    verdict, round := AwaitFifoByte(polls, pid);
    if round < |polls| {
      PollsAreTrue(FRESH, acts, p, round);
    }
    AtMostOneStart(acts);
  }
}
