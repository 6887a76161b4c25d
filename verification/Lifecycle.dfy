/** The recorded status of one container, between its creator, any number of later commands and the
    death of its init. Saving and loading a record are single steps here, which module StateFile
    justifies; a start may receive its byte whenever it likes, which allows more than module
    Rendezvous does. One incarnation of the id, and pids are not reused. */
module Lifecycle {
  type Pid = nat

  datatype Status = Creating | Created | Running | Stopped

  datatype Rec = Rec(status: Status, pid: int)

  datatype Init = NotSpawned | Alive | Zombie | Reaped

  datatype CreatorPc = Preparing | Recorded | Spawned | Up | Down | Finished

  /** What a command does with what it saw. */
  datatype Use = Show | Kill | Delete(force: bool)

  /** `at`: how many statuses had been reported when this command loaded the record. */
  datatype Proc =
    | Observing(use: Use, rec: Rec, at: nat)
    | Starting(rec: Rec)      // a start waiting for its byte
    | Confirmed(rec: Rec)     // a start about to save the running record
    | Removing(force: bool)   // a delete about to remove the record

  /** One report of Load and Refresh: the status, when its record was loaded, and where a kill
      would be sent. */
  datatype Report = Report(status: Status, at: nat, target: int)

  datatype State = State(
    creator: CreatorPc, rec: Rec, present: bool, init: Init, procs: map<Pid, Proc>, log: seq<Report>)

  /** `detached`: create rather than run. `initPid`: the pid the clone will return. `denials`: some
      commands may run without the right to signal init. */
  datatype Params = Params(detached: bool, initPid: int, denials: bool)

  datatype Action =
    | SaveCreating | Spawn | SaveUp | SaveStopped | CreatorRemoves
    | InitDies | InitReaped
    | Load(p: Pid, use: Use) | LoadToStart(p: Pid) | Refresh(p: Pid, denied: bool)
    | GetByte(p: Pid) | SaveRunning(p: Pid)
    | Remove(p: Pid) | Quit(p: Pid)

  const NOTHING := State(Preparing, Rec(Creating, 0), false, NotSpawned, map[], [])

  /** Signal 0 reaches a process until it has been reaped. */
  predicate Reachable(init: Init) { init.Alive? || init.Zombie? }

  /** `Refresh`, when the recorded pid is the init's. Any error of signal 0 reads as stopped. */
  function Refreshed(rec: Rec, reachable: bool): Status {
    if !rec.status.Running? && !rec.status.Created? then rec.status
    else if rec.pid <= 0 then Stopped
    else if !reachable then Stopped
    else rec.status
  }

  function Rank(st: Status): nat {
    match st case Creating => 0 case Created => 1 case Running => 2 case Stopped => 3
  }

  predicate Enabled(pr: Params, s: State, act: Action) {
    match act
    case SaveCreating => s.creator.Preparing?
    case Spawn => s.creator.Recorded?
    case SaveUp => s.creator.Spawned?
    case SaveStopped => s.creator.Up? && !pr.detached && s.init.Reaped?  // after Wait
    case CreatorRemoves => s.creator.Recorded? || s.creator.Spawned? || s.creator.Down?
    case InitDies => s.init.Alive?
    case InitReaped => s.init.Zombie?
    case Load(p, _) => p !in s.procs && s.present
    case LoadToStart(p) => p !in s.procs && s.present && s.rec.status.Created?
    case Refresh(p, denied) => p in s.procs && s.procs[p].Observing? && (denied ==> pr.denials && Reachable(s.init))
    case GetByte(p) => p in s.procs && s.procs[p].Starting?
    case SaveRunning(p) => p in s.procs && s.procs[p].Confirmed?
    case Remove(p) => p in s.procs && s.procs[p].Removing?
    case Quit(p) => p in s.procs
  }

  function Goto(s: State, p: Pid, proc: Proc): State { s.(procs := s.procs[p := proc]) }

  function Leave(s: State, p: Pid): State { s.(procs := s.procs - {p}) }

  function Do(pr: Params, s: State, act: Action): State
    requires Enabled(pr, s, act)
  {
    match act
    case SaveCreating => s.(creator := Recorded, rec := Rec(Creating, 0), present := true)
    case Spawn => s.(creator := Spawned, init := Alive)
    case SaveUp =>
      s.(creator := Up, rec := if s.present then Rec(if pr.detached then Created else Running, pr.initPid) else s.rec)
    case SaveStopped => s.(creator := Down, rec := if s.present then s.rec.(status := Stopped) else s.rec)
    case CreatorRemoves => s.(creator := Finished, present := false)
    case InitDies => s.(init := Zombie)
    case InitReaped => s.(init := Reaped)
    case Load(p, use) => Goto(s, p, Observing(use, s.rec, |s.log|))
    case LoadToStart(p) => Goto(s, p, Starting(s.rec))
    case Refresh(p, denied) =>
      var Observing(use, rec, at) := s.procs[p];
      var status := Refreshed(rec, Reachable(s.init) && !denied);
      var t := s.(log := s.log + [Report(status, at, rec.pid)]);
      if use.Delete? && (use.force || status.Stopped?) then Goto(t, p, Removing(use.force)) else Leave(t, p)
    case GetByte(p) => Goto(s, p, Confirmed(s.procs[p].rec))
    case SaveRunning(p) =>
      Leave(s, p).(rec := if s.present then s.procs[p].rec.(status := Running) else s.rec)  // else no directory
    case Remove(p) => Leave(s, p).(present := false)
    case Quit(p) => Leave(s, p)
  }

  predicate IsRun(pr: Params, s: State, acts: seq<Action>)
    decreases |acts|
  {
    acts == [] || (Enabled(pr, s, acts[0]) && IsRun(pr, Do(pr, s, acts[0]), acts[1..]))
  }

  function After(pr: Params, s: State, acts: seq<Action>): State
    requires IsRun(pr, s, acts)
    decreases |acts|
  {
    if acts == [] then s else After(pr, Do(pr, s, acts[0]), acts[1..])
  }

  lemma {:induction false} RunSnoc(pr: Params, s: State, acts: seq<Action>, act: Action)
    requires IsRun(pr, s, acts) && Enabled(pr, After(pr, s, acts), act)
    ensures IsRun(pr, s, acts + [act]) && After(pr, s, acts + [act]) == Do(pr, After(pr, s, acts), act)
    decreases |acts|
  {
    if acts == [] {
      assert acts + [act] == [act] && [act][1..] == [];
    } else {
      assert (acts + [act])[1..] == acts[1..] + [act];
      RunSnoc(pr, Do(pr, s, acts[0]), acts[1..], act);
    }
  }

  lemma {:induction false} RunSnocOnly(pr: Params, s: State, acts: seq<Action>, act: Action)
    requires IsRun(pr, s, acts)
    ensures IsRun(pr, s, acts + [act]) <==> Enabled(pr, After(pr, s, acts), act)
    decreases |acts|
  {
    if acts == [] {
      assert acts + [act] == [act] && [act][1..] == [];
    } else {
      assert (acts + [act])[1..] == acts[1..] + [act];
      RunSnocOnly(pr, Do(pr, s, acts[0]), acts[1..], act);
    }
  }

  // ---------------------------------------------------------------- the status moves forward

  /** Report j loaded its record after report i was made. */
  predicate Follows(log: seq<Report>, i: int, j: int) {
    0 <= i < j < |log| && i < log[j].at
  }

  ghost predicate Forward(log: seq<Report>) {
    forall i, j :: Follows(log, i, j) ==> Rank(log[i].status) <= Rank(log[j].status)
  }

  /** What a command would see that loaded and refreshed right now. */
  function Now(s: State): Status { Refreshed(s.rec, Reachable(s.init)) }

  predicate Below(log: seq<Report>, at: nat, status: Status) {
    at <= |log| && forall i | 0 <= i < at :: Rank(log[i].status) <= Rank(status)
  }

  /** A record as some command may hold it: not ahead of the one on disk, with the init's pid. */
  predicate RecOk(pr: Params, s: State, rec: Rec) {
    && Rank(rec.status) <= Rank(s.rec.status)
    && rec.pid == (if rec.status.Creating? then 0 else pr.initPid)
    && (rec.status.Created? ==> pr.detached)
    && (rec.status.Stopped? ==> s.init.Reaped?)
    && (!rec.status.Creating? ==> !s.init.NotSpawned?)
  }

  predicate ProcOk(pr: Params, s: State, proc: Proc) {
    match proc
    case Observing(use, rec, at) => RecOk(pr, s, rec) && at <= |s.log|
      && (pr.denials || Below(s.log, at, Refreshed(rec, Reachable(s.init))))
    case Starting(rec) => RecOk(pr, s, rec) && rec.status.Created?
    case Confirmed(rec) => RecOk(pr, s, rec) && rec.status.Created?
    case Removing(force) => force || pr.denials || s.init.Reaped?
  }

  ghost predicate Inv(pr: Params, s: State) {
    && pr.initPid > 0
    && RecOk(pr, s, s.rec)
    && (pr.detached ==> !s.rec.status.Stopped?)
    && (s.creator.Preparing? ==> !s.present && s.procs == map[])
    && (s.creator.Preparing? || s.creator.Recorded? || s.creator.Spawned? ==> s.rec.status.Creating?)
    && (s.creator.Preparing? || s.creator.Recorded? <==> s.init.NotSpawned? && !s.creator.Finished?)
    && (s.creator.Up? && s.present ==> !s.rec.status.Creating?)
    && (forall p :: p in s.procs ==> ProcOk(pr, s, s.procs[p]))
    && (pr.denials || (Below(s.log, |s.log|, Now(s)) && Forward(s.log)))
    && (forall i :: 0 <= i < |s.log| ==> s.log[i].target == (if s.log[i].status.Creating? then 0 else pr.initPid))
  }

  /** Steps that report nothing: the current status does not fall. */
  lemma QuietStep(pr: Params, s: State, act: Action)
    requires Inv(pr, s) && Enabled(pr, s, act) && !act.Refresh?
    ensures Rank(Now(s)) <= Rank(Now(Do(pr, s, act))) && RecOk(pr, Do(pr, s, act), Do(pr, s, act).rec)
    ensures s.init == Do(pr, s, act).init || s.init.NotSpawned? || Reachable(s.init)
  {
    assert act.SaveRunning? ==> ProcOk(pr, s, s.procs[act.p]);
  }

  lemma QuietProc(pr: Params, s: State, act: Action, proc: Proc)
    requires Inv(pr, s) && Enabled(pr, s, act) && !act.Refresh? && ProcOk(pr, s, proc)
    ensures ProcOk(pr, Do(pr, s, act), proc)
  {
    QuietStep(pr, s, act);
    var t := Do(pr, s, act);
    assert t.log == s.log;
    assert act.SaveRunning? ==> ProcOk(pr, s, s.procs[act.p]);
    if proc.Observing? {
      assert Rank(Refreshed(proc.rec, Reachable(s.init))) <= Rank(Refreshed(proc.rec, Reachable(t.init)));
    }
  }

  lemma QuietKeepsInv(pr: Params, s: State, act: Action)
    requires Inv(pr, s) && Enabled(pr, s, act) && !act.Refresh?
    ensures Inv(pr, Do(pr, s, act))
  {
    QuietStep(pr, s, act);
    var t := Do(pr, s, act);
    forall p | p in t.procs ensures ProcOk(pr, t, t.procs[p]) {
      if p in s.procs && t.procs[p] == s.procs[p] {
        QuietProc(pr, s, act, s.procs[p]);
      } else {
        assert p == act.p;
        assert p in s.procs ==> ProcOk(pr, s, s.procs[p]);
      }
    }
  }

  lemma ReportAppends(pr: Params, s: State, p: Pid, denied: bool)
    requires Inv(pr, s) && Enabled(pr, s, Refresh(p, denied))
    ensures
      var t := Do(pr, s, Refresh(p, denied));
      && (pr.denials || (Below(t.log, |t.log|, Now(s)) && Forward(t.log)))
      && forall i :: 0 <= i < |t.log| ==> t.log[i].target == (if t.log[i].status.Creating? then 0 else pr.initPid)
  {
    var t := Do(pr, s, Refresh(p, denied));
    assert ProcOk(pr, s, s.procs[p]);
    if !pr.denials {
      forall i, j | Follows(t.log, i, j) ensures Rank(t.log[i].status) <= Rank(t.log[j].status) {
        assert j < |s.log| ==> Follows(s.log, i, j);
      }
    }
  }

  lemma ReportLeavesProc(pr: Params, s: State, p: Pid, denied: bool, proc: Proc)
    requires ProcOk(pr, s, proc) && Enabled(pr, s, Refresh(p, denied))
    ensures ProcOk(pr, Do(pr, s, Refresh(p, denied)), proc)
  {
    assert forall i :: 0 <= i < |s.log| ==> Do(pr, s, Refresh(p, denied)).log[i] == s.log[i];
  }

  lemma RefreshKeepsInv(pr: Params, s: State, p: Pid, denied: bool)
    requires Inv(pr, s) && Enabled(pr, s, Refresh(p, denied))
    ensures Inv(pr, Do(pr, s, Refresh(p, denied)))
  {
    var t := Do(pr, s, Refresh(p, denied));
    ReportAppends(pr, s, p, denied);
    forall q | q in t.procs ensures ProcOk(pr, t, t.procs[q]) {
      if q != p {
        ReportLeavesProc(pr, s, p, denied, s.procs[q]);
      } else {
        assert ProcOk(pr, s, s.procs[p]);
      }
    }
  }

  lemma StepKeepsInv(pr: Params, s: State, act: Action)
    requires Inv(pr, s) && Enabled(pr, s, act)
    ensures Inv(pr, Do(pr, s, act))
  {
    if act.Refresh? {
      RefreshKeepsInv(pr, s, act.p, act.denied);
    } else {
      QuietKeepsInv(pr, s, act);
    }
  }

  lemma {:induction false} RunKeepsInv(pr: Params, s: State, acts: seq<Action>)
    requires Inv(pr, s) && IsRun(pr, s, acts)
    ensures Inv(pr, After(pr, s, acts))
    decreases |acts|
  {
    if acts != [] {
      StepKeepsInv(pr, s, acts[0]);
      RunKeepsInv(pr, Do(pr, s, acts[0]), acts[1..]);
    }
  }

  /** Whatever the commands and whenever init dies, of two reports that do not overlap the later one
      is at least as far along creating, created, running, stopped. */
  lemma StatusMovesForward(pr: Params, acts: seq<Action>)
    requires pr.initPid > 0 && !pr.denials && IsRun(pr, NOTHING, acts)
    ensures Forward(After(pr, NOTHING, acts).log)
  {
    RunKeepsInv(pr, NOTHING, acts);
  }

  /** A status is reported stopped exactly when the record loaded was past creating and init is gone,
      or signal 0 was refused. Otherwise the recorded status is the one that is reported. */
  lemma StoppedIsExact(pr: Params, s: State, p: Pid, denied: bool)
    requires Inv(pr, s) && Enabled(pr, s, Refresh(p, denied))
    ensures
      var log, rec := Do(pr, s, Refresh(p, denied)).log, s.procs[p].rec;
      && (log[|log| - 1].status.Stopped? <==> (s.init.Reaped? || denied) && !rec.status.Creating?)
      && (!log[|log| - 1].status.Stopped? ==> log[|log| - 1].status == rec.status)
  {
    assert ProcOk(pr, s, s.procs[p]);
  }

  // ---------------------------------------------------------------- what the record says, and until when

  predicate Removes(acts: seq<Action>) {
    exists i :: 0 <= i < |acts| && (acts[i].Remove? || acts[i].CreatorRemoves?)
  }

  predicate Starts(acts: seq<Action>) { exists i :: 0 <= i < |acts| && acts[i].SaveRunning? }

  /** What the saves and removals of a run leave, whatever else happens in between: the record is there
      from the first save to the first removal, and says how far the container came. */
  predicate RecordTells(pr: Params, s: State, past: seq<Action>) {
    && (s.present <==> SaveCreating in past && !Removes(past))
    && (s.present && pr.detached ==>
          && (s.rec.status.Creating? <==> SaveUp !in past)
          && (s.rec.status.Created? <==> SaveUp in past && !Starts(past))
          && (s.rec.status.Running? <==> Starts(past)))
    && (s.present && !pr.detached ==>
          && (s.rec.status.Creating? <==> SaveUp !in past)
          && (s.rec.status.Running? <==> SaveUp in past && SaveStopped !in past)
          && (s.rec.status.Stopped? <==> SaveStopped in past))
    && (s.present ==> s.rec.pid == if SaveUp in past then pr.initPid else 0)
  }

  /** Where the creator is, by what it has done. */
  predicate CreatorTells(s: State, past: seq<Action>) {
    && (s.creator.Preparing? <==> SaveCreating !in past)
    && (s.creator.Preparing? ==> !Removes(past))
    && (s.creator.Recorded? || s.creator.Spawned? || s.creator.Preparing? ==> SaveUp !in past)
    && (s.creator.Up? || s.creator.Down? ==> SaveUp in past)
    && (s.creator.Up? ==> SaveStopped !in past)
    && (SaveStopped in past || Starts(past) || !s.rec.status.Creating? ==> SaveUp in past)
    && (s.creator.Finished? ==> !s.present)
  }

  lemma {:induction false} RecordOf(pr: Params, s: State, past: seq<Action>, acts: seq<Action>)
    requires Inv(pr, s) && IsRun(pr, s, acts) && RecordTells(pr, s, past) && CreatorTells(s, past)
    ensures RecordTells(pr, After(pr, s, acts), past + acts)
    decreases |acts|
  {
    if acts == [] {
      assert past + acts == past;
    } else {
      StepKeepsInv(pr, s, acts[0]);
      RecordAfter(pr, s, past, acts[0]);
      RecordOf(pr, Do(pr, s, acts[0]), past + [acts[0]], acts[1..]);
      assert past + [acts[0]] + acts[1..] == past + acts;
    }
  }

  lemma OneMore(past: seq<Action>, act: Action)
    ensures forall a :: a in past + [act] <==> a in past || a == act
    ensures Removes(past + [act]) <==> Removes(past) || act.Remove? || act.CreatorRemoves?
    ensures Starts(past + [act]) <==> Starts(past) || act.SaveRunning?
  {
    var past' := past + [act];
    assert past'[|past|] == act && forall i :: 0 <= i < |past| ==> past'[i] == past[i];
  }

  lemma RecordAfter(pr: Params, s: State, past: seq<Action>, act: Action)
    requires Inv(pr, s) && Enabled(pr, s, act) && RecordTells(pr, s, past) && CreatorTells(s, past)
    ensures RecordTells(pr, Do(pr, s, act), past + [act]) && CreatorTells(Do(pr, s, act), past + [act])
  {
    OneMore(past, act);
    hide Removes, Starts;
    assert act.SaveRunning? || act.Remove? ==> ProcOk(pr, s, s.procs[act.p]);
  }

  /** In every run the record, as long as it is there, tells exactly how far the container came. */
  lemma RecordIsExact(pr: Params, acts: seq<Action>)
    requires pr.initPid > 0 && IsRun(pr, NOTHING, acts)
    ensures RecordTells(pr, After(pr, NOTHING, acts), acts)
  {
    RecordOf(pr, NOTHING, [], acts);
    assert [] + acts == acts;
  }

  /** In every run a command that is not at work can load the record if and only if it was saved and
      nobody has removed it: what was removed stays so. */
  lemma RemovedForGood(pr: Params, acts: seq<Action>, p: Pid, use: Use)
    requires pr.initPid > 0 && IsRun(pr, NOTHING, acts) && p !in After(pr, NOTHING, acts).procs
    ensures Enabled(pr, After(pr, NOTHING, acts), Load(p, use)) <==> SaveCreating in acts && !Removes(acts)
    ensures Enabled(pr, After(pr, NOTHING, acts), LoadToStart(p)) ==> !Removes(acts)
  {
    RecordIsExact(pr, acts);
  }

  lemma NobodyLoads(pr: Params, acts: seq<Action>)
    requires pr.initPid > 0 && IsRun(pr, NOTHING, acts) && Removes(acts)
    ensures forall q, use :: !Enabled(pr, After(pr, NOTHING, acts), Load(q, use))
    ensures forall q :: !Enabled(pr, After(pr, NOTHING, acts), LoadToStart(q))
  {
    RecordIsExact(pr, acts);
  }

  /** What a delete does before it removes. */
  function LoadAndRefresh(p: Pid, force: bool): seq<Action> { [Load(p, Delete(force)), Refresh(p, false)] }

  lemma LoadsAndRefreshes(pr: Params, acts: seq<Action>, p: Pid, force: bool)
    requires pr.initPid > 0 && IsRun(pr, NOTHING, acts)
    requires Enabled(pr, After(pr, NOTHING, acts), Load(p, Delete(force)))
    ensures IsRun(pr, NOTHING, acts + LoadAndRefresh(p, force))
    ensures
      var s, t := After(pr, NOTHING, acts), After(pr, NOTHING, acts + LoadAndRefresh(p, force));
      Enabled(pr, t, Remove(p)) <==> force || (s.init.Reaped? && !s.rec.status.Creating?)
  {
    var s, todo := After(pr, NOTHING, acts), LoadAndRefresh(p, force);
    RunKeepsInv(pr, NOTHING, acts);
    RunSnoc(pr, NOTHING, acts, todo[0]);
    RunSnoc(pr, NOTHING, acts + [todo[0]], todo[1]);
    assert acts + [todo[0]] + [todo[1]] == acts + todo;
  }

  /** A delete that is alone from Load to Remove gets to its removal if and only if it is forced or init
      is gone and the record past creating, and then nobody can load the record. */
  lemma DeleteFinishes(pr: Params, acts: seq<Action>, p: Pid, force: bool)
    requires pr.initPid > 0 && IsRun(pr, NOTHING, acts)
    requires Enabled(pr, After(pr, NOTHING, acts), Load(p, Delete(force)))
    ensures
      var s, all := After(pr, NOTHING, acts), acts + LoadAndRefresh(p, force) + [Remove(p)];
      && (IsRun(pr, NOTHING, all) <==> force || (s.init.Reaped? && !s.rec.status.Creating?))
      && (IsRun(pr, NOTHING, all) ==> forall q, use :: !Enabled(pr, After(pr, NOTHING, all), Load(q, use)))
  {
    var all := acts + LoadAndRefresh(p, force) + [Remove(p)];
    LoadsAndRefreshes(pr, acts, p, force);
    hide Do, Enabled;
    RunSnocOnly(pr, NOTHING, acts + LoadAndRefresh(p, force), Remove(p));
    assert all[|acts| + 2].Remove?;
    if IsRun(pr, NOTHING, all) {
      NobodyLoads(pr, all);
    }
  }

  /** Without -force, delete removes no record while there is an init that could still be running. */
  lemma DeleteSparesTheLiving(pr: Params, acts: seq<Action>, p: Pid)
    requires pr.initPid > 0 && !pr.denials && IsRun(pr, NOTHING, acts)
        && Enabled(pr, After(pr, NOTHING, acts), Remove(p))
    requires !After(pr, NOTHING, acts).procs[p].force
    ensures After(pr, NOTHING, acts).init.Reaped?
  {
    RunKeepsInv(pr, NOTHING, acts);
    assert ProcOk(pr, After(pr, NOTHING, acts), After(pr, NOTHING, acts).procs[p]);
  }

  /** A kill goes to the container's init exactly when the status it saw was past creating. The command
      does not refuse a container that is still being created: that signal goes to pid 0, which the
      kernel takes for the caller's own process group. */
  lemma KillReachesInit(pr: Params, acts: seq<Action>, i: nat)
    requires pr.initPid > 0 && IsRun(pr, NOTHING, acts) && i < |After(pr, NOTHING, acts).log|
    ensures
      var report := After(pr, NOTHING, acts).log[i];
      (report.target == pr.initPid <==> !report.status.Creating?) && (report.target == 0 <==> report.status.Creating?)
  {
    RunKeepsInv(pr, NOTHING, acts);
  }

  // ---------------------------------------------------------------- reports that overlap

  lemma Then(pr: Params, acts: seq<Action>, s: State, act: Action) returns (acts': seq<Action>, s': State)
    requires IsRun(pr, NOTHING, acts) && After(pr, NOTHING, acts) == s && Enabled(pr, s, act)
    ensures IsRun(pr, NOTHING, acts') && After(pr, NOTHING, acts') == s' && s' == Do(pr, s, act)
  {
    RunSnoc(pr, NOTHING, acts, act);
    acts', s' := acts + [act], Do(pr, s, act);
  }

  /** A kill has loaded the record, and then the container came up and stopped. */
  lemma LoadedEarly() returns (acts: seq<Action>, s: State)
    ensures IsRun(Params(false, 7, false), NOTHING, acts) && After(Params(false, 7, false), NOTHING, acts) == s
    ensures s.procs == map[1 := Observing(Kill, Rec(Creating, 0), 0)] && s.log == []
    ensures s.present && s.rec == Rec(Running, 7) && s.init.Reaped?
  {
    var pr := Params(false, 7, false);
    acts, s := Then(pr, [], NOTHING, SaveCreating);
    acts, s := Then(pr, acts, s, Load(1, Kill));
    acts, s := Then(pr, acts, s, Spawn);
    acts, s := Then(pr, acts, s, SaveUp);
    acts, s := Then(pr, acts, s, InitDies);
    acts, s := Then(pr, acts, s, InitReaped);
  }

  /** A report that loaded its record early and came late can contradict one made in between. */
  lemma OverlappingReportsGoBack() returns (acts: seq<Action>, s: State)
    ensures IsRun(Params(false, 7, false), NOTHING, acts) && After(Params(false, 7, false), NOTHING, acts) == s
    ensures |s.log| == 2 && s.log[0].status == Stopped && s.log[1].status == Creating && s.log[1].target == 0
  {
    var pr := Params(false, 7, false);
    acts, s := LoadedEarly();
    acts, s := Then(pr, acts, s, Load(2, Show));
    acts, s := Then(pr, acts, s, Refresh(2, false));
    acts, s := Then(pr, acts, s, Refresh(1, false));
  }

  // ---------------------------------------------------------------- commands without the right to signal

  lemma ComesUp(pr: Params) returns (acts: seq<Action>, s: State)
    ensures IsRun(pr, NOTHING, acts) && After(pr, NOTHING, acts) == s
    ensures s.rec == Rec(if pr.detached then Created else Running, pr.initPid) && s.present && s.init.Alive?
    ensures s.procs == map[] && s.log == []
  {
    acts, s := Then(pr, [], NOTHING, SaveCreating);
    acts, s := Then(pr, acts, s, Spawn);
    acts, s := Then(pr, acts, s, SaveUp);
  }

  lemma DeniedReportGoesBack(pr: Params) returns (acts: seq<Action>)
    requires pr.initPid > 0 && pr.denials
    ensures IsRun(pr, NOTHING, acts) && !Forward(After(pr, NOTHING, acts).log)
  {
    var s;
    acts, s := ComesUp(pr);
    acts, s := Then(pr, acts, s, Load(1, Show));
    acts, s := Then(pr, acts, s, Refresh(1, true));
    assert s.procs == map[] && s.log == [Report(Stopped, 0, pr.initPid)];
    acts, s := Then(pr, acts, s, Load(2, Show));
    acts, s := Then(pr, acts, s, Refresh(2, false));
    assert Follows(s.log, 0, 1);
  }

  /** Reports that do not overlap never go back if and only if every command may signal init. */
  lemma ForwardUnlessDenied(pr: Params)
    requires pr.initPid > 0
    ensures (forall acts :: IsRun(pr, NOTHING, acts) ==> Forward(After(pr, NOTHING, acts).log)) <==> !pr.denials
  {
    if pr.denials {
      var acts := DeniedReportGoesBack(pr);
      assert IsRun(pr, NOTHING, acts) && !Forward(After(pr, NOTHING, acts).log);
    } else {
      forall acts | IsRun(pr, NOTHING, acts) ensures Forward(After(pr, NOTHING, acts).log) {
        StatusMovesForward(pr, acts);
      }
    }
  }

  /** A delete without -force is about to remove the record of an init that is not gone. */
  ghost predicate ForgetsTheLiving(pr: Params, acts: seq<Action>) {
    && IsRun(pr, NOTHING, acts) && !After(pr, NOTHING, acts).init.Reaped?
    && exists p :: Enabled(pr, After(pr, NOTHING, acts), Remove(p)) && !After(pr, NOTHING, acts).procs[p].force
  }

  /** That never happens if and only if every command may signal init. */
  lemma DeleteErrsOnlyIfDenied(pr: Params)
    requires pr.initPid > 0
    ensures (forall acts :: !ForgetsTheLiving(pr, acts)) <==> !pr.denials
  {
    if pr.denials {
      var acts, s := ComesUp(pr);
      acts, s := Then(pr, acts, s, Load(1, Delete(false)));
      acts, s := Then(pr, acts, s, Refresh(1, true));
      assert Enabled(pr, s, Remove(1)) && !s.procs[1].force;
      assert ForgetsTheLiving(pr, acts);
    } else {
      forall acts | IsRun(pr, NOTHING, acts) ensures !ForgetsTheLiving(pr, acts) {
        forall p | Enabled(pr, After(pr, NOTHING, acts), Remove(p)) && !After(pr, NOTHING, acts).procs[p].force
          ensures After(pr, NOTHING, acts).init.Reaped?
        {
          DeleteSparesTheLiving(pr, acts, p);
        }
      }
    }
  }
}
