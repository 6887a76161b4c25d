/** Every run of the rendezvous is one of the lifecycle: what happens on the FIFO is a way in which
    starts receive their byte, are refused or give up. */
module Refinement {
  import L = Lifecycle
  import R = Rendezvous

  /** A container made by `husk create`, whose commands may signal init. */
  function Detached(initPid: int): L.Params { L.Params(true, initPid, false) }

  function StatusOf(status: R.Status): L.Status {
    match status case Creating => L.Creating case Created => L.Created case Running => L.Running
  }

  function ProcOf(initPid: int, pc: R.StartPc): L.Proc {
    var rec := L.Rec(L.Created, initPid);
    if pc.GotByte? then L.Confirmed(rec) else L.Starting(rec)
  }

  /** The lifecycle state that a rendezvous state stands for. */
  function Abstract(initPid: int, s: R.State): L.State {
    L.State(
      if s.record.Creating? then L.Spawned else L.Up,
      L.Rec(StatusOf(s.record), if s.record.Creating? then 0 else initPid),
      true,
      if s.init.Dead? then L.Zombie else L.Alive,
      map p | p in s.starts :: ProcOf(initPid, s.starts[p]),
      [])
  }

  /** What the lifecycle sees of a step: one step of its own, or nothing. */
  function Seen(s: R.State, act: R.Action): seq<L.Action> {
    match act
    case RecordCreated => [L.SaveUp]
    case Load(p) => [L.LoadToStart(p)]
    case ReadByte(p) => [L.GetByte(p)]
    case SaveRunning(p) => [L.SaveRunning(p)]
    case ReadEof(p) => [L.Quit(p)]
    case SeeDead(p) => [L.Quit(p)]
    case Quit(p) => [L.Quit(p)]
    case Die => [L.InitDies]
    case WriteByte => if R.HasReader(s) then [] else [L.InitDies]
    case _ => []
  }

  lemma OneStep(pr: L.Params, s: L.State, act: L.Action)
    requires L.Enabled(pr, s, act)
    ensures L.IsRun(pr, s, [act]) && L.After(pr, s, [act]) == L.Do(pr, s, act)
  {
    assert [act][1..] == [];
  }

  lemma StartMoves(initPid: int, s: R.State, p: R.Pid, pc: R.StartPc)
    ensures Abstract(initPid, R.Goto(s, p, pc)) == L.Goto(Abstract(initPid, s), p, ProcOf(initPid, pc))
  {}

  lemma StartLeaves(initPid: int, s: R.State, p: R.Pid)
    ensures Abstract(initPid, R.Leave(s, p)) == L.Leave(Abstract(initPid, s), p)
  {
    assert Abstract(initPid, R.Leave(s, p)).procs == Abstract(initPid, s).procs - {p};
  }

  predicate Moves(act: R.Action) { act.Load? || act.OpenRead? || act.ReadByte? || act.ReadEagain? || act.SeeAlive? }

  predicate Ends(act: R.Action) { act.ReadEof? || act.SeeDead? || act.SaveRunning? || act.Quit? }

  ghost predicate Refines(initPid: int, s: R.State, act: R.Action)
    requires R.Enabled(s, act)
  {
    var pr, t := Detached(initPid), Abstract(initPid, s);
    L.IsRun(pr, t, Seen(s, act)) && L.After(pr, t, Seen(s, act)) == Abstract(initPid, R.Do(s, act))
  }

  lemma PollRefines(initPid: int, s: R.State, act: R.Action)
    requires R.Enabled(s, act) && (act.OpenRead? || act.ReadEagain? || act.SeeAlive?)
    ensures Refines(initPid, s, act)
  {
    var moved := R.Do(s, act);
    assert forall q :: q in s.starts ==> ProcOf(initPid, moved.starts[q]) == ProcOf(initPid, s.starts[q]);
    assert Abstract(initPid, moved).procs == Abstract(initPid, s).procs;
  }

  lemma MoveRefines(initPid: int, s: R.State, act: R.Action)
    requires R.Inv(s) && R.Enabled(s, act) && Moves(act)
    ensures Refines(initPid, s, act)
  {
    var pr, t := Detached(initPid), Abstract(initPid, s);
    if act.Load? {
      StartMoves(initPid, s, act.p, R.Loaded);
      OneStep(pr, t, L.LoadToStart(act.p));
    } else if act.ReadByte? {
      StartMoves(initPid, s, act.p, R.GotByte);
      OneStep(pr, t, L.GetByte(act.p));
    } else {
      PollRefines(initPid, s, act);
    }
  }

  lemma EndRefines(initPid: int, s: R.State, act: R.Action)
    requires R.Inv(s) && R.Enabled(s, act) && Ends(act)
    ensures Refines(initPid, s, act)
  {
    StartLeaves(initPid, s, act.p);
    OneStep(Detached(initPid), Abstract(initPid, s), Seen(s, act)[0]);
  }

  lemma InitRefines(initPid: int, s: R.State, act: R.Action)
    requires R.Inv(s) && R.Enabled(s, act) && !Moves(act) && !Ends(act)
    ensures Refines(initPid, s, act)
  {
    if Seen(s, act) != [] {
      OneStep(Detached(initPid), Abstract(initPid, s), Seen(s, act)[0]);
    }
  }

  /** Each step of the rendezvous is what the lifecycle sees of it. */
  lemma StepRefines(initPid: int, s: R.State, act: R.Action)
    requires R.Inv(s) && R.Enabled(s, act)
    ensures Refines(initPid, s, act)
  {
    hide Refines;
    if Moves(act) {
      MoveRefines(initPid, s, act);
    } else if Ends(act) {
      EndRefines(initPid, s, act);
    } else {
      InitRefines(initPid, s, act);
    }
  }

  lemma {:induction false} RunsAppend(pr: L.Params, s: L.State, a: seq<L.Action>, b: seq<L.Action>)
    requires L.IsRun(pr, s, a) && L.IsRun(pr, L.After(pr, s, a), b)
    ensures L.IsRun(pr, s, a + b) && L.After(pr, s, a + b) == L.After(pr, L.After(pr, s, a), b)
    decreases |a|
  {
    if a == [] {
      assert a + b == b;
    } else {
      assert (a + b)[1..] == a[1..] + b;
      RunsAppend(pr, L.Do(pr, s, a[0]), a[1..], b);
    }
  }

  lemma {:induction false} RunRefines(initPid: int, s: R.State, acts: seq<R.Action>) returns (seen: seq<L.Action>)
    requires R.Inv(s) && R.IsRun(s, acts)
    ensures
      var pr, t := Detached(initPid), Abstract(initPid, s);
      L.IsRun(pr, t, seen) && L.After(pr, t, seen) == Abstract(initPid, R.After(s, acts))
    decreases |acts|
  {
    if acts == [] {
      seen := [];
    } else {
      StepRefines(initPid, s, acts[0]);
      R.StepKeepsInv(s, acts[0]);
      var rest := RunRefines(initPid, R.Do(s, acts[0]), acts[1..]);
      seen := Seen(s, acts[0]) + rest;
      RunsAppend(Detached(initPid), Abstract(initPid, s), Seen(s, acts[0]), rest);
    }
  }

  /** Whatever happens on the FIFO, the lifecycle has a run from its very beginning that comes to the
      same record, the same starts and the same fate of init. */
  lemma RendezvousIsALifecycle(initPid: int, acts: seq<R.Action>) returns (seen: seq<L.Action>)
    requires R.IsRun(R.FRESH, acts)
    ensures L.IsRun(Detached(initPid), L.NOTHING, seen)
    ensures L.After(Detached(initPid), L.NOTHING, seen) == Abstract(initPid, R.After(R.FRESH, acts))
  {
    var pr := Detached(initPid);
    var recorded := L.Do(pr, L.NOTHING, L.SaveCreating);
    OneStep(pr, L.NOTHING, L.SaveCreating);
    OneStep(pr, recorded, L.Spawn);
    RunsAppend(pr, L.NOTHING, [L.SaveCreating], [L.Spawn]);
    assert Abstract(initPid, R.FRESH) == L.Do(pr, recorded, L.Spawn);
    var rest := RunRefines(initPid, R.FRESH, acts);
    RunsAppend(pr, L.NOTHING, [L.SaveCreating] + [L.Spawn], rest);
    seen := [L.SaveCreating] + [L.Spawn] + rest;
  }
}
