/** The init shim: PID 1 of a container, which reaps every process whose parent is gone and ends with
    its own child's fate. The kernel keeps at most one SIGCHLD pending, and the channel that the Go
    runtime delivers signals to has 64 slots and drops what does not fit. */
module Pid1 {
  import opened Wrappers

  type Pid = nat

  const SLOTS := 64

  datatype WaitStatus = ExitedWith(code: nat) | KilledBy(signal: nat)

  datatype Signal = Chld | Other(n: nat)

  datatype Pc = Receiving | Draining(status: Option<WaitStatus>) | Exited(code: nat)

  /** `live` and `zombies` are the children of PID 1. `fates` remembers how each child ended. `lost`:
      the last SIGCHLD was dropped from a channel that held no other, with the shim not draining.
      `relayed`: the signals passed on to the child. */
  datatype State = State(
    pc: Pc, live: set<Pid>, zombies: map<Pid, WaitStatus>, pending: bool, queue: seq<Signal>,
    fates: map<Pid, WaitStatus>, lost: bool, relayed: seq<nat>)

  datatype Action =
    | Dies(p: Pid, fate: WaitStatus) | Adopt(p: Pid) | AdoptZombie(p: Pid, fate: WaitStatus)
    | StopOrContinue | Arrives(n: nat)                       // the container
    | Deliver | Receive | Reap(p: Pid) | NoneLeft            // the runtime and the shim

  /** The shim has started its child and listens. */
  function Started(direct: Pid): State { State(Receiving, {direct}, map[], false, [], map[], false, []) }

  /** `exitWith`. */
  function ExitCode(fate: WaitStatus): nat {
    if fate.KilledBy? then 128 + fate.signal else fate.code
  }

  predicate Enabled(s: State, act: Action) {
    && !s.pc.Exited?
    && match act
       case Dies(p, _) => p in s.live
       case Adopt(p) => p !in s.live && p !in s.fates
       case AdoptZombie(p, _) => p !in s.live && p !in s.fates
       case StopOrContinue => true
       case Arrives(_) => true
       case Deliver => s.pending
       case Receive => s.pc.Receiving? && s.queue != []
       case Reap(p) => s.pc.Draining? && p in s.zombies
       case NoneLeft => s.pc.Draining? && s.zombies == map[]
  }

  function Offered(queue: seq<Signal>, sig: Signal): seq<Signal> {
    if |queue| < SLOTS then queue + [sig] else queue
  }

  function Do(direct: Pid, s: State, act: Action): State
    requires Enabled(s, act)
  {
    match act
    case Dies(p, fate) =>
      s.(live := s.live - {p}, zombies := s.zombies[p := fate], fates := s.fates[p := fate], pending := true,
        lost := false)
    case Adopt(p) => s.(live := s.live + {p})
    case AdoptZombie(p, fate) => s.(zombies := s.zombies[p := fate], fates := s.fates[p := fate], pending := true,
      lost := false)
    case StopOrContinue => s.(pending := true, lost := false)
    case Arrives(n) => s.(queue := Offered(s.queue, Other(n)))
    case Deliver =>
      s.(pending := false, queue := Offered(s.queue, Chld),
         lost := |s.queue| >= SLOTS && Chld !in s.queue && s.pc.Receiving?)
    case Receive =>
      if s.queue[0].Chld? then s.(queue := s.queue[1..], pc := Draining(None))
      else s.(queue := s.queue[1..], relayed := s.relayed + [s.queue[0].n])
    case Reap(p) =>
      s.(zombies := s.zombies - {p}, pc := if p == direct then Draining(Some(s.zombies[p])) else s.pc)
    case NoneLeft => s.(pc := if s.pc.status.Some? then Exited(ExitCode(s.pc.status.value)) else Receiving)
  }

  predicate IsRun(direct: Pid, s: State, acts: seq<Action>)
    decreases |acts|
  {
    acts == [] || (Enabled(s, acts[0]) && IsRun(direct, Do(direct, s, acts[0]), acts[1..]))
  }

  function After(direct: Pid, s: State, acts: seq<Action>): State
    requires IsRun(direct, s, acts)
    decreases |acts|
  {
    if acts == [] then s else After(direct, Do(direct, s, acts[0]), acts[1..])
  }

  // ---------------------------------------------------------------- nothing is forgotten

  /** Somebody will look: a SIGCHLD is pending or in the channel, or the shim is looking now. */
  predicate WillLook(s: State) { s.pending || Chld in s.queue || s.pc.Draining? }

  predicate NothingForgotten(s: State) { s.zombies != map[] && !s.pc.Exited? ==> (WillLook(s) <==> !s.lost) }

  /** The child's own status, or 128 plus the signal that killed it. */
  predicate Tells(code: nat, fate: WaitStatus) {
    match fate
    case ExitedWith(status) => code == status
    case KilledBy(signal) => code == 128 + signal
  }

  /** The shim ends only with its own child's fate. */
  predicate EndsAsItsChild(direct: Pid, s: State) {
    s.pc.Exited? ==>
      direct in s.fates && direct !in s.live && direct !in s.zombies && Tells(s.pc.code, s.fates[direct])
  }

  ghost predicate Inv(direct: Pid, s: State) {
    && (s.zombies == map[] || s.pc.Exited? || s.lost || WillLook(s)) && EndsAsItsChild(direct, s)
    && (s.lost ==> !WillLook(s))
    && (forall p :: p in s.zombies ==> p !in s.live && p in s.fates && s.fates[p] == s.zombies[p])
    && (forall p :: p in s.live ==> p !in s.fates)
    && |s.queue| <= SLOTS
    && (s.pc.Draining? && s.pc.status.Some? ==>
          direct in s.fates && direct !in s.live && direct !in s.zombies && s.pc.status.value == s.fates[direct])
    && (direct in s.live || direct in s.zombies || s.pc.Exited? || (s.pc.Draining? && s.pc.status.Some?))
  }

  lemma StepKeepsInv(direct: Pid, s: State, act: Action)
    requires Inv(direct, s) && Enabled(s, act)
    ensures Inv(direct, Do(direct, s, act))
  {
    var t := Do(direct, s, act);
    assert forall sig :: sig in s.queue ==> sig in Offered(s.queue, Chld);
    assert act.Arrives? ==> forall sig :: sig in s.queue ==> sig in t.queue;
    assert act.Receive? ==> forall sig :: sig in s.queue ==> sig == s.queue[0] || sig in t.queue;
  }

  /** Whatever the container does: while a zombie is there, a SIGCHLD is pending or queued or the shim
      is draining, except exactly when the last SIGCHLD was dropped from a channel that held no other
      with the shim not draining. And the shim exits
      only once its own child has died, with that child's status or 128 plus its signal. */
  lemma {:induction false} NoZombieIsForgotten(direct: Pid, s: State, acts: seq<Action>)
    requires Inv(direct, s) && IsRun(direct, s, acts)
    ensures Inv(direct, After(direct, s, acts))
    ensures NothingForgotten(After(direct, s, acts)) && EndsAsItsChild(direct, After(direct, s, acts))
    decreases |acts|
  {
    if acts != [] {
      StepKeepsInv(direct, s, acts[0]);
      NoZombieIsForgotten(direct, Do(direct, s, acts[0]), acts[1..]);
    }
  }

  lemma FromTheStart(direct: Pid, acts: seq<Action>)
    requires IsRun(direct, Started(direct), acts)
    ensures NothingForgotten(After(direct, Started(direct), acts))
        && EndsAsItsChild(direct, After(direct, Started(direct), acts))
  {
    NoZombieIsForgotten(direct, Started(direct), acts);
  }

  // ---------------------------------------------------------------- what is passed on

  /** The other signals that came to the container, in order. */
  function Arrived(acts: seq<Action>): seq<nat> {
    if acts == [] then []
    else if acts[0].Arrives? then [acts[0].n] + Arrived(acts[1..])
    else Arrived(acts[1..])
  }

  /** Those still in the channel. */
  function Waiting(queue: seq<Signal>): seq<nat> {
    if queue == [] then []
    else if queue[0].Other? then [queue[0].n] + Waiting(queue[1..])
    else Waiting(queue[1..])
  }

  /** No signal ever meets a channel that holds 64. */
  predicate NeverFull(direct: Pid, s: State, acts: seq<Action>)
    requires IsRun(direct, s, acts)
    decreases |acts|
  {
    acts == [] ||
    ((acts[0].Arrives? || acts[0].Deliver? ==> |s.queue| < 64) && NeverFull(direct, Do(direct, s, acts[0]), acts[1..]))
  }

  lemma {:induction false} WaitingAppends(a: seq<Signal>, b: seq<Signal>)
    ensures Waiting(a + b) == Waiting(a) + Waiting(b)
  {
    if a == [] {
      assert a + b == b;
    } else {
      assert (a + b)[1..] == a[1..] + b;
      WaitingAppends(a[1..], b);
    }
  }

  lemma StepPassesOn(direct: Pid, s: State, act: Action)
    requires Enabled(s, act) && (act.Arrives? || act.Deliver? ==> |s.queue| < 64)
    ensures
      var t := Do(direct, s, act);
      t.relayed + Waiting(t.queue) == s.relayed + Waiting(s.queue) + if act.Arrives? then [act.n] else []
    ensures !s.lost ==> !Do(direct, s, act).lost
  {
    if act.Arrives? {
      WaitingAppends(s.queue, [Other(act.n)]);
      assert [Other(act.n)][1..] == [];
    } else if act.Deliver? {
      WaitingAppends(s.queue, [Chld]);
      assert [Chld][1..] == [];
    }
  }

  /** In every run in which the channel never overflows, every other signal is passed on to the child or
      still waits to be, in the order they came, and no zombie is ever without somebody to look. */
  lemma {:induction false} SignalsArePassedOn(direct: Pid, s: State, acts: seq<Action>)
    requires Inv(direct, s) && !s.lost && IsRun(direct, s, acts) && NeverFull(direct, s, acts)
    ensures
      var t := After(direct, s, acts);
      && t.relayed + Waiting(t.queue) == s.relayed + Waiting(s.queue) + Arrived(acts)
      && (t.zombies != map[] && !t.pc.Exited? ==> WillLook(t))
    decreases |acts|
  {
    if acts != [] {
      StepPassesOn(direct, s, acts[0]);
      StepKeepsInv(direct, s, acts[0]);
      SignalsArePassedOn(direct, Do(direct, s, acts[0]), acts[1..]);
    }
  }

  predicate OfShim(act: Action) { act.Deliver? || act.Receive? || act.Reap? || act.NoneLeft? }

  predicate ByShim(acts: seq<Action>) { forall i :: 0 <= i < |acts| ==> OfShim(acts[i]) }

  predicate Answered(direct: Pid, s: State, t: State)
    requires direct in s.fates
  {
    t.pc.Exited? && Tells(t.pc.code, s.fates[direct])
  }

  /** Once its child has died, the runtime and the shim by themselves get to the exit, as long as
      somebody looks. */
  lemma DeathIsAnswered(direct: Pid, s: State) returns (acts: seq<Action>)
    requires Inv(direct, s) && direct in s.fates && (WillLook(s) || s.pc.Exited?)
    ensures IsRun(direct, s, acts) && ByShim(acts) && Answered(direct, s, After(direct, s, acts))
    decreases s.pc.Receiving?, s.pending, |s.queue|, |s.zombies|, !s.pc.Exited?
  {
    if s.pc.Exited? {
      acts := [];
    } else {
      var act := NextStep(direct, s);
      var t := Do(direct, s, act);
      StepKeepsInv(direct, s, act);
      var rest := DeathIsAnswered(direct, t);
      acts := [act] + rest;
      assert acts[1..] == rest;
    }
  }

  predicate Closer(s: State, t: State) {
    if s.pc.Receiving? then
      t.pc.Draining?
      || (t.pc.Receiving? && ((s.pending && !t.pending) || (t.pending == s.pending && |t.queue| < |s.queue|)))
    else
      t.pc.Exited? || (t.pc.Draining? && t.pending == s.pending && t.queue == s.queue && |t.zombies| < |s.zombies|)
  }

  /** What the shim does next, and that it gets closer by it. */
  lemma NextStep(direct: Pid, s: State) returns (act: Action)
    requires Inv(direct, s) && direct in s.fates && WillLook(s) && !s.pc.Exited?
    ensures OfShim(act) && Enabled(s, act) && Closer(s, Do(direct, s, act))
    ensures WillLook(Do(direct, s, act)) || Do(direct, s, act).pc.Exited?
    ensures Do(direct, s, act).fates == s.fates
  {
    if s.pc.Receiving? {
      act := if s.queue != [] then Receive else Deliver;
      assert s.queue != [] ==> forall sig :: sig in s.queue ==> sig == s.queue[0] || sig in s.queue[1..];
    } else if p :| p in s.zombies {
      act := Reap(p);
      assert s.zombies.Keys == (s.zombies - {p}).Keys + {p};
      assert |s.zombies.Keys| == |s.zombies| && |(s.zombies - {p}).Keys| == |s.zombies - {p}|;
    } else {
      assert s.zombies == map[];
      act := NoneLeft;
    }
  }

  /** A shim that does not look stays so by itself. */
  lemma {:induction false} DeafStaysDeaf(direct: Pid, s: State, acts: seq<Action>)
    requires IsRun(direct, s, acts) && ByShim(acts) && s.pc.Receiving? && !WillLook(s)
    ensures After(direct, s, acts).pc.Receiving?
    decreases |acts|
  {
    if acts != [] {
      assert OfShim(acts[0]);
      var t := Do(direct, s, acts[0]);
      assert forall sig :: sig in t.queue ==> sig in s.queue;
      DeafStaysDeaf(direct, t, acts[1..]);
    }
  }

  /** The child's death is answered, without further events, if and only if somebody will look. */
  lemma AnsweredIffLooking(direct: Pid, s: State)
    requires Inv(direct, s) && direct in s.fates
    ensures (exists acts :: IsRun(direct, s, acts) && ByShim(acts) && Answered(direct, s, After(direct, s, acts)))
            <==> WillLook(s) || s.pc.Exited?
  {
    if WillLook(s) || s.pc.Exited? {
      var acts := DeathIsAnswered(direct, s);
      assert IsRun(direct, s, acts) && ByShim(acts) && Answered(direct, s, After(direct, s, acts));
    } else {
      forall acts | IsRun(direct, s, acts) && ByShim(acts) ensures !Answered(direct, s, After(direct, s, acts)) {
        DeafStaysDeaf(direct, s, acts);
      }
    }
  }

  // ---------------------------------------------------------------- when it is forgotten

  function Flood(n: nat): seq<Signal> { seq(n, i => Other(15)) }

  lemma {:induction false} RunSnoc(direct: Pid, s: State, acts: seq<Action>, act: Action)
    requires IsRun(direct, s, acts) && Enabled(After(direct, s, acts), act)
    ensures IsRun(direct, s, acts + [act]) && After(direct, s, acts + [act]) == Do(direct, After(direct, s, acts), act)
    decreases |acts|
  {
    if acts == [] {
      assert acts + [act] == [act] && [act][1..] == [];
    } else {
      assert (acts + [act])[1..] == acts[1..] + [act];
      RunSnoc(direct, Do(direct, s, acts[0]), acts[1..], act);
    }
  }

  lemma {:induction false} Flooded(n: nat) returns (acts: seq<Action>)
    requires n <= SLOTS
    ensures |acts| == n && (forall i :: 0 <= i < n ==> acts[i] == Arrives(15))
    ensures IsRun(2, Started(2), acts) && After(2, Started(2), acts) == Started(2).(queue := Flood(n))
  {
    acts := [];
    if n > 0 {
      acts := Flooded(n - 1);
      RunSnoc(2, Started(2), acts, Arrives(15));
      acts := acts + [Arrives(15)];
      assert Flood(n - 1) + [Other(15)] == Flood(n);
    } else {
      assert Flood(0) == [];
    }
  }

  lemma {:induction false} Drained(acts: seq<Action>, n: nat) returns (acts': seq<Action>)
    requires IsRun(2, Started(2), acts)
    requires After(2, Started(2), acts)
        == State(Receiving, {}, map[2 := KilledBy(9)], false, Flood(n), map[2 := KilledBy(9)], true,
                 After(2, Started(2), acts).relayed)
    ensures IsRun(2, Started(2), acts') && |acts'| == |acts| + n && acts <= acts'
    ensures After(2, Started(2), acts')
        == State(Receiving, {}, map[2 := KilledBy(9)], false, [], map[2 := KilledBy(9)], true,
                 After(2, Started(2), acts').relayed)
    decreases n
  {
    if n == 0 {
      assert Flood(0) == [];
      acts' := acts;
    } else {
      RunSnoc(2, Started(2), acts, Receive);
      assert Flood(n)[1..] == Flood(n - 1);
      acts' := Drained(acts + [Receive], n - 1);
    }
  }

  /** 64 forwarded signals in the channel and the child's own death on top: the SIGCHLD is dropped,
      and the shim sits beside the zombie of its child with nothing to wake it. */
  lemma OverflowForgetsTheChild() returns (acts: seq<Action>, s: State)
    ensures IsRun(2, Started(2), acts) && After(2, Started(2), acts) == s
    ensures 2 in s.zombies && !WillLook(s) && s.queue == [] && s.pc.Receiving? && s.live == {}
    ensures |acts| == 64 + 2 + 64 && forall i :: 0 <= i < 64 ==> acts[i] == Arrives(15)
  {
    acts := Flooded(SLOTS);
    RunSnoc(2, Started(2), acts, Dies(2, KilledBy(9)));
    acts := acts + [Dies(2, KilledBy(9))];
    RunSnoc(2, Started(2), acts, Deliver);
    acts := acts + [Deliver];
    acts := Drained(acts, SLOTS);
    s := After(2, Started(2), acts);
  }

  // ---------------------------------------------------------------- the draining loop

  /** The children that can be waited for. */
  class Children {
    var zombies: map<Pid, WaitStatus>

    constructor (zombies: map<Pid, WaitStatus>)
      ensures this.zombies == zombies
    {
      this.zombies := zombies;
    }

    /** wait4(-1, WNOHANG): any one that has exited, or nothing. A signal may interrupt it. */
    method Wait(interrupted: bool) returns (pid: Option<Pid>, fate: WaitStatus)
      modifies this
      ensures pid.None? ==> zombies == old(zombies)
      ensures pid.None? <==> interrupted || old(zombies) == map[]
      ensures pid.Some? ==>
                pid.value in old(zombies) && fate == old(zombies)[pid.value] && zombies == old(zombies) - {pid.value}
    {
      fate := ExitedWith(0);
      pid := None;
      if !interrupted && zombies != map[] {
        var p :| p in zombies;
        pid, fate := Some(p), zombies[p];
        zombies := zombies - {p};
      }
    }

    /** One SIGCHLD can stand for any number of exits, so the loop goes on until nobody is left.
        `interrupts` is how often the call is interrupted. */
    method Drain(direct: Pid, interrupts: nat) returns (status: Option<WaitStatus>)
      modifies this
      ensures zombies == map[]
      ensures status == if direct in old(zombies) then Some(old(zombies)[direct]) else None
    {
      status := None;
      var left := interrupts;
      while true
        invariant forall p :: p in zombies ==> p in old(zombies) && zombies[p] == old(zombies)[p]
        invariant direct in old(zombies) ==> direct in zombies || status == Some(old(zombies)[direct])
        invariant status.Some? ==> direct in old(zombies) && status.value == old(zombies)[direct]
        decreases left, |zombies|
      {
        ghost var before := zombies;
        var pid, fate := Wait(left > 0);
        if left > 0 {
          left := left - 1;
          continue;
        }
        if pid.None? {
          return;
        }
        assert before.Keys == zombies.Keys + {pid.value};
        assert |before.Keys| == |before| && |zombies.Keys| == |zombies|;
        if pid.value == direct {
          status := Some(fate);
        }
      }
    }
  }
}
