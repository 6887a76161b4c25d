/** The lease table under concurrency. Any number of husk processes run `Allocate` and `Release`,
    one file-system operation at a time, and any of them may die between two operations.

    The table is a directory: a name (an address) leads to an inode, and an inode has contents.
    A process that created a file writes through its descriptor, so to the inode, whatever the
    name leads to by then; removal goes by name. */
module IpamRace {
  type Id = string
  type Addr = nat
  type Pid = nat

  /** Offsets 2 to size - 2 of the subnet are handed out. */
  datatype Pool = Pool(network: nat, size: nat)

  datatype Proc =
    | Scan(id: Id, todo: set<Addr>)            // Allocate: looking for a lease it already holds
    | Try(id: Id, offset: nat)                 // Allocate: about to create a lease file
    | Write(id: Id, addr: Addr, inode: nat)    // Allocate: created it, about to write the owner
    | Undo(id: Id, addr: Addr)                 // Allocate: the write failed, about to remove it
    | Read(id: Id, todo: set<Addr>)            // Release: looking for the lease
    | Unlink(id: Id, addr: Addr)               // Release: found it, about to remove it

  /** Names to inodes, inodes to contents, and the number of the next inode. */
  datatype Table = Table(dir: map<Addr, nat>, data: map<nat, string>, inodes: nat)

  /** `held` is what Allocate has told its callers and Release has not yet taken back. */
  datatype State = State(table: Table, procs: map<Pid, Proc>, held: map<Id, Addr>)

  /** `exclusive`: no two calls for one container overlap. `reliable`: the directory can be listed, and
      the files in it read. */
  datatype Rules = Rules(exclusive: bool, reliable: bool)

  datatype Action =
    | StartAllocate(p: Pid, id: Id) | StartUnlisted(p: Pid, id: Id)
    | ScanOne(p: Pid, a: Addr) | ScanError(p: Pid, a: Addr) | ScanEnd(p: Pid)
    | Create(p: Pid) | Exhausted(p: Pid) | WriteId(p: Pid) | WriteFails(p: Pid) | UndoWrite(p: Pid)
    | StartRelease(p: Pid, id: Id) | ReadOne(p: Pid, a: Addr) | ReadError(p: Pid, a: Addr) | ReadEnd(p: Pid)
    | UnlinkNow(p: Pid)
    | Crash(p: Pid)

  const EMPTY := State(Table(map[], map[], 0), map[], map[])

  predicate Owns(t: Table, a: Addr, id: Id) {
    a in t.dir && t.dir[a] in t.data && t.data[t.dir[a]] == id
  }

  /** open(O_CREAT|O_EXCL) of a name nobody has: an empty file on a fresh inode. */
  function Created(t: Table, a: Addr): Table {
    Table(t.dir[a := t.inodes], t.data[t.inodes := ""], t.inodes + 1)
  }

  function Written(t: Table, inode: nat, text: string): Table { t.(data := t.data[inode := text]) }

  function Removed(t: Table, a: Addr): Table { t.(dir := t.dir - {a}) }

  predicate MayStart(r: Rules, s: State, p: Pid, id: Id) {
    && p !in s.procs && id != ""
    && (r.exclusive ==> forall q :: q in s.procs ==> s.procs[q].id != id)
  }

  predicate Enabled(r: Rules, pool: Pool, s: State, act: Action) {
    match act
    case StartAllocate(p, id) => MayStart(r, s, p, id)
    case StartUnlisted(p, id) => !r.reliable && MayStart(r, s, p, id)  // leaseOf takes this for no lease
    case ScanOne(p, a) => p in s.procs && s.procs[p].Scan? && a in s.procs[p].todo
    case ScanError(p, a) => !r.reliable && p in s.procs && s.procs[p].Scan? && a in s.procs[p].todo
    case ScanEnd(p) => p in s.procs && s.procs[p].Scan? && s.procs[p].todo == {}
    case Create(p) => p in s.procs && s.procs[p].Try? && s.procs[p].offset < pool.size - 1
    case Exhausted(p) => p in s.procs && s.procs[p].Try? && s.procs[p].offset >= pool.size - 1
    case WriteId(p) => p in s.procs && s.procs[p].Write?
    case WriteFails(p) => p in s.procs && s.procs[p].Write?
    case UndoWrite(p) => p in s.procs && s.procs[p].Undo?
    case StartRelease(p, id) => MayStart(r, s, p, id)
    case ReadOne(p, a) => p in s.procs && s.procs[p].Read? && a in s.procs[p].todo
    case ReadError(p, a) => !r.reliable && p in s.procs && s.procs[p].Read? && a in s.procs[p].todo
    case ReadEnd(p) => p in s.procs && s.procs[p].Read? && s.procs[p].todo == {}
    case UnlinkNow(p) => p in s.procs && s.procs[p].Unlink?
    case Crash(p) => p in s.procs
  }

  function Goto(s: State, p: Pid, proc: Proc): State { s.(procs := s.procs[p := proc]) }

  function Done(s: State, p: Pid): State { s.(procs := s.procs - {p}) }

  function Do(r: Rules, pool: Pool, s: State, act: Action): State
    requires Enabled(r, pool, s, act)
  {
    match act
    case StartAllocate(p, id) => Goto(s, p, Scan(id, s.table.dir.Keys))
    case StartUnlisted(p, id) => Goto(s, p, Scan(id, {}))
    case ScanOne(p, a) =>
      var Scan(id, todo) := s.procs[p];
      if Owns(s.table, a, id) then Done(s, p).(held := s.held[id := a]) else Goto(s, p, Scan(id, todo - {a}))
    case ScanError(p, a) => Goto(s, p, Scan(s.procs[p].id, s.procs[p].todo - {a}))
    case ScanEnd(p) => Goto(s, p, Try(s.procs[p].id, 2))
    case Create(p) =>
      var Try(id, offset) := s.procs[p];
      var a := pool.network + offset;
      if a in s.table.dir then Goto(s, p, Try(id, offset + 1))
      else Goto(s, p, Write(id, a, s.table.inodes)).(table := Created(s.table, a))
    case Exhausted(p) => Done(s, p)
    case WriteId(p) =>
      var Write(id, a, inode) := s.procs[p];
      Done(s, p).(table := Written(s.table, inode, id), held := s.held[id := a])
    case WriteFails(p) => Goto(s, p, Undo(s.procs[p].id, s.procs[p].addr))
    case UndoWrite(p) => Done(s, p).(table := Removed(s.table, s.procs[p].addr))
    case StartRelease(p, id) => Goto(s, p, Read(id, s.table.dir.Keys))
    case ReadOne(p, a) =>
      var Read(id, todo) := s.procs[p];
      if Owns(s.table, a, id) then Goto(s, p, Unlink(id, a)) else Goto(s, p, Read(id, todo - {a}))
    case ReadError(p, a) => Goto(s, p, Read(s.procs[p].id, s.procs[p].todo - {a}))
    case ReadEnd(p) => Done(s, p)
    case UnlinkNow(p) =>
      var Unlink(id, a) := s.procs[p];
      Done(s, p).(table := Removed(s.table, a),
                  held := if id in s.held && s.held[id] == a then s.held - {id} else s.held)
    case Crash(p) => Done(s, p)
  }

  predicate IsRun(r: Rules, pool: Pool, s: State, acts: seq<Action>)
    decreases |acts|
  {
    acts == [] || (Enabled(r, pool, s, acts[0]) && IsRun(r, pool, Do(r, pool, s, acts[0]), acts[1..]))
  }

  function After(r: Rules, pool: Pool, s: State, acts: seq<Action>): State
    requires IsRun(r, pool, s, acts)
    decreases |acts|
  {
    if acts == [] then s else After(r, pool, Do(r, pool, s, acts[0]), acts[1..])
  }

  // ---------------------------------------------------------------- safety

  /** No address belongs to two containers, and no container holds two leases. */
  ghost predicate Safe(s: State) {
    && (forall c, d :: c in s.held && d in s.held && c != d ==> s.held[c] != s.held[d])
    && (forall a, b, id :: id != "" && Owns(s.table, a, id) && Owns(s.table, b, id) ==> a == b)
    && (forall c :: c in s.held ==> Owns(s.table, s.held[c], c))
  }

  ghost predicate TableOk(t: Table) {
    && (forall a :: a in t.dir ==> t.dir[a] < t.inodes)
    && (forall a, b :: a in t.dir && b in t.dir && t.dir[a] == t.dir[b] ==> a == b)
    && (forall a, b, id :: id != "" && Owns(t, a, id) && Owns(t, b, id) ==> a == b)
  }

  /** What the program counter of a call says about the table. */
  ghost predicate ProcOk(t: Table, proc: Proc) {
    && proc.id != ""
    && match proc
       case Scan(id, todo) => forall a :: Owns(t, a, id) ==> a in todo
       case Try(id, _) => forall a :: !Owns(t, a, id)
       case Write(id, a, inode) => (forall b :: !Owns(t, b, id)) && Owns(t, a, "") && t.dir[a] == inode
       case Undo(id, a) => (forall b :: !Owns(t, b, id)) && Owns(t, a, "")
       case Read(id, todo) => forall a :: Owns(t, a, id) ==> a in todo
       case Unlink(id, a) => Owns(t, a, id)
  }

  predicate Pending(proc: Proc) { proc.Write? || proc.Undo? }

  /** Two calls are for different containers, and two files being made are different files. */
  predicate Apart(x: Proc, y: Proc) {
    x.id != y.id && (Pending(x) && Pending(y) ==> x.addr != y.addr)
  }

  ghost predicate ProcsOk(t: Table, procs: map<Pid, Proc>) {
    && (forall p :: p in procs ==> ProcOk(t, procs[p]))
    && (forall p, q :: p in procs && q in procs && p != q ==> Apart(procs[p], procs[q]))
  }

  ghost predicate HeldOk(t: Table, held: map<Id, Addr>) {
    forall c :: c in held ==> c != "" && Owns(t, held[c], c)
  }

  ghost predicate Inv(s: State) {
    TableOk(s.table) && ProcsOk(s.table, s.procs) && HeldOk(s.table, s.held)
  }

  lemma InvIsSafe(s: State)
    requires Inv(s)
    ensures Safe(s)
  {}

  // Each move changes one call's program counter; four of them change the table as well.

  lemma ProcMoves(t: Table, procs: map<Pid, Proc>, p: Pid, proc: Proc)
    requires ProcsOk(t, procs) && ProcOk(t, proc)
    requires forall q :: q in procs && q != p ==> Apart(procs[q], proc) && Apart(proc, procs[q])
    ensures ProcsOk(t, procs[p := proc])
  {}

  lemma ProcEnds(t: Table, procs: map<Pid, Proc>, p: Pid)
    requires ProcsOk(t, procs)
    ensures ProcsOk(t, procs - {p})
  {}

  lemma CreatedOwns(t: Table, a: Addr)
    requires TableOk(t) && a !in t.dir
    ensures TableOk(Created(t, a))
    ensures forall b, id :: Owns(Created(t, a), b, id) <==> if b == a then id == "" else Owns(t, b, id)
  {
    var t' := Created(t, a);
    forall b, id ensures Owns(t', b, id) <==> if b == a then id == "" else Owns(t, b, id) {
      assert b in t.dir ==> t'.dir[b] == t.dir[b] != t.inodes;
    }
  }

  lemma CreatedProc(t: Table, a: Addr, proc: Proc)
    requires TableOk(t) && a !in t.dir && ProcOk(t, proc)
    ensures ProcOk(Created(t, a), proc)
  {
    CreatedOwns(t, a);
  }

  /** The kernel creates the file for one process only, so the new entry is nobody's yet. */
  lemma CreateKeeps(t: Table, procs: map<Pid, Proc>, held: map<Id, Addr>, p: Pid, a: Addr)
    requires TableOk(t) && ProcsOk(t, procs) && HeldOk(t, held) && p in procs && procs[p].Try? && a !in t.dir
    ensures
      var t' := Created(t, a);
      TableOk(t') && ProcsOk(t', procs[p := Write(procs[p].id, a, t.inodes)]) && HeldOk(t', held)
  {
    var proc := Write(procs[p].id, a, t.inodes);
    assert ProcOk(t, procs[p]);
    CreatedOwns(t, a);
    forall q | q in procs ensures ProcOk(Created(t, a), procs[q]) {
      CreatedProc(t, a, procs[q]);
    }
    forall q | q in procs && q != p ensures Apart(procs[q], proc) && Apart(proc, procs[q]) {
      assert ProcOk(t, procs[q]) && Apart(procs[q], procs[p]);
    }
    ProcMoves(Created(t, a), procs, p, proc);
  }

  lemma WrittenOwns(t: Table, a: Addr, id: Id)
    requires TableOk(t) && id != "" && (forall b :: !Owns(t, b, id)) && Owns(t, a, "")
    ensures TableOk(Written(t, t.dir[a], id))
    ensures forall b, c :: Owns(Written(t, t.dir[a], id), b, c) <==> if b == a then c == id else Owns(t, b, c)
  {
    forall b, c ensures Owns(Written(t, t.dir[a], id), b, c) <==> if b == a then c == id else Owns(t, b, c) {
      assert b in t.dir && t.dir[b] == t.dir[a] ==> b == a;
    }
  }

  lemma WrittenProc(t: Table, writer: Proc, proc: Proc)
    requires TableOk(t) && writer.Write? && ProcOk(t, writer) && ProcOk(t, proc) && Apart(proc, writer)
    ensures ProcOk(Written(t, writer.inode, writer.id), proc)
  {
    WrittenOwns(t, writer.addr, writer.id);
  }

  /** The descriptor still leads to the file of that name, because nobody else removes it. */
  lemma WriteKeeps(t: Table, procs: map<Pid, Proc>, held: map<Id, Addr>, p: Pid)
    requires TableOk(t) && ProcsOk(t, procs) && HeldOk(t, held) && p in procs && procs[p].Write?
    ensures
      var Write(id, a, inode) := procs[p];
      var t' := Written(t, inode, id);
      TableOk(t') && ProcsOk(t', procs - {p}) && HeldOk(t', held[id := a])
  {
    var Write(id, a, inode) := procs[p];
    assert ProcOk(t, procs[p]);
    WrittenOwns(t, a, id);
    assert forall c :: c in held ==> c != "" && held[c] != a;
    forall q | q in procs && q != p ensures ProcOk(Written(t, inode, id), procs[q]) {
      WrittenProc(t, procs[p], procs[q]);
    }
  }

  lemma RemovedProc(t: Table, remover: Proc, proc: Proc)
    requires (remover.Undo? || remover.Unlink?) && ProcOk(t, remover) && ProcOk(t, proc) && Apart(proc, remover)
    ensures ProcOk(Removed(t, remover.addr), proc)
  {
    assert forall b, c :: Owns(Removed(t, remover.addr), b, c) <==> b != remover.addr && Owns(t, b, c);
  }

  /** Removing a name takes it from its owner and from nobody else. */
  lemma RemoveKeeps(t: Table, procs: map<Pid, Proc>, held: map<Id, Addr>, p: Pid)
    requires TableOk(t) && ProcsOk(t, procs) && HeldOk(t, held) && p in procs && (procs[p].Undo? || procs[p].Unlink?)
    ensures
      var id, a := procs[p].id, procs[p].addr;
      var t' := Removed(t, a);
      TableOk(t') && ProcsOk(t', procs - {p})
      && HeldOk(t', if id in held && held[id] == a then held - {id} else held)
      && (procs[p].Undo? ==> id !in held)
  {
    var id, a := procs[p].id, procs[p].addr;
    assert ProcOk(t, procs[p]);
    assert forall b, c :: Owns(Removed(t, a), b, c) <==> b != a && Owns(t, b, c);
    forall q | q in procs && q != p ensures ProcOk(Removed(t, a), procs[q]) {
      RemovedProc(t, procs[p], procs[q]);
    }
  }

  predicate MovesOnly(pool: Pool, s: State, act: Action)
    requires act.p in s.procs || act.StartAllocate? || act.StartRelease?
  {
    || act.StartAllocate? || act.StartRelease? || act.ScanEnd? || act.WriteFails? || act.ReadOne?
    || (act.ScanOne? && !Owns(s.table, act.a, s.procs[act.p].id))
    || (act.Create? && s.procs[act.p].Try? && pool.network + s.procs[act.p].offset in s.table.dir)
  }

  lemma MoveKeepsInv(pool: Pool, s: State, act: Action)
    requires Inv(s) && Enabled(Rules(true, true), pool, s, act) && MovesOnly(pool, s, act)
    ensures Inv(Do(Rules(true, true), pool, s, act))
  {
    var t, procs, p := s.table, s.procs, act.p;
    assert p in procs ==> ProcOk(t, procs[p]);
    var after := Do(Rules(true, true), pool, s, act).procs[p];
    assert ProcOk(t, after);
    forall q | q in procs && q != p ensures Apart(procs[q], after) && Apart(after, procs[q]) {
      assert p in procs ==> Apart(procs[q], procs[p]);
    }
    ProcMoves(t, procs, p, after);
  }

  lemma EndKeepsInv(pool: Pool, s: State, act: Action)
    requires Inv(s) && Enabled(Rules(true, true), pool, s, act)
    requires act.ScanOne? || act.Exhausted? || act.ReadEnd? || act.Crash?
    requires !MovesOnly(pool, s, act)
    ensures Inv(Do(Rules(true, true), pool, s, act))
  {
    assert ProcOk(s.table, s.procs[act.p]);
    ProcEnds(s.table, s.procs, act.p);
  }

  lemma TableStepKeepsInv(pool: Pool, s: State, act: Action)
    requires Inv(s) && Enabled(Rules(true, true), pool, s, act)
    requires act.Create? || act.WriteId? || act.UndoWrite? || act.UnlinkNow?
    requires !MovesOnly(pool, s, act)
    ensures Inv(Do(Rules(true, true), pool, s, act))
  {
    match act {
      case Create(p) => CreateKeeps(s.table, s.procs, s.held, p, pool.network + s.procs[p].offset);
      case WriteId(p) => WriteKeeps(s.table, s.procs, s.held, p);
      case UndoWrite(p) => RemoveKeeps(s.table, s.procs, s.held, p);
      case UnlinkNow(p) => RemoveKeeps(s.table, s.procs, s.held, p);
    }
  }

  lemma StepKeepsInv(pool: Pool, s: State, act: Action)
    requires Inv(s) && Enabled(Rules(true, true), pool, s, act)
    ensures Inv(Do(Rules(true, true), pool, s, act))
  {
    if MovesOnly(pool, s, act) {
      MoveKeepsInv(pool, s, act);
    } else if act.Create? || act.WriteId? || act.UndoWrite? || act.UnlinkNow? {
      TableStepKeepsInv(pool, s, act);
    } else {
      EndKeepsInv(pool, s, act);
    }
  }

  /** Whatever the interleaving and whoever dies, if calls for one container do not overlap, and the
      directory can be listed and its files read, an address has one holder and a container one
      lease. */
  lemma {:induction false} LeasesAreExclusive(pool: Pool, s: State, acts: seq<Action>)
    requires Inv(s) && IsRun(Rules(true, true), pool, s, acts)
    ensures Safe(After(Rules(true, true), pool, s, acts))
    decreases |acts|
  {
    if acts == [] {
      InvIsSafe(s);
    } else {
      StepKeepsInv(pool, s, acts[0]);
      LeasesAreExclusive(pool, Do(Rules(true, true), pool, s, acts[0]), acts[1..]);
    }
  }

  lemma EmptyTableIsSafe(pool: Pool, acts: seq<Action>)
    requires IsRun(Rules(true, true), pool, EMPTY, acts)
    ensures Safe(After(Rules(true, true), pool, EMPTY, acts))
  {
    LeasesAreExclusive(pool, EMPTY, acts);
  }

  // ---------------------------------------------------------------- both conditions are needed

  lemma {:induction false} RunSnoc(r: Rules, pool: Pool, s: State, acts: seq<Action>, act: Action)
    requires IsRun(r, pool, s, acts) && Enabled(r, pool, After(r, pool, s, acts), act)
    ensures IsRun(r, pool, s, acts + [act])
    ensures After(r, pool, s, acts + [act]) == Do(r, pool, After(r, pool, s, acts), act)
    decreases |acts|
  {
    if acts == [] {
      assert acts + [act] == [act];
      assert [act][1..] == [];
    } else {
      assert (acts + [act])[1..] == acts[1..] + [act];
      RunSnoc(r, pool, Do(r, pool, s, acts[0]), acts[1..], act);
    }
  }

  lemma Then(r: Rules, pool: Pool, acts: seq<Action>, s: State, act: Action) returns (acts': seq<Action>, s': State)
    requires IsRun(r, pool, EMPTY, acts) && After(r, pool, EMPTY, acts) == s && Enabled(r, pool, s, act)
    ensures acts' == acts + [act] && IsRun(r, pool, EMPTY, acts') && After(r, pool, EMPTY, acts') == s'
    ensures s' == Do(r, pool, s, act)
  {
    RunSnoc(r, pool, EMPTY, acts, act);
    acts', s' := acts + [act], Do(r, pool, s, act);
  }

  function Lowest(pool: Pool): Addr { pool.network + 2 }

  /** From a table with no leases, a whole Allocate takes the lowest address. */
  lemma AllocateTheLowest(r: Rules, pool: Pool, acts: seq<Action>, s: State, p: Pid, id: Id)
      returns (acts': seq<Action>, s': State)
    requires pool.size >= 4 && IsRun(r, pool, EMPTY, acts) && After(r, pool, EMPTY, acts) == s
    requires s.table.dir == map[] && MayStart(r, s, p, id)
    ensures IsRun(r, pool, EMPTY, acts') && After(r, pool, EMPTY, acts') == s'
    ensures s'.table.dir == map[Lowest(pool) := s.table.inodes] && s'.held == s.held[id := Lowest(pool)]
        && s'.procs == s.procs
    ensures Owns(s'.table, Lowest(pool), id) && s'.table.inodes == s.table.inodes + 1
    ensures acts' == acts + [StartAllocate(p, id), ScanEnd(p), Create(p), WriteId(p)]
  {
    acts', s' := Then(r, pool, acts, s, StartAllocate(p, id));
    assert s'.procs[p] == Scan(id, {});
    acts', s' := Then(r, pool, acts', s', ScanEnd(p));
    assert s'.procs[p] == Try(id, 2);
    acts', s' := Then(r, pool, acts', s', Create(p));
    assert s'.procs[p] == Write(id, Lowest(pool), s.table.inodes);
    acts', s' := Then(r, pool, acts', s', WriteId(p));
  }

  /** A Release of the container that owns the only address, up to the removal. */
  lemma ReleaseUpToUnlink(r: Rules, pool: Pool, acts: seq<Action>, s: State, p: Pid, id: Id)
      returns (acts': seq<Action>, s': State)
    requires IsRun(r, pool, EMPTY, acts) && After(r, pool, EMPTY, acts) == s
    requires s.table.dir.Keys == {Lowest(pool)} && Owns(s.table, Lowest(pool), id) && MayStart(r, s, p, id)
    ensures IsRun(r, pool, EMPTY, acts') && After(r, pool, EMPTY, acts') == s'
    ensures s' == Goto(s, p, Unlink(id, Lowest(pool)))
  {
    acts', s' := Then(r, pool, acts, s, StartRelease(p, id));
    assert s'.procs[p] == Read(id, {Lowest(pool)});
    acts', s' := Then(r, pool, acts', s', ReadOne(p, Lowest(pool)));
  }

  /** Release reads and removes in two operations. Two overlapping releases of one container take
      the address from under the next holder, and a third container is given it as well. */
  lemma OverlappingReleasesShareAnAddress(r: Rules, pool: Pool) returns (acts: seq<Action>, s: State)
    requires !r.exclusive && pool.size >= 4
    ensures IsRun(r, pool, EMPTY, acts) && s == After(r, pool, EMPTY, acts)
    ensures "d" in s.held && "e" in s.held && s.held["d"] == s.held["e"]
    ensures !Safe(s)
  {
    acts, s := AllocateTheLowest(r, pool, [], EMPTY, 0, "c");
    acts, s := ReleaseUpToUnlink(r, pool, acts, s, 1, "c");
    acts, s := ReleaseUpToUnlink(r, pool, acts, s, 2, "c");
    acts, s := Then(r, pool, acts, s, UnlinkNow(1));
    assert s.table.dir == map[];
    acts, s := AllocateTheLowest(r, pool, acts, s, 3, "d");
    assert s.procs[2] == Unlink("c", Lowest(pool));
    acts, s := Then(r, pool, acts, s, UnlinkNow(2));
    assert s.table.dir == map[];
    assert "d" in s.held;
    acts, s := AllocateTheLowest(r, pool, acts, s, 4, "e");
    assert s.held["d"] == Lowest(pool) && s.held["e"] == Lowest(pool);
    assert "d" != "e";
  }

  /** Allocate passes over a lease file it cannot read, so a read error costs a second lease. */
  lemma UnreadableLeaseIsDuplicated(r: Rules, pool: Pool) returns (acts: seq<Action>, s: State)
    requires !r.reliable && pool.size >= 5
    ensures IsRun(r, pool, EMPTY, acts) && s == After(r, pool, EMPTY, acts)
    ensures Owns(s.table, Lowest(pool), "c") && Owns(s.table, Lowest(pool) + 1, "c")
    ensures !Safe(s)
  {
    acts, s := AllocateTheLowest(r, pool, [], EMPTY, 0, "c");
    acts, s := Then(r, pool, acts, s, StartAllocate(0, "c"));
    assert s.procs[0] == Scan("c", {Lowest(pool)});
    acts, s := Then(r, pool, acts, s, ScanError(0, Lowest(pool)));
    assert s.procs[0] == Scan("c", {});
    acts, s := AllocateTheNext(r, pool, acts, s);
  }

  lemma AllocateTheNext(r: Rules, pool: Pool, acts: seq<Action>, s: State) returns (acts': seq<Action>, s': State)
    requires pool.size >= 5 && IsRun(r, pool, EMPTY, acts) && After(r, pool, EMPTY, acts) == s
    requires s.table.dir == map[Lowest(pool) := 0] && s.table.inodes == 1 && Owns(s.table, Lowest(pool), "c")
    requires 0 in s.procs && s.procs[0] == Scan("c", {})
    ensures IsRun(r, pool, EMPTY, acts') && After(r, pool, EMPTY, acts') == s'
    ensures acts' == acts + [ScanEnd(0), Create(0), Create(0), WriteId(0)]
    ensures Owns(s'.table, Lowest(pool), "c") && Owns(s'.table, Lowest(pool) + 1, "c")
  {
    hide IsRun, After;
    acts', s' := Then(r, pool, acts, s, ScanEnd(0));
    assert s'.procs[0] == Try("c", 2) && s'.table == s.table;
    acts', s' := Then(r, pool, acts', s', Create(0));
    assert s'.procs[0] == Try("c", 3) && s'.table == s.table;
    acts', s' := Then(r, pool, acts', s', Create(0));
    assert s'.procs[0] == Write("c", Lowest(pool) + 1, 1);
    assert s'.table == Created(s.table, Lowest(pool) + 1);
    acts', s' := Then(r, pool, acts', s', WriteId(0));
  }

  /** Nor does Allocate stop when it cannot list the directory: it finds no lease there and takes one. */
  lemma UnlistedLeaseIsDuplicated(r: Rules, pool: Pool) returns (acts: seq<Action>, s: State)
    requires !r.reliable && pool.size >= 5
    ensures IsRun(r, pool, EMPTY, acts) && s == After(r, pool, EMPTY, acts)
    ensures StartUnlisted(0, "c") in acts && forall p, a :: ScanError(p, a) !in acts
    ensures Owns(s.table, Lowest(pool), "c") && Owns(s.table, Lowest(pool) + 1, "c")
    ensures !Safe(s)
  {
    acts, s := AllocateTheLowest(r, pool, [], EMPTY, 0, "c");
    acts, s := Then(r, pool, acts, s, StartUnlisted(0, "c"));
    acts, s := AllocateTheNext(r, pool, acts, s);
  }

  /** In every pool with room for two, all runs are safe if and only if calls for one container do not
      overlap, the directory can be listed and the files in it read. */
  lemma SafeIffExclusiveAndReliable(r: Rules, pool: Pool)
    requires pool.size >= 5
    ensures (forall acts :: IsRun(r, pool, EMPTY, acts) ==> Safe(After(r, pool, EMPTY, acts)))
            <==> r.exclusive && r.reliable
  {
    if !r.exclusive {
      var acts, s := OverlappingReleasesShareAnAddress(r, pool);
      assert IsRun(r, pool, EMPTY, acts) && !Safe(After(r, pool, EMPTY, acts));
    } else if !r.reliable {
      var acts, s := UnreadableLeaseIsDuplicated(r, pool);
      assert IsRun(r, pool, EMPTY, acts) && !Safe(After(r, pool, EMPTY, acts));
    } else {
      forall acts | IsRun(r, pool, EMPTY, acts) ensures Safe(After(r, pool, EMPTY, acts)) {
        LeasesAreExclusive(pool, EMPTY, acts);
      }
    }
  }

  // ---------------------------------------------------------------- what a full pool means

  /** The addresses that had a file at some moment of a run. */
  function EverTaken(r: Rules, pool: Pool, s: State, acts: seq<Action>): set<Addr>
    requires IsRun(r, pool, s, acts)
    decreases |acts|
  {
    s.table.dir.Keys + if acts == [] then {} else EverTaken(r, pool, Do(r, pool, s, acts[0]), acts[1..])
  }

  /** Every address that the call has passed over is among those seen. */
  predicate PassedOver(pool: Pool, s: State, p: Pid, seen: set<Addr>) {
    p in s.procs && s.procs[p].Try? ==>
      forall a :: pool.network + 2 <= a < pool.network + s.procs[p].offset ==> a in seen
  }

  lemma {:induction false} PassedOverAreTaken(r: Rules, pool: Pool, s: State, acts: seq<Action>, p: Pid,
      seen: set<Addr>)
    requires IsRun(r, pool, s, acts) && PassedOver(pool, s, p, seen)
    ensures PassedOver(pool, After(r, pool, s, acts), p, seen + EverTaken(r, pool, s, acts))
    decreases |acts|
  {
    if acts != [] {
      var t, seen' := Do(r, pool, s, acts[0]), seen + s.table.dir.Keys;
      assert PassedOver(pool, t, p, seen');
      PassedOverAreTaken(r, pool, t, acts[1..], p, seen');
      assert seen' + EverTaken(r, pool, t, acts[1..]) == seen + EverTaken(r, pool, s, acts);
    }
  }

  /** A call gives up for want of an address only if, between its beginning to try and its giving up,
      every address of the pool had a file at some moment; whatever the others did meanwhile. */
  lemma FullOnlyIfAllWereTaken(r: Rules, pool: Pool, s: State, acts: seq<Action>, p: Pid)
    requires IsRun(r, pool, s, acts) && !(p in s.procs && s.procs[p].Try?)
    requires Enabled(r, pool, After(r, pool, s, acts), Exhausted(p))
    ensures forall a :: pool.network + 2 <= a <= pool.network + pool.size - 2 ==> a in EverTaken(r, pool, s, acts)
  {
    PassedOverAreTaken(r, pool, s, acts, p, {});
    assert {} + EverTaken(r, pool, s, acts) == EverTaken(r, pool, s, acts);
  }

  // ---------------------------------------------------------------- what the directory says

  predicate MakesFile(s: State, p: Pid, a: Addr) { p in s.procs && Pending(s.procs[p]) && s.procs[p].addr == a }

  predicate IsHeld(s: State, id: Id, a: Addr) { id in s.held && s.held[id] == a }

  /** Every file is one that a call is about to make its own or to take back, or it names the container
      that holds the address. */
  ghost predicate Ledger(s: State) {
    forall a :: a in s.table.dir ==>
      s.table.dir[a] in s.table.data
        && (Owns(s.table, a, "") ==> exists p :: MakesFile(s, p, a))
        && (forall id :: id != "" && Owns(s.table, a, id) ==> IsHeld(s, id, a))
  }

  lemma SameTableLedger(s: State, t: State)
    requires Ledger(s) && t.table == s.table
    requires forall p, a :: MakesFile(s, p, a) ==> MakesFile(t, p, a)
    requires forall id, a :: id != "" && Owns(s.table, a, id) && IsHeld(s, id, a) ==> IsHeld(t, id, a)
    ensures Ledger(t)
  {
    forall a | a in t.table.dir && Owns(t.table, a, "") ensures exists p :: MakesFile(t, p, a) {
      var p :| MakesFile(s, p, a);
      assert MakesFile(t, p, a);
    }
  }

  lemma MovesKeepLedger(pool: Pool, s: State, act: Action)
    requires TableOk(s.table) && Ledger(s) && Enabled(Rules(true, true), pool, s, act)
    requires !act.Crash? && Do(Rules(true, true), pool, s, act).table == s.table
    requires !act.UndoWrite? && !act.UnlinkNow? && !act.WriteId?
    ensures Ledger(Do(Rules(true, true), pool, s, act))
  {
    hide Ledger;
    SameTableLedger(s, Do(Rules(true, true), pool, s, act));
  }

  lemma CreateKeepsLedger(pool: Pool, s: State, p: Pid)
    requires Inv(s) && Ledger(s) && Enabled(Rules(true, true), pool, s, Create(p))
    requires pool.network + s.procs[p].offset !in s.table.dir
    ensures Ledger(Do(Rules(true, true), pool, s, Create(p)))
  {
    var t, a := Do(Rules(true, true), pool, s, Create(p)), pool.network + s.procs[p].offset;
    CreatedOwns(s.table, a);
    assert MakesFile(t, p, a);
    forall b | b in s.table.dir && Owns(t.table, b, "") ensures exists q :: MakesFile(t, q, b) {
      var q :| MakesFile(s, q, b);
      assert MakesFile(t, q, b);
    }
  }

  lemma WriteKeepsLedger(pool: Pool, s: State, p: Pid)
    requires Inv(s) && Ledger(s) && Enabled(Rules(true, true), pool, s, WriteId(p))
    ensures Ledger(Do(Rules(true, true), pool, s, WriteId(p)))
  {
    var t := Do(Rules(true, true), pool, s, WriteId(p));
    var Write(id, a, inode) := s.procs[p];
    assert ProcOk(s.table, s.procs[p]);
    WrittenOwns(s.table, a, id);
    forall b | b in s.table.dir && Owns(t.table, b, "") ensures exists q :: MakesFile(t, q, b) {
      var q :| MakesFile(s, q, b);
      assert MakesFile(t, q, b);
    }
  }

  lemma RemovedLedger(s: State, t: State, p: Pid, a: Addr)
    requires Ledger(s) && p in s.procs && t.procs == s.procs - {p} && t.table == Removed(s.table, a)
    requires Pending(s.procs[p]) ==> s.procs[p].addr == a
    requires forall id, b :: b != a && IsHeld(s, id, b) ==> IsHeld(t, id, b)
    ensures Ledger(t)
  {
    assert forall b, c :: Owns(t.table, b, c) <==> b != a && Owns(s.table, b, c);
    forall b | b in t.table.dir && Owns(t.table, b, "") ensures exists q :: MakesFile(t, q, b) {
      var q :| MakesFile(s, q, b);
      assert MakesFile(t, q, b);
    }
  }

  lemma StepKeepsLedger(pool: Pool, s: State, act: Action)
    requires Inv(s) && Ledger(s) && Enabled(Rules(true, true), pool, s, act) && !act.Crash?
    ensures Ledger(Do(Rules(true, true), pool, s, act))
  {
    hide Inv, Ledger;
    if act.UndoWrite? || act.UnlinkNow? {
      RemovedLedger(s, Do(Rules(true, true), pool, s, act), act.p, s.procs[act.p].addr);
    } else if act.WriteId? {
      WriteKeepsLedger(pool, s, act.p);
    } else if act.Create? && pool.network + s.procs[act.p].offset !in s.table.dir {
      CreateKeepsLedger(pool, s, act.p);
    } else {
      assert TableOk(s.table) by { TableIsOk(s); }
      MovesKeepLedger(pool, s, act);
    }
  }

  lemma TableIsOk(s: State)
    requires Inv(s)
    ensures TableOk(s.table)
  {}

  lemma {:induction false} RunKeepsLedger(pool: Pool, s: State, acts: seq<Action>)
    requires Inv(s) && Ledger(s) && IsRun(Rules(true, true), pool, s, acts)
    requires forall i :: 0 <= i < |acts| ==> !acts[i].Crash?
    ensures Inv(After(Rules(true, true), pool, s, acts)) && Ledger(After(Rules(true, true), pool, s, acts))
    decreases |acts|
  {
    hide Inv, Ledger, Enabled, Do;
    if acts != [] {
      StepKeepsInv(pool, s, acts[0]);
      StepKeepsLedger(pool, s, acts[0]);
      RunKeepsLedger(pool, Do(Rules(true, true), pool, s, acts[0]), acts[1..]);
    }
  }

  /** Without crashes nothing leaks: in every run under the two rules, whenever no call is at work, an
      address has a file if and only if some container holds it, and the file names that container. */
  lemma NothingLeaks(pool: Pool, acts: seq<Action>, a: Addr)
    requires IsRun(Rules(true, true), pool, EMPTY, acts) && forall i :: 0 <= i < |acts| ==> !acts[i].Crash?
    requires After(Rules(true, true), pool, EMPTY, acts).procs == map[]
    ensures
      var s := After(Rules(true, true), pool, EMPTY, acts);
      && (a in s.table.dir <==> exists id :: IsHeld(s, id, a))
      && (forall id :: IsHeld(s, id, a) ==> Owns(s.table, a, id))
  {
    RunKeepsLedger(pool, EMPTY, acts);
    var s := After(Rules(true, true), pool, EMPTY, acts);
    if a in s.table.dir {
      assert Owns(s.table, a, s.table.data[s.table.dir[a]]);
      assert forall p :: !MakesFile(s, p, a);
    }
  }
}
