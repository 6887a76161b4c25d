/** The state file of one container. `Save` writes a temporary file and renames it over the record;
    any number of processes save and load, one file-system operation at a time, and any of them may
    be cut off in between.

    The directory maps names to inodes. A reader opens the record's inode and reads that inode to
    its end, whatever is renamed meanwhile. */
module StateFile {
  type Pid = nat

  datatype Name = Record | Temp(n: nat)

  datatype Proc =
    | Writing(data: string, name: Name, inode: nat, done: nat)  // the first `done` characters are in
    | Written(data: string, name: Name, inode: nat)             // synced and closed, about to rename
    | Ending(name: Name)                                        // about to remove the temporary name
    | Reading(inode: nat)

  /** `saved` collects the records Save was called with; `loaded` what readers came back with. */
  datatype State = State(
    dir: map<Name, nat>, content: map<nat, string>, inodes: nat, procs: map<Pid, Proc>,
    saved: set<string>, loaded: set<string>)

  /** `freshNames`: CreateTemp never picks a name that was in use before. */
  datatype Rules = Rules(freshNames: bool)

  datatype Action =
    | CreateTemp(p: Pid, data: string, n: nat) | WriteSome(p: Pid, upTo: nat) | CloseTemp(p: Pid) | GiveUp(p: Pid)
    | Rename(p: Pid) | RemoveTemp(p: Pid) | Open(p: Pid) | ReadAll(p: Pid) | Crash(p: Pid)

  const EMPTY := State(map[], map[], 0, map[], {}, {})

  /** The inode number doubles as a clock: temporary names up to it may have been used. */
  predicate Enabled(r: Rules, s: State, act: Action) {
    match act
    case CreateTemp(p, _, n) => p !in s.procs && Temp(n) !in s.dir && (r.freshNames ==> n == s.inodes)
    case WriteSome(p, upTo) => p in s.procs && s.procs[p].Writing? && s.procs[p].done <= upTo <= |s.procs[p].data|
    case CloseTemp(p) => p in s.procs && s.procs[p].Writing? && s.procs[p].done == |s.procs[p].data|
    case GiveUp(p) => p in s.procs
      && (s.procs[p].Writing? || s.procs[p].Written?)  // write, sync, close or rename failed
    case Rename(p) => p in s.procs && s.procs[p].Written?
    case RemoveTemp(p) => p in s.procs && s.procs[p].Ending?
    case Open(p) => p !in s.procs && Record in s.dir
    case ReadAll(p) => p in s.procs && s.procs[p].Reading?
    case Crash(p) => p in s.procs
  }

  function Goto(s: State, p: Pid, proc: Proc): State { s.(procs := s.procs[p := proc]) }

  function ContentOf(s: State, inode: nat): string {
    if inode in s.content then s.content[inode] else ""
  }

  function Do(r: Rules, s: State, act: Action): State
    requires Enabled(r, s, act)
  {
    match act
    case CreateTemp(p, data, n) =>
      Goto(s, p, Writing(data, Temp(n), s.inodes, 0)).(
        dir := s.dir[Temp(n) := s.inodes], content := s.content[s.inodes := ""], inodes := s.inodes + 1,
        saved := s.saved + {data})
    case WriteSome(p, upTo) =>
      var Writing(data, name, inode, done) := s.procs[p];
      Goto(s, p, Writing(data, name, inode, upTo)).(content := s.content[inode := data[..upTo]])
    case CloseTemp(p) =>
      var Writing(data, name, inode, done) := s.procs[p];
      Goto(s, p, Written(data, name, inode))
    case GiveUp(p) => Goto(s, p, Ending(s.procs[p].name))
    case Rename(p) =>
      var name := s.procs[p].name;
      if name in s.dir then Goto(s, p, Ending(name)).(dir := (s.dir - {name})[Record := s.dir[name]])
      else Goto(s, p, Ending(name))
    case RemoveTemp(p) => s.(procs := s.procs - {p}, dir := s.dir - {s.procs[p].name})
    case Open(p) => Goto(s, p, Reading(s.dir[Record]))
    case ReadAll(p) => s.(procs := s.procs - {p}, loaded := s.loaded + {ContentOf(s, s.procs[p].inode)})
    case Crash(p) => s.(procs := s.procs - {p})
  }

  predicate IsRun(r: Rules, s: State, acts: seq<Action>)
    decreases |acts|
  {
    acts == [] || (Enabled(r, s, acts[0]) && IsRun(r, Do(r, s, acts[0]), acts[1..]))
  }

  function After(r: Rules, s: State, acts: seq<Action>): State
    requires IsRun(r, s, acts)
    decreases |acts|
  {
    if acts == [] then s else After(r, Do(r, s, acts[0]), acts[1..])
  }

  // ---------------------------------------------------------------- the record is always whole

  /** The record, if there is one, is an entire saved one, and so is everything a reader got. */
  ghost predicate Whole(s: State) {
    && (Record in s.dir ==> ContentOf(s, s.dir[Record]) in s.saved)
    && s.loaded <= s.saved
  }

  predicate BeingWritten(s: State, inode: nat) {
    exists p :: p in s.procs && s.procs[p].Writing? && s.procs[p].inode == inode
  }

  predicate ProcOk(s: State, proc: Proc) {
    match proc
    case Writing(data, name, inode, done) =>
      name.Temp? && name.n == inode && inode < s.inodes && data in s.saved && done <= |data|
        && ContentOf(s, inode) == data[..done]
    case Written(data, name, inode) =>
      name.Temp? && name.n == inode && inode < s.inodes && data in s.saved && ContentOf(s, inode) == data
    case Ending(name) => name.Temp? && name.n < s.inodes
    case Reading(inode) => inode < s.inodes && ContentOf(s, inode) in s.saved && !BeingWritten(s, inode)
  }

  ghost predicate Inv(s: State) {
    && (forall n: nat :: Temp(n) in s.dir ==> s.dir[Temp(n)] == n < s.inodes)
    && (Record in s.dir ==>
          s.dir[Record] < s.inodes && ContentOf(s, s.dir[Record]) in s.saved && !BeingWritten(s, s.dir[Record]))
    && (forall p :: p in s.procs ==> ProcOk(s, s.procs[p]))
    && (forall p, q :: p in s.procs && q in s.procs && p != q && s.procs[p].Writing? && s.procs[q].Writing? ==>
          s.procs[p].inode != s.procs[q].inode)
    && (forall p, q :: p in s.procs && q in s.procs && s.procs[p].Writing? && s.procs[q].Written? ==>
          s.procs[p].inode != s.procs[q].inode)
    && s.loaded <= s.saved
  }

  lemma StepKeepsInv(s: State, act: Action)
    requires Inv(s) && Enabled(Rules(true), s, act)
    ensures Inv(Do(Rules(true), s, act))
  {
    match act {
      case CreateTemp(p, data, n) => CreateKeepsInv(s, p, data, n);
      case WriteSome(p, upTo) => WriteKeepsInv(s, p, upTo);
      case Rename(p) => RenameKeepsInv(s, p);
      case CloseTemp(p) => CloseKeepsInv(s, p);
      case GiveUp(p) => GiveUpKeepsInv(s, p);
      case Open(p) => ReadKeepsInv(s, act);
      case ReadAll(p) => ReadKeepsInv(s, act);
      case RemoveTemp(p) => EndKeepsInv(s, act);
      case Crash(p) => EndKeepsInv(s, act);
    }
  }

  lemma CreateKeepsInv(s: State, p: Pid, data: string, n: nat)
    requires Inv(s) && Enabled(Rules(true), s, CreateTemp(p, data, n))
    ensures Inv(Do(Rules(true), s, CreateTemp(p, data, n)))
  {
    var t := Do(Rules(true), s, CreateTemp(p, data, n));
    assert forall i :: i != s.inodes && BeingWritten(t, i) ==> BeingWritten(s, i);
    forall q | q in t.procs ensures ProcOk(t, t.procs[q]) {
      assert q != p ==> ProcOk(s, s.procs[q]);
    }
  }

  lemma WriteKeepsInv(s: State, p: Pid, upTo: nat)
    requires Inv(s) && Enabled(Rules(true), s, WriteSome(p, upTo))
    ensures Inv(Do(Rules(true), s, WriteSome(p, upTo)))
  {
    var t := Do(Rules(true), s, WriteSome(p, upTo));
    assert ProcOk(s, s.procs[p]);
    assert forall i :: BeingWritten(t, i) ==> BeingWritten(s, i);
    assert BeingWritten(s, s.procs[p].inode);
    forall q | q in t.procs ensures ProcOk(t, t.procs[q]) {
      assert ProcOk(s, s.procs[q]);
    }
  }

  lemma RenameKeepsInv(s: State, p: Pid)
    requires Inv(s) && Enabled(Rules(true), s, Rename(p))
    ensures Inv(Do(Rules(true), s, Rename(p)))
  {
    var t := Do(Rules(true), s, Rename(p));
    assert ProcOk(s, s.procs[p]);
    assert forall i :: BeingWritten(t, i) ==> BeingWritten(s, i);
    assert !BeingWritten(s, s.procs[p].inode);
    forall q | q in t.procs ensures ProcOk(t, t.procs[q]) {
      assert ProcOk(s, s.procs[q]);
    }
  }

  lemma CloseKeepsInv(s: State, p: Pid)
    requires Inv(s) && Enabled(Rules(true), s, CloseTemp(p))
    ensures Inv(Do(Rules(true), s, CloseTemp(p)))
  {
    var t := Do(Rules(true), s, CloseTemp(p));
    assert ProcOk(s, s.procs[p]);
    assert forall i :: BeingWritten(t, i) ==> BeingWritten(s, i);
    forall q | q in t.procs ensures ProcOk(t, t.procs[q]) {
      assert ProcOk(s, s.procs[q]);
    }
  }

  lemma GiveUpKeepsInv(s: State, p: Pid)
    requires Inv(s) && Enabled(Rules(true), s, GiveUp(p))
    ensures Inv(Do(Rules(true), s, GiveUp(p)))
  {
    var t := Do(Rules(true), s, GiveUp(p));
    assert ProcOk(s, s.procs[p]);
    assert forall i :: BeingWritten(t, i) ==> BeingWritten(s, i);
    forall q | q in t.procs ensures ProcOk(t, t.procs[q]) {
      assert ProcOk(s, s.procs[q]);
    }
  }

  lemma ReadKeepsInv(s: State, act: Action)
    requires Inv(s) && Enabled(Rules(true), s, act) && (act.Open? || act.ReadAll?)
    ensures Inv(Do(Rules(true), s, act))
  {
    var t := Do(Rules(true), s, act);
    assert act.ReadAll? ==> ProcOk(s, s.procs[act.p]);
    assert forall i :: BeingWritten(t, i) ==> BeingWritten(s, i);
    forall q | q in t.procs ensures ProcOk(t, t.procs[q]) {
      assert q in s.procs ==> ProcOk(s, s.procs[q]);
    }
  }

  lemma EndKeepsInv(s: State, act: Action)
    requires Inv(s) && Enabled(Rules(true), s, act) && (act.RemoveTemp? || act.Crash?)
    ensures Inv(Do(Rules(true), s, act))
  {
    var t := Do(Rules(true), s, act);
    assert ProcOk(s, s.procs[act.p]);
    assert forall i :: BeingWritten(t, i) ==> BeingWritten(s, i);
    forall q | q in t.procs ensures ProcOk(t, t.procs[q]) {
      assert ProcOk(s, s.procs[q]);
    }
  }

  /** However saves and loads interleave and wherever they are cut off, the record is a whole saved
      one, and a load returns a whole saved one. */
  lemma {:induction false} RecordIsAlwaysWhole(s: State, acts: seq<Action>)
    requires Inv(s) && IsRun(Rules(true), s, acts)
    ensures Inv(After(Rules(true), s, acts)) && Whole(After(Rules(true), s, acts))
    decreases |acts|
  {
    if acts != [] {
      StepKeepsInv(s, acts[0]);
      RecordIsAlwaysWhole(Do(Rules(true), s, acts[0]), acts[1..]);
    }
  }

  /** Seen from outside, a Save is one atomic write: only its rename changes the record, and it
      changes it to the whole of the record being saved. */
  lemma SaveIsAtomic(s: State, act: Action)
    requires Inv(s) && Enabled(Rules(true), s, act)
    ensures
      var t := Do(Rules(true), s, act);
      if act.Rename? && s.procs[act.p].name in s.dir
      then Record in t.dir && ContentOf(t, t.dir[Record]) == s.procs[act.p].data
      else (Record in t.dir <==> Record in s.dir)
           && (Record in s.dir ==> ContentOf(t, t.dir[Record]) == ContentOf(s, s.dir[Record]))
  {
    assert act.p in s.procs ==> ProcOk(s, s.procs[act.p]);
    if act.WriteSome? {
      assert BeingWritten(s, s.procs[act.p].inode);
    }
  }

  lemma EmptyDirectory(acts: seq<Action>)
    requires IsRun(Rules(true), EMPTY, acts)
    ensures Whole(After(Rules(true), EMPTY, acts))
  {
    RecordIsAlwaysWhole(EMPTY, acts);
  }

  // ---------------------------------------------------------------- temporary names

  predicate HasTemp(s: State, p: Pid) { p in s.procs && !s.procs[p].Reading? }

  predicate Uses(s: State, p: Pid, name: Name) { HasTemp(s, p) && s.procs[p].name == name }

  /** Every temporary name in the directory is that of one save at work, which finds it there until it is
      done with it. */
  ghost predicate Tidy(s: State) {
    && (forall n: nat :: Temp(n) in s.dir ==> exists p :: Uses(s, p, Temp(n)))
    && (forall p :: HasTemp(s, p) ==> s.procs[p].name.Temp? && s.procs[p].name.n < s.inodes)
    && (forall p :: HasTemp(s, p) && !s.procs[p].Ending? ==> s.procs[p].name in s.dir)
    && (forall p, q :: HasTemp(s, p) && HasTemp(s, q) && p != q ==> s.procs[p].name != s.procs[q].name)
  }

  lemma StepKeepsTidy(s: State, act: Action)
    requires Tidy(s) && Enabled(Rules(true), s, act) && !act.Crash?
    ensures Tidy(Do(Rules(true), s, act))
  {
    var t := Do(Rules(true), s, act);
    forall n: nat | Temp(n) in t.dir ensures exists p :: Uses(t, p, Temp(n)) {
      if act.CreateTemp? && n == act.n {
        assert Uses(t, act.p, Temp(n));
      } else {
        var p :| Uses(s, p, Temp(n));
        assert Uses(t, p, Temp(n));
      }
    }
  }

  lemma {:induction false} RunKeepsTidy(s: State, acts: seq<Action>)
    requires Tidy(s) && IsRun(Rules(true), s, acts) && forall i :: 0 <= i < |acts| ==> !acts[i].Crash?
    ensures Tidy(After(Rules(true), s, acts))
    decreases |acts|
  {
    if acts != [] {
      StepKeepsTidy(s, acts[0]);
      RunKeepsTidy(Do(Rules(true), s, acts[0]), acts[1..]);
    }
  }

  /** In every run in which nobody is cut off, however many saves fail: when no save is at work no
      temporary name is left, and a save that gets to its rename always replaces the record. */
  lemma NoTempStays(acts: seq<Action>, p: Pid)
    requires IsRun(Rules(true), EMPTY, acts) && forall i :: 0 <= i < |acts| ==> !acts[i].Crash?
    ensures
      var s := After(Rules(true), EMPTY, acts);
      && ((forall q :: q in s.procs ==> s.procs[q].Reading?) ==> forall n: nat :: Temp(n) !in s.dir)
      && (Enabled(Rules(true), s, Rename(p)) ==>
            var t := Do(Rules(true), s, Rename(p));
            Record in t.dir && ContentOf(t, t.dir[Record]) == s.procs[p].data)
  {
    RunKeepsTidy(EMPTY, acts);
    RecordIsAlwaysWhole(EMPTY, acts);
    var s := After(Rules(true), EMPTY, acts);
    if Enabled(Rules(true), s, Rename(p)) {
      assert HasTemp(s, p);
      SaveIsAtomic(s, Rename(p));
    }
  }

  // ---------------------------------------------------------------- one process alone

  /** How a Save fails: before it has a temporary file, after some characters, or later. */
  datatype Fault = NoFault | NoTemp | NoWrite(written: nat) | NoSync | NoRename

  /** The directory of one container, used by one process. */
  class Directory {
    var names: map<Name, nat>
    var texts: map<nat, string>
    var inodes: nat

    constructor ()
      ensures Valid() && names == map[]
    {
      names, texts, inodes := map[], map[], 0;
    }

    /** Names lead to files, and temporary names not yet given out are free. */
    ghost predicate Valid()
      reads this
    {
      && (forall name :: name in names ==> names[name] in texts && names[name] < inodes)
      && (forall n: nat :: Temp(n) in names ==> n < inodes)
    }

    /** A temporary file with the first characters of the data. */
    method WriteTemp(data: string, written: nat) returns (temp: Name, inode: nat)
      requires Valid() && written <= |data|
      modifies this
      ensures Valid() && temp == Temp(inode) && inode == old(inodes) && inodes == old(inodes) + 1
      ensures names == old(names)[temp := inode] && texts == old(texts)[inode := data[..written]]
    {
      temp, inode := Temp(inodes), inodes;
      names, texts, inodes := names[temp := inode], texts[inode := data[..written]], inodes + 1;
    }

    /** The record is replaced as a whole or not at all, and no temporary name stays behind. */
    method Save(data: string, fault: Fault) returns (ok: bool)
      requires Valid()
      modifies this
      ensures Valid()
      ensures ok <==> fault.NoFault? || (fault.NoWrite? && fault.written >= |data|)
      ensures ok ==> names == old(names)[Record := old(inodes)] && texts == old(texts)[old(inodes) := data]
      ensures !ok ==> names == old(names)
      ensures forall name :: name in old(names) ==> texts[old(names)[name]] == old(texts)[old(names)[name]]
    {
      if fault.NoTemp? {
        return false;
      }
      var written := if fault.NoWrite? && fault.written < |data| then fault.written else |data|;
      var temp, inode := WriteTemp(data, written);
      ok := written == |data| && !fault.NoSync? && !fault.NoRename?;
      if ok {
        assert data[..written] == data;
        names := names[Record := inode];  // the rename, which takes the temporary name away
      }
      names := names - {temp};
    }

    method Load() returns (text: string, ok: bool)
      requires Valid()
      ensures ok <==> Record in names
      ensures ok ==> text == texts[names[Record]]
    {
      text, ok := "", Record in names;
      if ok {
        text := texts[names[Record]];
      }
    }

    /** What was saved last is what is loaded, whatever failed in between. */
    method SaveFailLoad(data: string, other: string, fault: Fault) returns (text: string, ok: bool)
      requires Valid() && !fault.NoFault? && (fault.NoWrite? ==> fault.written < |other|)
      modifies this
      ensures ok && text == data
    {
      var saved := Save(data, NoFault);
      saved := Save(other, fault);
      text, ok := Load();
    }
  }

  // ---------------------------------------------------------------- fresh names are needed

  lemma {:induction false} RunSnoc(r: Rules, s: State, acts: seq<Action>, act: Action)
    requires IsRun(r, s, acts) && Enabled(r, After(r, s, acts), act)
    ensures IsRun(r, s, acts + [act]) && After(r, s, acts + [act]) == Do(r, After(r, s, acts), act)
    decreases |acts|
  {
    if acts == [] {
      assert acts + [act] == [act] && [act][1..] == [];
    } else {
      assert (acts + [act])[1..] == acts[1..] + [act];
      RunSnoc(r, Do(r, s, acts[0]), acts[1..], act);
    }
  }

  lemma Then(r: Rules, acts: seq<Action>, s: State, act: Action) returns (acts': seq<Action>, s': State)
    requires IsRun(r, EMPTY, acts) && After(r, EMPTY, acts) == s && Enabled(r, s, act)
    ensures IsRun(r, EMPTY, acts') && After(r, EMPTY, acts') == s' && s' == Do(r, s, act)
  {
    RunSnoc(r, EMPTY, acts, act);
    acts', s' := acts + [act], Do(r, s, act);
  }

  /** A whole Save up to its rename, through the temporary name 0. */
  lemma SaveUpToRename(acts: seq<Action>, s: State, p: Pid, data: string) returns (acts': seq<Action>, s': State)
    requires IsRun(Rules(false), EMPTY, acts) && After(Rules(false), EMPTY, acts) == s
    requires p !in s.procs && Temp(0) !in s.dir
    ensures IsRun(Rules(false), EMPTY, acts') && After(Rules(false), EMPTY, acts') == s'
    ensures s'.procs == s.procs[p := Written(data, Temp(0), s.inodes)] && s'.dir == s.dir[Temp(0) := s.inodes]
    ensures s'.inodes == s.inodes + 1 && s'.saved == s.saved + {data}
  {
    acts', s' := Then(Rules(false), acts, s, CreateTemp(p, data, 0));
    acts', s' := Then(Rules(false), acts', s', WriteSome(p, |data|));
    acts', s' := Then(Rules(false), acts', s', CloseTemp(p));
  }

  /** A second Save through a name its first user has yet to remove loses that name. */
  lemma RemovalFreesTheName() returns (acts: seq<Action>, s: State)
    ensures IsRun(Rules(false), EMPTY, acts) && After(Rules(false), EMPTY, acts) == s
    ensures s.procs == map[2 := Written("BB", Temp(0), 1)] && s.dir == map[Record := 0]
    ensures s.inodes == 2 && s.saved == {"A", "BB"}
  {
    acts, s := FirstRecord();
    acts, s := SaveUpToRename(acts, s, 2, "BB");
    acts, s := Then(Rules(false), acts, s, RemoveTemp(1));
  }

  lemma FirstRecord() returns (acts: seq<Action>, s: State)
    ensures IsRun(Rules(false), EMPTY, acts) && After(Rules(false), EMPTY, acts) == s
    ensures s.procs == map[1 := Ending(Temp(0))] && s.dir == map[Record := 0]
    ensures s.inodes == 1 && s.saved == {"A"}
  {
    acts, s := SaveUpToRename([], EMPTY, 1, "A");
    acts, s := Then(Rules(false), acts, s, Rename(1));
  }

  /** Were a temporary name reused while the deferred removal of its first user is outstanding, that
      removal would free it under the second user, whose rename could then publish a third one's
      half-written file. */
  lemma ReusedNameTearsTheRecord() returns (acts: seq<Action>, s: State)
    ensures IsRun(Rules(false), EMPTY, acts) && After(Rules(false), EMPTY, acts) == s
    ensures !Whole(s)
  {
    acts, s := RemovalFreesTheName();
    acts, s := HalfWrittenIsPublished(acts, s);
    assert |"A"| == 1 && "A"[0] == 'A' && |"BB"| == 2 && |"CC"| == 2 && |"C"| == 1 && "C"[0] == 'C';
  }

  lemma HalfWrittenIsPublished(acts: seq<Action>, s: State) returns (acts': seq<Action>, s': State)
    requires IsRun(Rules(false), EMPTY, acts) && After(Rules(false), EMPTY, acts) == s
    requires s.procs == map[2 := Written("BB", Temp(0), 1)] && s.dir == map[Record := 0] && s.inodes == 2
    ensures IsRun(Rules(false), EMPTY, acts') && After(Rules(false), EMPTY, acts') == s'
    ensures Record in s'.dir && ContentOf(s', s'.dir[Record]) == "C" && s'.saved == s.saved + {"CC"}
  {
    acts', s' := Then(Rules(false), acts, s, CreateTemp(3, "CC", 0));
    acts', s' := Then(Rules(false), acts', s', WriteSome(3, 1));
    assert s'.dir == map[Record := 0, Temp(0) := 2] && ContentOf(s', 2) == "CC"[..1] == "C";
    acts', s' := Then(Rules(false), acts', s', Rename(2));
  }

  /** So every run keeps the record whole if and only if temporary names are fresh. */
  lemma WholeIffFreshNames(r: Rules)
    ensures (forall acts :: IsRun(r, EMPTY, acts) ==> Whole(After(r, EMPTY, acts))) <==> r.freshNames
  {
    if r.freshNames {
      forall acts | IsRun(r, EMPTY, acts) ensures Whole(After(r, EMPTY, acts)) {
        EmptyDirectory(acts);
      }
    } else {
      var acts, s := ReusedNameTearsTheRecord();
      assert IsRun(r, EMPTY, acts) && !Whole(After(r, EMPTY, acts));
    }
  }
}
