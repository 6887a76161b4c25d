/** The hand-written seccomp-BPF assembler and the machine that runs its output.

    `Run` is an interpreter for the four classic-BPF instructions the assembler emits, over the
    two words of `seccomp_data` it looks at. The theorems compare the running program with
    `Decide`, which says in one line what the policy is meant to do. */
module Seccomp {
  import opened Wrappers

  type Byte = x: int | 0 <= x < 0x100
  type Word = x: int | 0 <= x < 0x1_0000_0000

  // Opcodes, composed in the source from BPF_LD|BPF_W|BPF_ABS and so on.
  const OP_LOAD_WORD: nat := 0x20
  const OP_JUMP_EQUAL: nat := 0x15
  const OP_JUMP_GE: nat := 0x35
  const OP_RETURN: nat := 0x06

  const OFFSET_NR: Word := 0
  const OFFSET_ARCH: Word := 4

  const RET_KILL_PROCESS: Word := 0x8000_0000
  const RET_ERRNO: Word := 0x0005_0000
  const RET_ALLOW: Word := 0x7fff_0000

  const X32_BIT: Word := 0x4000_0000
  const MAX_POLICY: nat := 250

  datatype SockFilter = SockFilter(code: nat, jt: Byte, jf: Byte, k: Word)
  datatype Denied = Denied(name: string, nr: int)
  datatype Program = Program(instructions: seq<SockFilter>, denied: seq<Denied>, action: Word)
  datatype SeccompData = SeccompData(nr: Word, arch: Word)
  datatype Outcome = Returned(action: Word) | Fault

  /** Go's conversions `uint8(x)` and `uint32(x)`: two's complement truncation. */
  function ToByte(x: int): Byte { x % 0x100 }

  function ToWord(x: int): Word { x % 0x1_0000_0000 }

  // ---------------------------------------------------------------- the kernel's side

  // Its numbers are those of linux/bpf_common.h and linux/seccomp.h, written out here so that the
  // assembler's own constants are held against them.

  /** What the kernel demands of a filter before it loads it: a sane length, every jump forward
      and inside the program, and a return at the end. */
  predicate Loadable(prog: seq<SockFilter>) {
    && 0 < |prog| <= 4096
    && prog[|prog| - 1].code == 0x06
    && forall pc | 0 <= pc < |prog| && (prog[pc].code == 0x15 || prog[pc].code == 0x35) ::
         pc + 1 + prog[pc].jt < |prog| && pc + 1 + prog[pc].jf < |prog|
  }

  /** One run of the machine from `pc` with accumulator `acc`. The number is at offset 0 of
      seccomp_data and the architecture at offset 4. */
  function Run(prog: seq<SockFilter>, pc: nat, acc: Word, data: SeccompData): Outcome
    decreases |prog| - pc
  {
    if pc >= |prog| then Fault
    else
      var ins := prog[pc];
      if ins.code == 0x20 then
        if ins.k == 0 then Run(prog, pc + 1, data.nr, data)
        else if ins.k == 4 then Run(prog, pc + 1, data.arch, data)
        else Fault
      else if ins.code == 0x15 then
        Run(prog, pc + 1 + (if acc == ins.k then ins.jt else ins.jf), acc, data)
      else if ins.code == 0x35 then
        Run(prog, pc + 1 + (if acc >= ins.k then ins.jt else ins.jf), acc, data)
      else if ins.code == 0x06 then Returned(ins.k)
      else Fault
  }

  function Execute(prog: seq<SockFilter>, data: SeccompData): Outcome {
    Run(prog, 0, 0, data)
  }

  // ---------------------------------------------------------------- the policy's meaning

  predicate Listed(denied: seq<Denied>, nr: Word) {
    exists i :: 0 <= i < |denied| && ToWord(denied[i].nr) == nr
  }

  function Decide(denied: seq<Denied>, action: Word, native: Word, data: SeccompData): Word {
    if data.arch != native || data.nr >= 0x4000_0000 then 0x8000_0000
    else if Listed(denied, data.nr) then action
    else 0x7fff_0000
  }

  /** The compiled program decides every system call as the policy does. */
  ghost predicate Implements(prog: seq<SockFilter>, denied: seq<Denied>, action: Word, native: Word) {
    forall data: SeccompData :: Execute(prog, data) == Returned(Decide(denied, action, native, data))
  }

  /** The same in the kernel's numbers. Foreign architectures and everything from the x32 bit up are
      killed; of the rest, the numbers in the list get the action, and all others are allowed. */
  ghost predicate DecidesByNumber(prog: seq<SockFilter>, denied: seq<Denied>, action: Word, native: Word) {
    forall nr: Word, arch: Word ::
      var outcome := Execute(prog, SeccompData(nr, arch));
      && (arch != native || nr >= 0x4000_0000 ==> outcome == Returned(0x8000_0000))
      && (arch == native && nr < 0x4000_0000 ==>
            outcome == Returned(
              if exists i :: 0 <= i < |denied| && denied[i].nr % 0x1_0000_0000 == nr then action else 0x7fff_0000))
  }

  lemma ImplementsByNumber(prog: seq<SockFilter>, denied: seq<Denied>, action: Word, native: Word)
    requires Implements(prog, denied, action, native)
    ensures DecidesByNumber(prog, denied, action, native)
  {
    forall nr: Word, arch: Word
      ensures Execute(prog, SeccompData(nr, arch)) == Returned(Decide(denied, action, native, SeccompData(nr, arch)))
    {}
    assert forall i :: 0 <= i < |denied| ==> ToWord(denied[i].nr) == denied[i].nr % 0x1_0000_0000;
  }

  // ---------------------------------------------------------------- the assembler

  function Header(native: Word): seq<SockFilter> {
    [SockFilter(OP_LOAD_WORD, 0, 0, OFFSET_ARCH),
     SockFilter(OP_JUMP_EQUAL, 1, 0, native),
     SockFilter(OP_RETURN, 0, 0, RET_KILL_PROCESS),
     SockFilter(OP_LOAD_WORD, 0, 0, OFFSET_NR),
     SockFilter(OP_JUMP_GE, 0, 1, X32_BIT),
     SockFilter(OP_RETURN, 0, 0, RET_KILL_PROCESS)]
  }

  function Comparison(denied: seq<Denied>, i: nat): SockFilter
    requires i < |denied|
  {
    SockFilter(OP_JUMP_EQUAL, ToByte(|denied| - i - 1 + 1), 0, ToWord(denied[i].nr))
  }

  /** The instructions for a deny list of any length: BuildFilter without its length guard. */
  function Assemble(denied: seq<Denied>, action: Word, native: Word): (prog: seq<SockFilter>)
    ensures |prog| == |denied| + 8
  {
    Header(native)
    + seq(|denied|, i requires 0 <= i < |denied| => Comparison(denied, i))
    + [SockFilter(OP_RETURN, 0, 0, RET_ALLOW), SockFilter(OP_RETURN, 0, 0, action)]
  }

  /** Compiles a deny list, refusing one the 8-bit jump cannot span. A program that comes out is
      one the kernel loads, its length survives the 16-bit field Install puts it in, and it
      decides every system call as the policy does. */
  method BuildFilter(denied: seq<Denied>, action: Word, native: Word) returns (r: Result<Program>)
    ensures r.Err? <==> |denied| > 250
    ensures r.Ok? ==> DecidesByNumber(r.value.instructions, denied, action, native)
    ensures r.Ok? ==>
      && Implements(r.value.instructions, denied, action, native)
      && Loadable(r.value.instructions)
      && |r.value.instructions| % 0x1_0000 == |denied| + 8
      && r.value == Program(Assemble(denied, action, native), denied, action)
  {
    if |denied| > MAX_POLICY {
      return Err("policy exceeds the 8-bit BPF jump range");
    }
    var prog := Header(native);
    for i := 0 to |denied|
      invariant prog == Assemble(denied, action, native)[..6 + i]
    {
      var remaining := |denied| - i - 1;
      prog := prog + [SockFilter(OP_JUMP_EQUAL, ToByte(remaining + 1), 0, ToWord(denied[i].nr))];
    }
    prog := prog + [SockFilter(OP_RETURN, 0, 0, RET_ALLOW), SockFilter(OP_RETURN, 0, 0, action)];
    assert prog == Assemble(denied, action, native);
    FittingListsCompileCorrectly(denied, action, native);
    ImplementsByNumber(prog, denied, action, native);
    return Ok(Program(prog, denied, action));
  }

  function ActionErrno(errno: nat): (action: Word)
    ensures action == 0x0005_0000 + errno % 0x1_0000 && action != RET_ALLOW && action != RET_KILL_PROCESS
  {
    RET_ERRNO + errno % 0x1_0000
  }

  function ActionKill(): Word { RET_KILL_PROCESS }

  // ---------------------------------------------------------------- correctness

  lemma AssembledAt(denied: seq<Denied>, action: Word, native: Word, i: nat)
    requires i < |denied|
    ensures Assemble(denied, action, native)[6 + i] == Comparison(denied, i)
  {}

  /** The header sends every call of the native ABI to the first comparison with its number in
      the accumulator, and kills the rest. */
  lemma HeaderStep(denied: seq<Denied>, action: Word, native: Word, data: SeccompData)
    ensures
      var prog := Assemble(denied, action, native);
      Execute(prog, data) ==
        if data.arch != native || data.nr >= X32_BIT then Returned(RET_KILL_PROCESS)
        else Run(prog, 6, data.nr, data)
  {
    var prog := Assemble(denied, action, native);
    assert prog[..6] == Header(native);
    assert forall k :: 0 <= k < 6 ==> prog[k] == Header(native)[k];
    assert Run(prog, 0, 0, data) == Run(prog, 1, data.arch, data);
    if data.arch != native {
      assert Run(prog, 1, data.arch, data) == Run(prog, 2, data.arch, data);
    } else {
      assert Run(prog, 1, data.arch, data) == Run(prog, 3, data.arch, data);
      assert Run(prog, 3, data.arch, data) == Run(prog, 4, data.nr, data);
      if data.nr >= X32_BIT {
        assert Run(prog, 4, data.nr, data) == Run(prog, 5, data.nr, data);
      } else {
        assert Run(prog, 4, data.nr, data) == Run(prog, 6, data.nr, data);
      }
    }
  }

  /** Comparisons that do not match fall through to the next one. */
  lemma {:induction false} SkipMisses(denied: seq<Denied>, action: Word, native: Word, data: SeccompData, i: nat,
      j: nat)
    requires i <= j <= |denied|
    requires forall k :: i <= k < j ==> ToWord(denied[k].nr) != data.nr
    ensures
      var prog := Assemble(denied, action, native);
      Run(prog, 6 + i, data.nr, data) == Run(prog, 6 + j, data.nr, data)
    decreases j - i
  {
    if i < j {
      AssembledAt(denied, action, native, i);
      SkipMisses(denied, action, native, data, i + 1, j);
    }
  }

  lemma FallsThroughToAllow(denied: seq<Denied>, action: Word, native: Word, data: SeccompData, i: nat)
    requires i <= |denied|
    requires forall k :: i <= k < |denied| ==> ToWord(denied[k].nr) != data.nr
    ensures Run(Assemble(denied, action, native), 6 + i, data.nr, data) == Returned(RET_ALLOW)
  {
    SkipMisses(denied, action, native, data, i, |denied|);
  }

  function FirstMatch(denied: seq<Denied>, nr: Word): (i: nat)
    requires Listed(denied, nr)
    ensures i < |denied| && ToWord(denied[i].nr) == nr
    ensures forall k :: 0 <= k < i ==> ToWord(denied[k].nr) != nr
  {
    if ToWord(denied[0].nr) == nr then 0
    else
      assert Listed(denied[1..], nr) by {
        var i :| 0 <= i < |denied| && ToWord(denied[i].nr) == nr;
        assert denied[1..][i - 1] == denied[i];
      }
      1 + FirstMatch(denied[1..], nr)
  }

  lemma FittingListsDecide(denied: seq<Denied>, action: Word, native: Word, data: SeccompData)
    requires |denied| <= 255
    ensures Execute(Assemble(denied, action, native), data) == Returned(Decide(denied, action, native, data))
  {
    var prog := Assemble(denied, action, native);
    HeaderStep(denied, action, native, data);
    if data.arch == native && data.nr < X32_BIT {
      if Listed(denied, data.nr) {
        var i := FirstMatch(denied, data.nr);
        SkipMisses(denied, action, native, data, 0, i);
        AssembledAt(denied, action, native, i);
        assert Run(prog, 6 + i, data.nr, data) == Run(prog, |prog| - 1, data.nr, data);
      } else {
        FallsThroughToAllow(denied, action, native, data, 0);
      }
    }
  }

  lemma FittingListsLoad(denied: seq<Denied>, action: Word, native: Word)
    requires |denied| <= 255
    ensures Loadable(Assemble(denied, action, native))
  {
    var prog := Assemble(denied, action, native);
    forall pc | 0 <= pc < |prog| && (prog[pc].code == 0x15 || prog[pc].code == 0x35)
      ensures pc + 1 + prog[pc].jt < |prog| && pc + 1 + prog[pc].jf < |prog|
    {
      if pc >= 6 {
        assert pc - 6 < |denied|;
        AssembledAt(denied, action, native, pc - 6);
      }
    }
  }

  /** Up to 255 entries the byte-sized jump is exact, five more than the source's guard admits. */
  lemma FittingListsCompileCorrectly(denied: seq<Denied>, action: Word, native: Word)
    requires |denied| <= 255
    ensures Implements(Assemble(denied, action, native), denied, action, native)
    ensures Loadable(Assemble(denied, action, native))
  {
    hide Assemble, Execute, Decide;
    FittingListsLoad(denied, action, native);
    forall data: SeccompData
      ensures Execute(Assemble(denied, action, native), data) == Returned(Decide(denied, action, native, data))
    {
      FittingListsDecide(denied, action, native, data);
    }
  }

  /** An entry exactly 256 places from the deny block has its jump truncated to zero: a call that
      matches it and nothing later is allowed. */
  lemma TruncatedJumpAllows(denied: seq<Denied>, action: Word, native: Word, nr: Word)
    requires |denied| >= 256 && nr < X32_BIT
    requires ToWord(denied[|denied| - 256].nr) == nr
    requires forall k :: 0 <= k < |denied| && k != |denied| - 256 ==> ToWord(denied[k].nr) != nr
    ensures Execute(Assemble(denied, action, native), SeccompData(nr, native)) == Returned(RET_ALLOW)
  {
    var prog, data, i := Assemble(denied, action, native), SeccompData(nr, native), |denied| - 256;
    HeaderStep(denied, action, native, data);
    SkipMisses(denied, action, native, data, 0, i);
    AssembledAt(denied, action, native, i);
    assert Run(prog, 6 + i, nr, data) == Run(prog, 6 + i + 1, nr, data);
    FallsThroughToAllow(denied, action, native, data, i + 1);
  }

  predicate DistinctNative(denied: seq<Denied>) {
    && (forall i :: 0 <= i < |denied| ==> ToWord(denied[i].nr) < X32_BIT)
    && (forall i, j :: 0 <= i < j < |denied| ==> ToWord(denied[i].nr) != ToWord(denied[j].nr))
  }

  /** The exact range of the encoding: over lists of distinct native numbers, with any action that
      differs from ALLOW, the unguarded assembler is right precisely up to 255 entries. */
  lemma ByteJumpRangeIsExact(denied: seq<Denied>, action: Word, native: Word)
    requires DistinctNative(denied) && action != RET_ALLOW
    ensures Implements(Assemble(denied, action, native), denied, action, native) <==> |denied| <= 255
  {
    if |denied| <= 255 {
      FittingListsCompileCorrectly(denied, action, native);
    } else {
      var i := |denied| - 256;
      var nr := ToWord(denied[i].nr);
      TruncatedJumpAllows(denied, action, native, nr);
      assert Listed(denied, nr);
      assert Decide(denied, action, native, SeccompData(nr, native)) == action;
    }
  }

  /** At 256 entries, duplicates allowed, only the first entry's jump is lost. The program is still
      right exactly when that entry did not matter: it is out of the native range, it is listed
      again, or the action is to allow anyway. */
  lemma AtTwoHundredFiftySix(denied: seq<Denied>, action: Word, native: Word)
    requires |denied| == 256
    ensures Implements(Assemble(denied, action, native), denied, action, native) <==>
            (|| ToWord(denied[0].nr) >= X32_BIT
             || Listed(denied[1..], ToWord(denied[0].nr))
             || action == RET_ALLOW)
  {
    var prog, first := Assemble(denied, action, native), ToWord(denied[0].nr);
    if first < X32_BIT && !Listed(denied[1..], first) && action != RET_ALLOW {
      forall k | 0 < k < |denied| ensures ToWord(denied[k].nr) != first {
        assert denied[1..][k - 1] == denied[k];
      }
      TruncatedJumpAllows(denied, action, native, first);
      assert Listed(denied, first);
      assert Decide(denied, action, native, SeccompData(first, native)) == action;
    } else {
      forall data: SeccompData
        ensures Execute(prog, data) == Returned(Decide(denied, action, native, data))
      {
        AtTwoHundredFiftySixRuns(denied, action, native, data);
      }
    }
  }

  lemma AtTwoHundredFiftySixRuns(denied: seq<Denied>, action: Word, native: Word, data: SeccompData)
    requires |denied| == 256
    requires || ToWord(denied[0].nr) >= X32_BIT
             || Listed(denied[1..], ToWord(denied[0].nr))
             || action == RET_ALLOW
    ensures Execute(Assemble(denied, action, native), data) == Returned(Decide(denied, action, native, data))
  {
    var prog := Assemble(denied, action, native);
    HeaderStep(denied, action, native, data);
    if data.arch == native && data.nr < X32_BIT {
      // Whether or not entry 0 matches, the machine goes on to entry 1.
      AssembledAt(denied, action, native, 0);
      assert Run(prog, 6, data.nr, data) == Run(prog, 7, data.nr, data);
      if Listed(denied[1..], data.nr) {
        var i := 1 + FirstMatch(denied[1..], data.nr);
        assert forall k :: 1 <= k < i ==> denied[k] == denied[1..][k - 1];
        assert denied[i] == denied[1..][i - 1];
        SkipMisses(denied, action, native, data, 1, i);
        AssembledAt(denied, action, native, i);
        assert prog[|prog| - 1] == SockFilter(OP_RETURN, 0, 0, action);
        assert Run(prog, 6 + i, data.nr, data) == Run(prog, |prog| - 1, data.nr, data);
        assert Listed(denied, data.nr);
      } else {
        forall k | 1 <= k < |denied| ensures ToWord(denied[k].nr) != data.nr {
          assert denied[1..][k - 1] == denied[k];
        }
        FallsThroughToAllow(denied, action, native, data, 1);
      }
    }
  }
}
