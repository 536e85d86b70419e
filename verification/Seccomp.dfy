/** The seccomp filter generator: a small compiler from a syscall policy to classic BPF.

    `BuildSeccompFilter` emits instructions, leaves placeholders and back-patches 8-bit jump
    offsets. Its output is a layout, `Compile`, which is run on an interpreter of the BPF subset
    it uses and compared with `Policy`, a first-match table that mentions no instructions. */
module Seccomp {
  import opened Common

  // ----- The machine (linux/filter.h, linux/seccomp.h) -----

  type Offset = n: nat | n < 256

  datatype Instruction = Instruction(code: bv16, jt: Offset, jf: Offset, k: bv32)

  const BPF_LD_W: bv16 := 0x20
  const BPF_RET: bv16 := 0x06
  const BPF_K: bv16 := 0x00
  const BPF_JMP: bv16 := 0x05
  const BPF_JEQ_K: bv16 := 0x10
  const BPF_ALU_AND: bv16 := 0x04 | 0x50

  const OFFSET_NR: bv32 := 0
  const OFFSET_ARCH: bv32 := 4
  const OFFSET_ARGS: bv32 := 16

  const RET_KILL: bv32 := 0
  const RET_ERRNO: bv32 := 0x0005_0000
  const RET_DATA: bv32 := 0x0000_ffff
  const RET_ALLOW: bv32 := 0x7fff_0000
  const EPERM: bv32 := 1
  const RET_EPERM: bv32 := RET_ERRNO | (EPERM & RET_DATA)

  const CLONE_NEWUSER: bv32 := 0x1000_0000
  const CLONE_NEWNET: bv32 := 0x4000_0000
  const AF_UNIX: bv32 := 1

  /** What the kernel passes to the filter; each argument is a 64-bit word. */
  datatype SyscallData = SyscallData(nr: bv32, arch: bv32, ip: bv64,
                                     a0: bv64, a1: bv64, a2: bv64, a3: bv64, a4: bv64, a5: bv64)

  function Low(w: bv64): bv32 { (w & 0xffff_ffff) as bv32 }

  function High(w: bv64): bv32 { (w >> 32) as bv32 }

  /** A 32-bit load at an absolute offset of struct seccomp_data on a little-endian machine. */
  function Load(d: SyscallData, k: bv32): Option<bv32> {
    if k == OFFSET_NR then Some(d.nr)
    else if k == OFFSET_ARCH then Some(d.arch)
    else if k == OFFSET_ARGS then Some(Low(d.a0))
    else LoadOther(d, k)
  }

  function LoadOther(d: SyscallData, k: bv32): Option<bv32> {
    match k
    case 8 => Some(Low(d.ip)) case 12 => Some(High(d.ip)) case 20 => Some(High(d.a0))
    case 24 => Some(Low(d.a1)) case 28 => Some(High(d.a1))
    case 32 => Some(Low(d.a2)) case 36 => Some(High(d.a2))
    case 40 => Some(Low(d.a3)) case 44 => Some(High(d.a3))
    case 48 => Some(Low(d.a4)) case 52 => Some(High(d.a4))
    case 56 => Some(Low(d.a5)) case 60 => Some(High(d.a5))
    case _ => None
  }

  datatype Outcome = Returned(value: bv32) | Fault

  /** Runs from pc with accumulator acc. Falling off the end, an unknown opcode or a load outside
      the structure is a Fault. */
  function Run(prog: seq<Instruction>, pc: nat, acc: bv32, d: SyscallData): Outcome
    decreases |prog| - pc
  {
    if pc >= |prog| then Fault
    else
      var i := prog[pc];
      if i.code == BPF_LD_W then
        match Load(d, i.k)
        case None => Fault
        case Some(w) => Run(prog, pc + 1, w, d)
      else if i.code == BPF_ALU_AND | BPF_K then Run(prog, pc + 1, acc & i.k, d)
      else if i.code == BPF_JMP | BPF_JEQ_K then
        Run(prog, pc + 1 + if acc == i.k then i.jt else i.jf, acc, d)
      else if i.code == BPF_RET | BPF_K then Returned(i.k)
      else Fault
  }

  function Exec(prog: seq<Instruction>, d: SyscallData): Outcome { Run(prog, 0, 0, d) }

  /** The kernel's own check before it accepts a program: at most 4096 instructions, known opcodes,
      aligned loads inside the structure, every jump forward and inside the program, and a return at
      the end. */
  predicate KernelAccepts(prog: seq<Instruction>) { |prog| <= BPF_MAXINSNS && IsChecked(prog) }

  const BPF_MAXINSNS: nat := 4096

  predicate IsChecked(prog: seq<Instruction>) {
    && |prog| > 0
    && prog[|prog| - 1].code == BPF_RET | BPF_K
    && forall pc :: 0 <= pc < |prog| ==> InstructionAccepted(prog[pc], pc, |prog|)
  }

  predicate InstructionAccepted(i: Instruction, pc: nat, length: nat) {
    || (i.code == BPF_LD_W && i.k & 3 == 0 && i.k < 64)
    || i.code == BPF_ALU_AND | BPF_K
    || i.code == BPF_RET | BPF_K
    || (i.code == BPF_JMP | BPF_JEQ_K && pc + 1 + i.jt < length && pc + 1 + i.jf < length)
  }

  // ----- The policy -----

  datatype Platform = Platform(auditArch: bv32, sysClone: bv32, sysSocket: bv32, blocked: seq<bv32>)

  /** First match wins. */
  function Policy(p: Platform, networkAccess: bool, d: SyscallData): bv32 {
    if d.arch != p.auditArch then RET_KILL
    else if d.nr == p.sysClone then
      if Low(d.a0) & CLONE_NEWUSER != 0 || Low(d.a0) & CLONE_NEWNET != 0 then RET_EPERM else RET_ALLOW
    else if d.nr in p.blocked then RET_EPERM
    else if d.nr == p.sysSocket && !networkAccess && Low(d.a0) != AF_UNIX then RET_EPERM
    else RET_ALLOW
  }

  // ----- The compiler -----

  function Ret(k: bv32): Instruction { Instruction(BPF_RET | BPF_K, 0, 0, k) }

  function Jeq(val: bv32, jt: Offset, jf: Offset): Instruction {
    Instruction(BPF_JMP | BPF_JEQ_K, jt, jf, val)
  }

  function Ld(k: bv32): Instruction { Instruction(BPF_LD_W, 0, 0, k) }

  function And(k: bv32): Instruction { Instruction(BPF_ALU_AND | BPF_K, 0, 0, k) }

  /** The conversion uint8(x). */
  function Uint8(x: nat): Offset { x % 256 }

  function BlockedCode(blocked: seq<bv32>): seq<Instruction> {
    seq(2 * |blocked|, i requires 0 <= i < 2 * |blocked| =>
      if i % 2 == 0 then Jeq(blocked[i / 2], 0, 1) else Ret(RET_EPERM))
  }

  function CloneCode(): seq<Instruction> {
    [Ld(OFFSET_ARGS), And(CLONE_NEWUSER), Jeq(CLONE_NEWUSER, 0, 1), Ret(RET_EPERM),
     Ld(OFFSET_ARGS), And(CLONE_NEWNET), Jeq(CLONE_NEWNET, 0, 1), Ret(RET_EPERM), Ret(RET_ALLOW)]
  }

  function SocketCode(): seq<Instruction> {
    [Ld(OFFSET_ARGS), Jeq(AF_UNIX, 1, 0), Ret(RET_EPERM), Ret(RET_ALLOW)]
  }

  /** Distance from the instruction after the clone test to the clone inspection, before uint8. */
  function CloneDistance(p: Platform, networkAccess: bool): nat {
    2 * |p.blocked| + if networkAccess then 1 else 2
  }

  function Head(p: Platform): seq<Instruction> {
    [Ld(OFFSET_ARCH), Jeq(p.auditArch, 1, 0), Ret(RET_KILL), Ld(OFFSET_NR)]
  }

  function CloneTest(p: Platform, networkAccess: bool): Instruction {
    Jeq(p.sysClone, Uint8(CloneDistance(p, networkAccess)), 0)
  }

  function SocketTest(p: Platform, networkAccess: bool): seq<Instruction> {
    if networkAccess then [] else [Jeq(p.sysSocket, 10, 0)]
  }

  function SocketPart(networkAccess: bool): seq<Instruction> { if networkAccess then [] else SocketCode() }

  function Compile(p: Platform, networkAccess: bool): seq<Instruction> {
    Head(p) + [CloneTest(p, networkAccess)] + BlockedCode(p.blocked) + SocketTest(p, networkAccess)
    + [Ret(RET_ALLOW)] + CloneCode() + SocketPart(networkAccess)
  }

  lemma BlockedCodeAppend(blocked: seq<bv32>, i: nat)
    requires i < |blocked|
    ensures BlockedCode(blocked[..i + 1]) ==
            BlockedCode(blocked[..i]) + [Jeq(blocked[i], 0, 1), Ret(RET_ERRNO | (EPERM & RET_DATA))]
  {
    hide Jeq, Ret;
  }

  /** Patching the clone test, and the socket test. */
  lemma PatchClone(h: seq<Instruction>, x: Instruction, b: seq<Instruction>, t: seq<Instruction>,
                   r: Instruction, c: seq<Instruction>, y: Instruction)
    ensures (h + [x] + b + t + [r] + c)[|h| := y] == h + [y] + b + t + [r] + c
  {
  }

  lemma PatchSocket(f: seq<Instruction>, x: Instruction, r: Instruction, c: seq<Instruction>,
                    k: seq<Instruction>, y: Instruction)
    ensures (f + [x] + [r] + c + k)[|f| := y] == f + [y] + [r] + c + k
  {
  }

  method BuildSeccompFilter(p: Platform, networkAccess: bool) returns (filter: seq<Instruction>)
    ensures filter == Compile(p, networkAccess)
  {
    var deny, allow := Ret(RET_ERRNO | (EPERM & RET_DATA)), Ret(RET_ALLOW);
    hide BlockedCode, Ld, And, Jeq, Ret;
    var placeholder := Instruction(0, 0, 0, 0);
    filter := [Ld(OFFSET_ARCH), Jeq(p.auditArch, 1, 0), Ret(RET_KILL), Ld(OFFSET_NR)];
    var cloneJeqIdx := |filter|;
    filter := filter + [placeholder];
    BlockedLength(p.blocked);
    for i := 0 to |p.blocked|
      invariant filter == Head(p) + [placeholder] + BlockedCode(p.blocked[..i])
    {
      BlockedCodeAppend(p.blocked, i);
      Append(Head(p) + [placeholder], BlockedCode(p.blocked[..i]), [Jeq(p.blocked[i], 0, 1), deny]);
      filter := filter + [Jeq(p.blocked[i], 0, 1), deny];
    }
    assert p.blocked[..|p.blocked|] == p.blocked;
    var socketJeqIdx := |filter|;
    if !networkAccess {
      filter := filter + [placeholder];
    }
    filter := filter + [allow];
    var cloneInspectStart := |filter|;
    var clone := [Ld(OFFSET_ARGS), And(CLONE_NEWUSER), Jeq(CLONE_NEWUSER, 0, 1), deny,
                  Ld(OFFSET_ARGS), And(CLONE_NEWNET), Jeq(CLONE_NEWNET, 0, 1), deny, allow];
    assert clone == CloneCode();
    hide CloneCode;
    filter := filter + clone;
    ghost var t := if networkAccess then [] else [placeholder];
    assert networkAccess ==> Head(p) + [placeholder] + BlockedCode(p.blocked) + t
                             == Head(p) + [placeholder] + BlockedCode(p.blocked);
    PatchClone(Head(p), placeholder, BlockedCode(p.blocked), t, allow, CloneCode(), CloneTest(p, networkAccess));
    filter := filter[cloneJeqIdx := Jeq(p.sysClone, Uint8(cloneInspectStart - (cloneJeqIdx + 1)), 0)];
    if !networkAccess {
      var socketInspectStart := |filter|;
      filter := filter + [Ld(OFFSET_ARGS), Jeq(AF_UNIX, 1, 0), deny, allow];
      ghost var front := Head(p) + [CloneTest(p, networkAccess)] + BlockedCode(p.blocked);
      PatchSocket(front, placeholder, allow, CloneCode(), SocketCode(), Jeq(p.sysSocket, 10, 0));
      filter := filter[socketJeqIdx := Jeq(p.sysSocket, Uint8(socketInspectStart - (socketJeqIdx + 1)), 0)];
    } else {
      assert filter + [] == filter;
    }
  }

  lemma BlockedLength(blocked: seq<bv32>)
    ensures |BlockedCode(blocked)| == 2 * |blocked| && BlockedCode(blocked[..0]) == []
  {
  }

  lemma Append(a: seq<Instruction>, b: seq<Instruction>, c: seq<Instruction>)
    ensures a + b + c == a + (b + c)
  {
  }

  // ----- Correctness -----

  /** The jump to the clone inspection survives the conversion to uint8. */
  predicate Fits(p: Platform, networkAccess: bool) { CloneDistance(p, networkAccess) <= 255 }

  /** Where each part of the program lies. */
  predicate Laid(p: Platform, networkAccess: bool, prog: seq<Instruction>) {
    var n, s := 2 * |p.blocked|, if networkAccess then 0 else 1;
    && |prog| == n + 15 + 5 * s
    && prog[..4] == Head(p) && prog[4] == CloneTest(p, networkAccess)
    && prog[5..5 + n] == BlockedCode(p.blocked)
    && (!networkAccess ==> prog[5 + n] == Jeq(p.sysSocket, 10, 0))
    && prog[5 + n + s] == Ret(RET_ALLOW)
    && prog[6 + n + s..15 + n + s] == CloneCode()
    && (!networkAccess ==> prog[15 + n + s..] == SocketCode())
  }

  lemma CompileIsLaid(p: Platform, networkAccess: bool)
    ensures Laid(p, networkAccess, Compile(p, networkAccess))
  {
    BlockedLength(p.blocked);
    var prog := Compile(p, networkAccess);
    var h, b, t := Head(p) + [CloneTest(p, networkAccess)], BlockedCode(p.blocked), SocketTest(p, networkAccess);
    var c, k := CloneCode(), SocketPart(networkAccess);
    assert |h| == 5 && |c| == 9 && h[..4] == Head(p) && h[4] == CloneTest(p, networkAccess);
    hide Head, BlockedCode, CloneCode, SocketCode, Ret, Jeq, Ld;
    Piece(h + b + t + [Ret(RET_ALLOW)] + c, k, prog);
    Piece(h + b + t + [Ret(RET_ALLOW)], c, prog);
    Piece(h + b + t, [Ret(RET_ALLOW)], prog);
    Piece(h + b, t, prog);
    Piece(h, b, prog);
    assert prog[..4] == h[..4];
  }

  lemma Piece(a: seq<Instruction>, b: seq<Instruction>, prog: seq<Instruction>)
    requires a + b <= prog
    ensures a <= prog && prog[|a|..|a| + |b|] == b && (b != [] ==> prog[|a|] == b[0])
  {
    assert prog[..|a| + |b|] == a + b;
  }

  lemma PartAccepted(prog: seq<Instruction>, start: nat, part: seq<Instruction>)
    requires start + |part| <= |prog| && prog[start..start + |part|] == part
    requires part == CloneCode() || part == SocketCode() || (exists b :: part == BlockedCode(b) && start + |part| < |prog|)
    ensures forall pc :: start <= pc < start + |part| ==> InstructionAccepted(prog[pc], pc, |prog|)
  {
    forall pc | start <= pc < start + |part| ensures InstructionAccepted(prog[pc], pc, |prog|) {
      assert prog[pc] == part[pc - start];
    }
  }

  function Length(p: Platform, networkAccess: bool): nat {
    2 * |p.blocked| + if networkAccess then 15 else 20
  }

  /** The kernel accepts a generated program exactly if it is not too long. */
  lemma FilterIsAccepted(p: Platform, networkAccess: bool)
    ensures KernelAccepts(Compile(p, networkAccess)) <==> 2 * |p.blocked| + (if networkAccess then 15 else 20) <= 4096
  {
    CompileIsLaid(p, networkAccess);
    LaidIsAccepted(p, networkAccess, Compile(p, networkAccess));
  }

  lemma LaidIsAccepted(p: Platform, networkAccess: bool, prog: seq<Instruction>)
    requires Laid(p, networkAccess, prog)
    ensures IsChecked(prog)
  {
    var n, s := 2 * |p.blocked|, if networkAccess then 0 else 1;
    BlockedLength(p.blocked);
    HeadAccepted(p, networkAccess, prog);
    LastReturns(p, networkAccess, prog);
    hide InstructionAccepted, BlockedCode;
    PartAccepted(prog, 5, BlockedCode(p.blocked));
    PartAccepted(prog, 6 + n + s, CloneCode());
    if !networkAccess {
      PartAccepted(prog, 15 + n + s, SocketCode());
    }
  }

  lemma HeadAccepted(p: Platform, networkAccess: bool, prog: seq<Instruction>)
    requires Laid(p, networkAccess, prog)
    ensures forall pc :: 0 <= pc < 5 ==> InstructionAccepted(prog[pc], pc, |prog|)
    ensures var n, s := 2 * |p.blocked|, if networkAccess then 0 else 1;
            forall pc :: 5 + n <= pc < 6 + n + s ==> InstructionAccepted(prog[pc], pc, |prog|)
  {
    hide BlockedCode, CloneCode, SocketCode;
    forall pc | 0 <= pc < 4 ensures InstructionAccepted(prog[pc], pc, |prog|) {
      assert prog[pc] == prog[..4][pc] == Head(p)[pc];
    }
  }

  lemma LastReturns(p: Platform, networkAccess: bool, prog: seq<Instruction>)
    requires Laid(p, networkAccess, prog)
    ensures prog[|prog| - 1].code == BPF_RET | BPF_K
  {
    hide BlockedCode, Head, CloneTest;
    var n := 2 * |p.blocked|;
    if networkAccess {
      CloneCodeAt(prog, 6 + n);
      assert prog[|prog| - 1] == Ret(RET_ALLOW);
    } else {
      assert prog[16 + n..][3] == SocketCode()[3] == Ret(RET_ALLOW);
      assert prog[|prog| - 1] == prog[16 + n..][3];
    }
  }

  // One machine step per lemma.

  lemma StepLd(prog: seq<Instruction>, pc: nat, acc: bv32, d: SyscallData, k: bv32, w: bv32)
    requires pc < |prog| && prog[pc] == Ld(k) && Load(d, k) == Some(w)
    ensures Run(prog, pc, acc, d) == Run(prog, pc + 1, w, d)
  {
  }

  lemma StepAnd(prog: seq<Instruction>, pc: nat, acc: bv32, d: SyscallData, k: bv32)
    requires pc < |prog| && prog[pc] == And(k)
    ensures Run(prog, pc, acc, d) == Run(prog, pc + 1, acc & k, d)
  {
  }

  lemma StepJeq(prog: seq<Instruction>, pc: nat, acc: bv32, d: SyscallData, k: bv32, jt: Offset, jf: Offset)
    requires pc < |prog| && prog[pc] == Jeq(k, jt, jf)
    ensures Run(prog, pc, acc, d) == Run(prog, pc + 1 + if acc == k then jt else jf, acc, d)
  {
  }

  lemma StepRet(prog: seq<Instruction>, pc: nat, acc: bv32, d: SyscallData, k: bv32)
    requires pc < |prog| && prog[pc] == Ret(k)
    ensures Run(prog, pc, acc, d) == Returned(k)
  {
  }

  lemma StepPair(prog: seq<Instruction>, pc: nat, acc: bv32, d: SyscallData, k: bv32)
    requires pc + 1 < |prog| && prog[pc] == Jeq(k, 0, 1) && prog[pc + 1] == Ret(RET_EPERM)
    ensures Run(prog, pc, acc, d) == if acc == k then Returned(RET_EPERM) else Run(prog, pc + 2, acc, d)
  {
    hide Run;
    StepJeq(prog, pc, acc, d, k, 0, 1);
    StepRet(prog, pc + 1, acc, d, RET_EPERM);
  }

  /** The list, pair by pair. */
  predicate HasPairs(prog: seq<Instruction>, blocked: seq<bv32>) {
    && 5 + 2 * |blocked| < |prog|
    && forall i {:trigger blocked[i]} :: 0 <= i < |blocked| ==>
         prog[5 + 2 * i] == Jeq(blocked[i], 0, 1) && prog[6 + 2 * i] == Ret(RET_EPERM)
  }

  lemma LaidHasPairs(p: Platform, networkAccess: bool, prog: seq<Instruction>)
    requires Laid(p, networkAccess, prog)
    ensures HasPairs(prog, p.blocked)
  {
    var part := prog[5..5 + 2 * |p.blocked|];
    forall i | 0 <= i < |p.blocked|
      ensures prog[5 + 2 * i] == Jeq(p.blocked[i], 0, 1) && prog[6 + 2 * i] == Ret(RET_EPERM)
    {
      assert prog[5 + 2 * i] == part[2 * i] && prog[6 + 2 * i] == part[2 * i + 1];
    }
  }

  /** From the i-th pair on, the list is scanned and the run falls through to its end. */
  lemma {:induction false} RunBlocked(prog: seq<Instruction>, blocked: seq<bv32>, i: nat, nr: bv32, d: SyscallData)
    requires HasPairs(prog, blocked) && i <= |blocked|
    ensures nr in blocked[i..] ==> Run(prog, 5 + 2 * i, nr, d) == Returned(RET_EPERM)
    ensures nr !in blocked[i..] ==> Run(prog, 5 + 2 * i, nr, d) == Run(prog, 5 + 2 * |blocked|, nr, d)
    decreases |blocked| - i
  {
    hide Run;
    if i < |blocked| {
      StepPair(prog, 5 + 2 * i, nr, d, blocked[i]);
      RunBlocked(prog, blocked, i + 1, nr, d);
      assert blocked[i..] == [blocked[i]] + blocked[i + 1..];
    }
  }

  lemma SingleBit(w: bv32)
    ensures w & CLONE_NEWUSER == CLONE_NEWUSER <==> w & CLONE_NEWUSER != 0
    ensures w & CLONE_NEWNET == CLONE_NEWNET <==> w & CLONE_NEWNET != 0
  {
  }

  /** Four instructions that deny when a flag bit of the first argument is set. */
  lemma RunFlagTest(prog: seq<Instruction>, pc: nat, acc: bv32, d: SyscallData, flag: bv32)
    requires pc + 4 < |prog|
    requires prog[pc] == Ld(OFFSET_ARGS) && prog[pc + 1] == And(flag)
    requires prog[pc + 2] == Jeq(flag, 0, 1) && prog[pc + 3] == Ret(RET_EPERM)
    ensures Run(prog, pc, acc, d) == if Low(d.a0) & flag == flag then Returned(RET_EPERM)
                                     else Run(prog, pc + 4, Low(d.a0) & flag, d)
  {
    hide Run, Low, Ld, And, Jeq, Ret;
    LoadAndMask(prog, pc, acc, d, flag);
    StepPair(prog, pc + 2, Low(d.a0) & flag, d, flag);
  }

  lemma LoadAndMask(prog: seq<Instruction>, pc: nat, acc: bv32, d: SyscallData, flag: bv32)
    requires pc + 1 < |prog| && prog[pc] == Ld(OFFSET_ARGS) && prog[pc + 1] == And(flag)
    ensures Run(prog, pc, acc, d) == Run(prog, pc + 2, Low(d.a0) & flag, d)
  {
    var w := Low(d.a0);
    assert Load(d, OFFSET_ARGS) == Some(w);
    hide Run, Load, Low, Ld, And;
    StepLd(prog, pc, acc, d, OFFSET_ARGS, w);
    StepAnd(prog, pc + 1, w, d, flag);
  }

  /** The inspection code, instruction by instruction. */
  lemma CloneCodeAt(prog: seq<Instruction>, start: nat)
    requires start + 9 <= |prog| && prog[start..start + 9] == CloneCode()
    ensures prog[start] == Ld(OFFSET_ARGS) && prog[start + 1] == And(CLONE_NEWUSER)
    ensures prog[start + 2] == Jeq(CLONE_NEWUSER, 0, 1) && prog[start + 3] == Ret(RET_EPERM)
    ensures prog[start + 4] == Ld(OFFSET_ARGS) && prog[start + 5] == And(CLONE_NEWNET)
    ensures prog[start + 6] == Jeq(CLONE_NEWNET, 0, 1) && prog[start + 7] == Ret(RET_EPERM)
    ensures prog[start + 8] == Ret(RET_ALLOW)
  {
    hide Ld, And, Jeq, Ret;
    var part := prog[start..start + 9];
    assert forall j :: 0 <= j < 9 ==> prog[start + j] == part[j];
  }

  lemma RunCloneCode(prog: seq<Instruction>, start: nat, acc: bv32, d: SyscallData)
    requires start + 9 <= |prog| && prog[start..start + 9] == CloneCode()
    ensures Run(prog, start, acc, d) ==
            Returned(if Low(d.a0) & CLONE_NEWUSER != 0 || Low(d.a0) & CLONE_NEWNET != 0
                     then RET_EPERM else RET_ALLOW)
  {
    hide Run, CloneCode, Ld, And, Jeq, Ret, Low;
    CloneCodeAt(prog, start);
    RunFlagTest(prog, start, acc, d, CLONE_NEWUSER);
    RunFlagTest(prog, start + 4, Low(d.a0) & CLONE_NEWUSER, d, CLONE_NEWNET);
    StepRet(prog, start + 8, Low(d.a0) & CLONE_NEWNET, d, RET_ALLOW);
    SingleBit(Low(d.a0));
  }

  lemma RunSocketCode(prog: seq<Instruction>, start: nat, acc: bv32, d: SyscallData)
    requires start + 4 <= |prog| && prog[start..start + 4] == SocketCode()
    ensures Run(prog, start, acc, d) == Returned(if Low(d.a0) != AF_UNIX then RET_EPERM else RET_ALLOW)
  {
    hide Run;
    var part := prog[start..start + 4];
    assert forall j :: 0 <= j < 4 ==> prog[start + j] == part[j];
    StepLd(prog, start, acc, d, OFFSET_ARGS, Low(d.a0));
    StepJeq(prog, start + 1, Low(d.a0), d, AF_UNIX, 1, 0);
    StepRet(prog, start + 2, Low(d.a0), d, RET_EPERM);
    StepRet(prog, start + 3, Low(d.a0), d, RET_ALLOW);
  }

  lemma RunClone(p: Platform, networkAccess: bool, prog: seq<Instruction>, acc: bv32, d: SyscallData)
    requires Laid(p, networkAccess, prog)
    ensures Run(prog, 5 + CloneDistance(p, networkAccess), acc, d) ==
            Returned(if Low(d.a0) & CLONE_NEWUSER != 0 || Low(d.a0) & CLONE_NEWNET != 0
                     then RET_EPERM else RET_ALLOW)
  {
    hide Run;
    RunCloneCode(prog, 5 + CloneDistance(p, networkAccess), acc, d);
  }

  /** After the list: the socket test, if there is one, then allow. */
  lemma RunTail(p: Platform, networkAccess: bool, prog: seq<Instruction>, nr: bv32, d: SyscallData)
    requires Laid(p, networkAccess, prog)
    ensures Run(prog, 5 + 2 * |p.blocked|, nr, d) ==
            Returned(if nr == p.sysSocket && !networkAccess && Low(d.a0) != AF_UNIX
                     then RET_EPERM else RET_ALLOW)
  {
    hide Run;
    var n := 2 * |p.blocked|;
    if networkAccess {
      StepRet(prog, 5 + n, nr, d, RET_ALLOW);
    } else {
      StepJeq(prog, 5 + n, nr, d, p.sysSocket, 10, 0);
      if nr == p.sysSocket {
        assert prog[16 + n..20 + n] == prog[16 + n..];
        RunSocketCode(prog, 16 + n, nr, d);
      } else {
        StepRet(prog, 6 + n, nr, d, RET_ALLOW);
      }
    }
  }

  /** The prologue: a foreign architecture is killed; otherwise the clone test is taken. */
  lemma RunPrologue(p: Platform, networkAccess: bool, prog: seq<Instruction>, d: SyscallData)
    requires Laid(p, networkAccess, prog)
    ensures Exec(prog, d) ==
            if d.arch != p.auditArch then Returned(RET_KILL)
            else Run(prog, 5 + (if d.nr == p.sysClone then Uint8(CloneDistance(p, networkAccess)) else 0), d.nr, d)
  {
    hide Run;
    var part := prog[..4];
    assert forall j :: 0 <= j < 4 ==> prog[j] == part[j];
    StepLd(prog, 0, 0, d, OFFSET_ARCH, d.arch);
    StepJeq(prog, 1, d.arch, d, p.auditArch, 1, 0);
    StepRet(prog, 2, d.arch, d, RET_KILL);
    StepLd(prog, 3, d.arch, d, OFFSET_NR, d.nr);
    StepJeq(prog, 4, d.nr, d, p.sysClone, Uint8(CloneDistance(p, networkAccess)), 0);
  }

  /** Entering the list at its i-th pair with a syscall number in the accumulator. */
  lemma RunFromList(p: Platform, networkAccess: bool, prog: seq<Instruction>, i: nat, nr: bv32, d: SyscallData)
    requires Laid(p, networkAccess, prog) && i <= |p.blocked|
    ensures Run(prog, 5 + 2 * i, nr, d) ==
            Returned(if nr in p.blocked[i..] then RET_EPERM
                     else if nr == p.sysSocket && !networkAccess && Low(d.a0) != AF_UNIX then RET_EPERM
                     else RET_ALLOW)
  {
    hide Run, Laid;
    LaidHasPairs(p, networkAccess, prog);
    RunBlocked(prog, p.blocked, i, nr, d);
    RunTail(p, networkAccess, prog, nr, d);
  }

  lemma LaidImplementsPolicy(p: Platform, networkAccess: bool, prog: seq<Instruction>, d: SyscallData)
    requires Laid(p, networkAccess, prog) && Fits(p, networkAccess)
    ensures Exec(prog, d) == Returned(Policy(p, networkAccess, d))
  {
    hide Run, Laid;
    RunPrologue(p, networkAccess, prog, d);
    if d.nr == p.sysClone {
      RunClone(p, networkAccess, prog, d.nr, d);
      assert Uint8(CloneDistance(p, networkAccess)) == CloneDistance(p, networkAccess);
    } else {
      RunFromList(p, networkAccess, prog, 0, d.nr, d);
      assert p.blocked[0..] == p.blocked;
    }
  }

  /** Compiler correctness: a filter whose clone jump fits computes exactly the policy. */
  lemma FilterImplementsPolicy(p: Platform, networkAccess: bool, d: SyscallData)
    requires Fits(p, networkAccess)
    ensures Exec(Compile(p, networkAccess), d) == Returned(Policy(p, networkAccess, d))
  {
    hide Run, Compile, Laid, Exec, Policy;
    CompileIsLaid(p, networkAccess);
    LaidImplementsPolicy(p, networkAccess, Compile(p, networkAccess), d);
  }

  function CloneCall(p: Platform, flags: bv64): SyscallData {
    SyscallData(p.sysClone, p.auditArch, 0, flags, 0, 0, 0, 0, 0)
  }

  lemma CloneCallPolicy(p: Platform, networkAccess: bool)
    ensures Low(0) == 0
    ensures Policy(p, networkAccess, CloneCall(p, 0)) == RET_ALLOW
    ensures Policy(p, networkAccess, CloneCall(p, 0x1000_0000)) == RET_EPERM
    ensures RET_ALLOW != RET_EPERM
  {
  }

  /** A clone call when the distance has wrapped around to off: the run resumes inside the list,
      on a deny if off is odd and on a test if it is even. */
  lemma RunWrappedClone(p: Platform, networkAccess: bool, prog: seq<Instruction>, off: nat, flags: bv64)
    requires Laid(p, networkAccess, prog) && off == Uint8(CloneDistance(p, networkAccess)) < 2 * |p.blocked|
    ensures off % 2 == 1 ==> Exec(prog, CloneCall(p, flags)) == Returned(RET_EPERM)
    ensures off % 2 == 0 ==>
              Exec(prog, CloneCall(p, flags)) ==
              Returned(if p.sysClone in p.blocked[off / 2..] then RET_EPERM
                       else if p.sysClone == p.sysSocket && !networkAccess && Low(flags) != AF_UNIX then RET_EPERM
                       else RET_ALLOW)
  {
    hide Run, Laid;
    var d := CloneCall(p, flags);
    RunPrologue(p, networkAccess, prog, d);
    if off % 2 == 1 {
      LaidHasPairs(p, networkAccess, prog);
      RunOddEntry(prog, p.blocked, off, d.nr, d);
    } else {
      RunFromList(p, networkAccess, prog, off / 2, d.nr, d);
    }
  }

  lemma RunOddEntry(prog: seq<Instruction>, blocked: seq<bv32>, off: nat, nr: bv32, d: SyscallData)
    requires HasPairs(prog, blocked) && off < 2 * |blocked| && off % 2 == 1
    ensures Run(prog, 5 + off, nr, d) == Returned(RET_EPERM)
  {
    hide Run;
    var i := off / 2;
    assert prog[5 + 2 * i] == Jeq(blocked[i], 0, 1);
    assert 5 + off == 6 + 2 * i;
    StepRet(prog, 6 + 2 * i, nr, d, RET_EPERM);
  }

  /** Once the distance wraps around, clone is misjudged for some flags. */
  lemma WrappedJumpMisjudgesClone(p: Platform, networkAccess: bool, prog: seq<Instruction>)
    returns (d: SyscallData)
    requires Laid(p, networkAccess, prog) && !Fits(p, networkAccess)
    ensures Exec(prog, d) != Returned(Policy(p, networkAccess, d))
  {
    hide Run, Laid, Exec, Policy;
    var off: nat := Uint8(CloneDistance(p, networkAccess));
    CloneCallPolicy(p, networkAccess);
    RunWrappedClone(p, networkAccess, prog, off, 0);
    RunWrappedClone(p, networkAccess, prog, off, 0x1000_0000);
    d := if networkAccess || p.sysClone in p.blocked[off / 2..] || p.sysClone == p.sysSocket
         then CloneCall(p, 0) else CloneCall(p, 0x1000_0000);
  }

  /** The generated filter is right on every call exactly when the clone distance fits in 8 bits. */
  lemma CorrectExactlyWhenItFits(p: Platform, networkAccess: bool)
    ensures (forall d :: Exec(Compile(p, networkAccess), d) == Returned(Policy(p, networkAccess, d)))
            <==> Fits(p, networkAccess)
  {
    hide Run, Compile, Laid, Exec, Policy;
    if Fits(p, networkAccess) {
      forall d ensures Exec(Compile(p, networkAccess), d) == Returned(Policy(p, networkAccess, d)) {
        FilterImplementsPolicy(p, networkAccess, d);
      }
    } else {
      CompileIsLaid(p, networkAccess);
      var d := WrappedJumpMisjudgesClone(p, networkAccess, Compile(p, networkAccess));
    }
  }

  // ----- Installation -----

  /** What the kernel gets: the length is passed as uint16. */
  function Submitted(prog: seq<Instruction>): seq<Instruction> { prog[..|prog| % 0x1_0000] }

  /** A program cut short inside the list ends in a test, or in a test that skips past the end. */
  lemma CutIsRefused(p: Platform, networkAccess: bool, prog: seq<Instruction>, k: nat)
    requires Laid(p, networkAccess, prog) && k < 5 + 2 * |p.blocked|
    ensures !IsChecked(prog[..k])
  {
    LaidHasPairs(p, networkAccess, prog);
    hide BlockedCode, CloneCode, SocketCode, IsChecked, HasPairs, Head, CloneTest;
    if k >= 6 {
      CutInList(prog, p.blocked, k);
    } else {
      CutInHead(p, networkAccess, prog, k);
    }
  }

  lemma CutInList(prog: seq<Instruction>, blocked: seq<bv32>, k: nat)
    requires HasPairs(prog, blocked) && 6 <= k < 5 + 2 * |blocked| && k <= |prog|
    ensures !IsChecked(prog[..k])
  {
    hide IsChecked, HasPairs;
    if k % 2 == 1 {
      CutBehindReturn(prog, blocked, (k - 7) / 2);
    } else {
      CutBehindTest(prog, blocked, (k - 6) / 2);
    }
  }

  lemma CutInHead(p: Platform, networkAccess: bool, prog: seq<Instruction>, k: nat)
    requires k <= 5 < |prog| && prog[..4] == Head(p) && prog[4] == CloneTest(p, networkAccess)
    ensures !IsChecked(prog[..k])
  {
    if k > 0 {
      assert prog[..k][k - 1] == if k == 5 then prog[4] else prog[..4][k - 1];
      assert k == 3 ==> prog[..k][1] == prog[..4][1] && !InstructionAccepted(prog[..k][1], 1, 3);
    }
  }

  lemma CutBehindTest(prog: seq<Instruction>, blocked: seq<bv32>, i: nat)
    requires HasPairs(prog, blocked) && i < |blocked|
    ensures !IsChecked(prog[..6 + 2 * i])
  {
    assert prog[..6 + 2 * i][5 + 2 * i] == prog[5 + 2 * i] == Jeq(blocked[i], 0, 1);
  }

  lemma CutBehindReturn(prog: seq<Instruction>, blocked: seq<bv32>, i: nat)
    requires HasPairs(prog, blocked) && i < |blocked|
    ensures !IsChecked(prog[..7 + 2 * i])
  {
    assert prog[..7 + 2 * i][5 + 2 * i] == prog[5 + 2 * i] == Jeq(blocked[i], 0, 1);
    assert !InstructionAccepted(prog[..7 + 2 * i][5 + 2 * i], 5 + 2 * i, 7 + 2 * i);
  }

  /** A list so long that the length wraps around leaves a program that is refused as well. */
  lemma SubmittedIsAccepted(p: Platform, networkAccess: bool)
    ensures KernelAccepts(Submitted(Compile(p, networkAccess))) <==>
            2 * |p.blocked| + (if networkAccess then 15 else 20) <= 4096
  {
    CompileIsLaid(p, networkAccess);
    FilterIsAccepted(p, networkAccess);
    hide Compile, IsChecked, Laid;
    var prog := Compile(p, networkAccess);
    LaidLength(p, networkAccess, prog);
    if |prog| < 0x1_0000 {
      assert Submitted(prog) == prog;
    } else if |Submitted(prog)| <= BPF_MAXINSNS {
      CutIsRefused(p, networkAccess, prog, |prog| % 0x1_0000);
    }
  }

  lemma LaidLength(p: Platform, networkAccess: bool, prog: seq<Instruction>)
    requires Laid(p, networkAccess, prog)
    ensures |prog| == Length(p, networkAccess)
  {
  }

  /** Installation enforces the policy exactly if the clone distance fits in 8 bits: longer lists are
      first misjudged and then refused. */
  lemma InstalledExactly(p: Platform, networkAccess: bool)
    ensures var prog := Submitted(Compile(p, networkAccess));
            KernelAccepts(prog) && (forall d :: Exec(prog, d) == Returned(Policy(p, networkAccess, d)))
            <==> Fits(p, networkAccess)
  {
    hide Compile, Exec, Policy, KernelAccepts, Laid;
    SubmittedIsAccepted(p, networkAccess);
    CorrectExactlyWhenItFits(p, networkAccess);
    CompileIsLaid(p, networkAccess);
    LaidLength(p, networkAccess, Compile(p, networkAccess));
    if Length(p, networkAccess) <= BPF_MAXINSNS {
      assert Submitted(Compile(p, networkAccess)) == Compile(p, networkAccess);
    }
  }

  // ----- The two supported platforms -----

  const AMD64 := Platform(0xc000_003e, 56, 41,
    [435, 272, 308, 165, 166, 101, 161, 155, 246, 310, 311, 425, 426, 427, 29, 30, 31, 321, 323, 298])

  const ARM64 := Platform(0xc000_00b7, 220, 198,
    [435, 97, 268, 40, 39, 117, 51, 41, 104, 270, 271, 425, 426, 427, 194, 196, 195, 280, 282, 241])

  /** Filter construction panics on any other architecture. */
  function NativePlatform(goarch: string): Option<Platform> {
    if goarch == "amd64" then Some(AMD64) else if goarch == "arm64" then Some(ARM64) else None
  }

  /** The shipped lists are far below the limit, so the installed filter enforces the policy. */
  method InstallableFilter(goarch: string, networkAccess: bool) returns (filter: Option<seq<Instruction>>)
    ensures filter.Some? <==> goarch == "amd64" || goarch == "arm64"
    ensures filter.Some? ==> KernelAccepts(Submitted(filter.value))
    ensures goarch == "amd64" ==>
              forall d :: Exec(Submitted(filter.value), d) == Returned(Policy(AMD64, networkAccess, d))
    ensures goarch == "arm64" ==>
              forall d :: Exec(Submitted(filter.value), d) == Returned(Policy(ARM64, networkAccess, d))
  {
    hide KernelAccepts, Exec, Policy, Compile;
    match NativePlatform(goarch)
    case None => filter := None;
    case Some(p) =>
      var prog := BuildSeccompFilter(p, networkAccess);
      InstalledExactly(p, networkAccess);
      filter := Some(prog);
  }
}
