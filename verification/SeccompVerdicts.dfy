/** The filter in numbers: what the machine of `Seccomp` reads and runs, the program it gets, and the
    verdict on every call of the two supported platforms by syscall number. */
module SeccompVerdicts {
  import opened Common
  import opened Seccomp

  // ----- The machine -----

  /** struct seccomp_data as sixteen 32-bit words, the low half of each 64-bit field first. */
  lemma LoadsStruct(d: SyscallData)
    ensures Load(d, 0) == Some(d.nr) && Load(d, 4) == Some(d.arch)
    ensures LoadsField(d, 8, d.ip) && LoadsField(d, 16, d.a0) && LoadsField(d, 24, d.a1) && LoadsField(d, 32, d.a2)
    ensures LoadsField(d, 40, d.a3) && LoadsField(d, 48, d.a4) && LoadsField(d, 56, d.a5)
  {
    LoadsFront(d);
    LoadsMiddle(d);
    LoadsBack(d);
    hide Load, LoadsField;
  }

  predicate LoadsField(d: SyscallData, k: bv32, w: bv64) {
    Load(d, k) == Some(Low(w)) && Load(d, k + 4) == Some(High(w))
  }

  lemma LoadsFront(d: SyscallData)
    ensures Load(d, 0) == Some(d.nr) && Load(d, 4) == Some(d.arch)
    ensures LoadsField(d, 8, d.ip) && LoadsField(d, 16, d.a0)
  {
    hide Low, High;
  }

  lemma LoadsMiddle(d: SyscallData)
    ensures LoadsField(d, 24, d.a1) && LoadsField(d, 32, d.a2) && LoadsField(d, 40, d.a3)
  {
    hide Low, High;
  }

  lemma LoadsBack(d: SyscallData)
    ensures LoadsField(d, 48, d.a4) && LoadsField(d, 56, d.a5)
  {
    hide Low, High;
  }

  /** Every other load is a fault. */
  lemma LoadIsDefined(d: SyscallData, k: bv32)
    ensures Load(d, k).Some? <==> k & 3 == 0 && k < 64
  {
    AlignedBelow64(k);
    LoadOffsets(d, k);
    hide Load;
  }

  lemma LoadOffsets(d: SyscallData, k: bv32)
    ensures Load(d, k).Some? <==>
            k == 0 || k == 4 || k == 8 || k == 12 || k == 16 || k == 20 || k == 24 || k == 28
            || k == 32 || k == 36 || k == 40 || k == 44 || k == 48 || k == 52 || k == 56 || k == 60
  {
    hide Low, High;
  }

  lemma AlignedBelow64(k: bv32)
    ensures k & 3 == 0 && k < 64 <==>
            k == 0 || k == 4 || k == 8 || k == 12 || k == 16 || k == 20 || k == 24 || k == 28
            || k == 32 || k == 36 || k == 40 || k == 44 || k == 48 || k == 52 || k == 56 || k == 60
  {
  }

  /** The halves make up the word. */
  lemma HalvesMakeWord(w: bv64)
    ensures ((High(w) as bv64) << 32) | (Low(w) as bv64) == w
  {
  }

  /** The shortest program that is accepted is a return. */
  lemma ShortestAccepted(k: bv32)
    ensures KernelAccepts([Instruction(0x06, 0, 0, k)]) && !KernelAccepts([])
  {
    assert InstructionAccepted(Instruction(0x06, 0, 0, k), 0, 1);
  }

  /** What the kernel's check buys: an accepted program returns on every call. */
  lemma AcceptedReturns(prog: seq<Instruction>, d: SyscallData)
    requires KernelAccepts(prog)
    ensures Exec(prog, d).Returned?
  {
    CheckedReturns(prog, 0, 0, d);
  }

  lemma {:induction false} CheckedReturns(prog: seq<Instruction>, pc: nat, acc: bv32, d: SyscallData)
    requires IsChecked(prog) && pc < |prog|
    ensures Run(prog, pc, acc, d).Returned?
    decreases |prog| - pc
  {
    var next, acc' := CheckedStep(prog, pc, acc, d);
    hide Run, IsChecked;
    if !Run(prog, pc, acc, d).Returned? {
      CheckedReturns(prog, next, acc', d);
    }
  }

  /** An accepted instruction returns, or goes on further down the program. */
  lemma CheckedStep(prog: seq<Instruction>, pc: nat, acc: bv32, d: SyscallData) returns (next: nat, acc': bv32)
    requires IsChecked(prog) && pc < |prog|
    ensures Run(prog, pc, acc, d).Returned? || (pc < next < |prog| && Run(prog, pc, acc, d) == Run(prog, next, acc', d))
  {
    var i := prog[pc];
    next, acc' := pc + 1, acc;
    LastIsReturn(prog, pc);
    OperandFits(i, pc, |prog|, d);
    hide Run, Load, IsChecked, InstructionAccepted;
    if i.code == BPF_RET | BPF_K {
      RunsReturn(prog, pc, acc, d);
    } else if i.code == BPF_LD_W {
      RunsLoad(prog, pc, acc, d);
      acc' := Load(d, i.k).value;
    } else if i.code == BPF_ALU_AND | BPF_K {
      RunsAnd(prog, pc, acc, d);
      acc' := acc & i.k;
    } else {
      RunsJump(prog, pc, acc, d);
      next := pc + 1 + if acc == i.k then i.jt else i.jf;
    }
  }

  lemma RunsReturn(prog: seq<Instruction>, pc: nat, acc: bv32, d: SyscallData)
    requires pc < |prog| && prog[pc].code == BPF_RET | BPF_K
    ensures Run(prog, pc, acc, d) == Returned(prog[pc].k)
  {
    hide Load;
  }

  lemma RunsLoad(prog: seq<Instruction>, pc: nat, acc: bv32, d: SyscallData)
    requires pc < |prog| && prog[pc].code == BPF_LD_W && Load(d, prog[pc].k).Some?
    ensures Run(prog, pc, acc, d) == Run(prog, pc + 1, Load(d, prog[pc].k).value, d)
  {
    hide Load;
  }

  lemma RunsAnd(prog: seq<Instruction>, pc: nat, acc: bv32, d: SyscallData)
    requires pc < |prog| && prog[pc].code == BPF_ALU_AND | BPF_K
    ensures Run(prog, pc, acc, d) == Run(prog, pc + 1, acc & prog[pc].k, d)
  {
    hide Load;
  }

  lemma RunsJump(prog: seq<Instruction>, pc: nat, acc: bv32, d: SyscallData)
    requires pc < |prog| && prog[pc].code == BPF_JMP | BPF_JEQ_K
    ensures Run(prog, pc, acc, d) == Run(prog, pc + 1 + if acc == prog[pc].k then prog[pc].jt else prog[pc].jf, acc, d)
  {
    hide Load;
  }

  lemma OperandFits(i: Instruction, pc: nat, length: nat, d: SyscallData)
    requires InstructionAccepted(i, pc, length)
    ensures i.code == BPF_LD_W || i.code == BPF_ALU_AND | BPF_K || i.code == BPF_RET | BPF_K || i.code == BPF_JMP | BPF_JEQ_K
    ensures i.code == BPF_LD_W ==> Load(d, i.k).Some?
    ensures i.code == BPF_JMP | BPF_JEQ_K ==> pc + 1 + i.jt < length && pc + 1 + i.jf < length
  {
    LoadIsDefined(d, i.k);
    hide Load;
  }

  lemma LastIsReturn(prog: seq<Instruction>, pc: nat)
    requires IsChecked(prog) && pc < |prog|
    ensures InstructionAccepted(prog[pc], pc, |prog|) && (prog[pc].code == BPF_RET | BPF_K || pc + 1 < |prog|)
  {
    hide InstructionAccepted;
  }

  // ----- The program -----

  /** The whole program for a list of one syscall, number by number. */
  lemma ShortProgram(arch: bv32, clone: bv32, socket: bv32, blocked: bv32)
    ensures Compile(Platform(arch, clone, socket, [blocked]), false) ==
            [Instruction(0x20, 0, 0, 4), Instruction(0x15, 1, 0, arch), Instruction(0x06, 0, 0, 0),
             Instruction(0x20, 0, 0, 0), Instruction(0x15, 4, 0, clone),
             Instruction(0x15, 0, 1, blocked), Instruction(0x06, 0, 0, 0x0005_0001),
             Instruction(0x15, 10, 0, socket), Instruction(0x06, 0, 0, 0x7fff_0000),
             Instruction(0x20, 0, 0, 16), Instruction(0x54, 0, 0, 0x1000_0000),
             Instruction(0x15, 0, 1, 0x1000_0000), Instruction(0x06, 0, 0, 0x0005_0001),
             Instruction(0x20, 0, 0, 16), Instruction(0x54, 0, 0, 0x4000_0000),
             Instruction(0x15, 0, 1, 0x4000_0000), Instruction(0x06, 0, 0, 0x0005_0001),
             Instruction(0x06, 0, 0, 0x7fff_0000),
             Instruction(0x20, 0, 0, 16), Instruction(0x15, 1, 0, 1),
             Instruction(0x06, 0, 0, 0x0005_0001), Instruction(0x06, 0, 0, 0x7fff_0000)]
  {
  }

  // ----- The verdicts -----

  const ALLOW: bv32 := 0x7fff_0000
  const DENY: bv32 := 0x0005_0001 // errno 1, EPERM
  const KILL: bv32 := 0

  /** clone with a new user or network namespace is denied; socket is denied for any domain but 1
      (AF_UNIX) unless the network is allowed. */
  function Verdict(clone: bv32, socket: bv32, denied: seq<bv32>, networkAccess: bool, nr: bv32, arg0: bv64): bv32 {
    if nr == clone then (if arg0 & 0x1000_0000 != 0 || arg0 & 0x4000_0000 != 0 then DENY else ALLOW)
    else if nr in denied then DENY
    else if nr == socket then (if !networkAccess && arg0 & 0xffff_ffff != 1 then DENY else ALLOW)
    else ALLOW
  }

  lemma PolicyVerdict(p: Platform, networkAccess: bool, d: SyscallData)
    requires d.arch == p.auditArch
    ensures Policy(p, networkAccess, d) == Verdict(p.sysClone, p.sysSocket, p.blocked, networkAccess, d.nr, d.a0)
  {
    LowBits(d.a0);
    hide Low;
  }

  /** x86-64: clone is 56 and socket 41. Denied are clone3, unshare, setns, mount, umount2, ptrace,
      chroot, pivot_root, kexec_load, process_vm_readv and writev, the three of io_uring, shmget,
      shmat, shmctl, bpf, userfaultfd and perf_event_open. */
  lemma Amd64Verdicts(networkAccess: bool, d: SyscallData)
    ensures Exec(Compile(AMD64, networkAccess), d) == Returned(
              if d.arch != 0xc000_003e then KILL
              else Verdict(56, 41, [435, 272, 308, 165, 166, 101, 161, 155, 246, 310, 311, 425, 426, 427, 29, 30, 31,
                                    321, 323, 298], networkAccess, d.nr, d.a0))
  {
    hide Exec, Compile, Low, Verdict;
    FilterImplementsPolicy(AMD64, networkAccess, d);
    if d.arch == 0xc000_003e {
      PolicyVerdict(AMD64, networkAccess, d);
    }
  }

  /** The same calls on arm64, where clone is 220 and socket 198. */
  lemma Arm64Verdicts(networkAccess: bool, d: SyscallData)
    ensures Exec(Compile(ARM64, networkAccess), d) == Returned(
              if d.arch != 0xc000_00b7 then KILL
              else Verdict(220, 198, [435, 97, 268, 40, 39, 117, 51, 41, 104, 270, 271, 425, 426, 427, 194, 196, 195,
                                      280, 282, 241], networkAccess, d.nr, d.a0))
  {
    hide Exec, Compile, Low, Verdict;
    FilterImplementsPolicy(ARM64, networkAccess, d);
    if d.arch == 0xc000_00b7 {
      PolicyVerdict(ARM64, networkAccess, d);
    }
  }

  /** On both platforms clone and socket are different calls and not among the denied ones. */
  lemma NumbersAreDistinct()
    ensures AMD64.sysClone != AMD64.sysSocket && AMD64.sysClone !in AMD64.blocked && AMD64.sysSocket !in AMD64.blocked
    ensures ARM64.sysClone != ARM64.sysSocket && ARM64.sysClone !in ARM64.blocked && ARM64.sysSocket !in ARM64.blocked
  {
    Amd64CloneIsNotDenied();
    Amd64SocketIsNotDenied();
    Arm64CloneIsNotDenied();
    Arm64SocketIsNotDenied();
    hide AMD64, ARM64;
    DifferentCalls();
  }

  lemma DifferentCalls()
    ensures AMD64.sysClone != AMD64.sysSocket && ARM64.sysClone != ARM64.sysSocket
  {
  }

  lemma Amd64CloneIsNotDenied()
    ensures AMD64.sysClone !in AMD64.blocked
  {
  }

  lemma Amd64SocketIsNotDenied()
    ensures AMD64.sysSocket !in AMD64.blocked
  {
  }

  lemma Arm64CloneIsNotDenied()
    ensures ARM64.sysClone !in ARM64.blocked
  {
  }

  lemma Arm64SocketIsNotDenied()
    ensures ARM64.sysSocket !in ARM64.blocked
  {
  }

  lemma LowBits(w: bv64)
    ensures Low(w) & 0x1000_0000 != 0 <==> w & 0x1000_0000 != 0
    ensures Low(w) & 0x4000_0000 != 0 <==> w & 0x4000_0000 != 0
    ensures Low(w) == 1 <==> w & 0xffff_ffff == 1
  {
  }

  /** Single calls: what the agent's sandbox is for. */
  lemma SandboxExamples(d: SyscallData)
    requires d.arch == 0xc000_003e
    ensures d.nr == 41 && d.a0 == 2 ==> Exec(Compile(AMD64, false), d) == Returned(DENY)   // socket(AF_INET)
    ensures d.nr == 41 && d.a0 == 2 ==> Exec(Compile(AMD64, true), d) == Returned(ALLOW)
    ensures d.nr == 41 && d.a0 == 1 ==> Exec(Compile(AMD64, false), d) == Returned(ALLOW)  // socket(AF_UNIX)
    ensures d.nr == 56 && d.a0 == 0x1000_0000 ==> Exec(Compile(AMD64, true), d) == Returned(DENY)
    ensures d.nr == 56 && d.a0 == 0x3d_0f00 ==> Exec(Compile(AMD64, false), d) == Returned(ALLOW) // a thread
  {
    hide Exec, Compile;
    Amd64Verdicts(false, d);
    Amd64Verdicts(true, d);
  }
}
