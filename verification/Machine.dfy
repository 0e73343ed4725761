/** The VM object of src/kvm/kvm.c: guest memory and vCPU table as mini_kvm_run sets
    them up, and the command handlers of src/commands/status.c on its fields. */
module Machine {
  import opened Text
  import opened Vectors
  import opened Paging
  import opened DumpLoops
  import opened Dump
  import opened DumpGuest
  import opened Errors
  import opened Lifecycle

  const CR0_PE: bv64 := 0x1
  const CR0_PG: bv64 := 0x8000_0000
  const CR4_PAE: bv64 := 0x20
  const EFER_LME: bv64 := 0x100
  const EFER_LMA: bv64 := 0x400
  const PT_ADDR_MASK: bv64 := 0xf_ffff_ffff_f000
  const PT_RW: bv64 := 0x2
  const PT_PRESENT: bv64 := 0x1
  const PT_PAGE_SIZE: bv64 := 0x80

  datatype Segment = Segment(
    base: nat, limit: nat, selector: nat, kind: nat,
    present: bool, dpl: nat, db: bool, s: bool, l: bool, g: bool)

  datatype Sregs = Sregs(
    cr0: bv64, cr3: nat, cr4: bv64, efer: bv64,
    cs: Segment, ds: Segment, es: Segment, fs: Segment, gs: Segment, ss: Segment)

  datatype Regs = Regs(rip: nat, rsp: nat, rbp: nat, rflags: nat)

  datatype VCpu = VCpu(id: nat, regs: Regs, sregs: Sregs)

  /** mini_kvm_setup_vcpu, given what KVM_GET_SREGS returns. */
  function FreshVcpu(id: nat, memSize: nat, host: Sregs): VCpu
    requires memSize > 0
  {
    VCpu(id, Regs(BOOTLOADER_ADDR, memSize - 1, memSize - 1, 1),
         host.(cs := Flat(host.cs), ds := Flat(host.ds), ss := Flat(host.ss)))
  }

  function Flat(s: Segment): Segment {
    s.(selector := 0, base := 0)
  }

  /** The control registers that mini_kvm_configure_paging gives the first vCPU. */
  function Paged(s: Sregs): Sregs {
    var code := Segment(0, 0xffff_ffff, 0x8, 11, true, 0, false, true, true, true);
    var data := code.(selector := 0x10, kind := 0x3);
    Sregs(CR0_PE | CR0_PG, PLM4_ADDR, CR4_PAE, EFER_LME | EFER_LMA, code, data, data, data, data, s.ss)
  }

  /** The processor uses 4-level paging: section 4.1.1 of the Intel SDM, volume 3A. */
  predicate FourLevel(s: Sregs) {
    && s.cr0 & CR0_PE != 0 && s.cr0 & CR0_PG != 0
    && s.cr4 & CR4_PAE != 0 && s.cr4 & 0x1000 == 0
    && s.efer & EFER_LME != 0 && s.efer & EFER_LMA != 0
    && s.cs.l && s.cs.base == 0
  }

  lemma PagedIsFourLevel(s: Sregs)
    ensures FourLevel(Paged(s)) && Paged(s).cr3 == PLM4_ADDR
  {
  }

  // ----- memory primitives -----

  method MemSet(a: array<byte>, at: nat, n: nat, value: byte)
    requires at + n <= a.Length
    modifies a
    ensures forall i :: 0 <= i < a.Length ==> a[i] == if at <= i < at + n then value else old(a[i])
  {
    for k := 0 to n
      invariant forall i :: 0 <= i < a.Length ==> a[i] == if at <= i < at + k then value else old(a[i])
    {
      a[at + k] := value;
    }
  }

  method MemCpy(a: array<byte>, at: nat, src: seq<byte>)
    requires at + |src| <= a.Length
    modifies a
    ensures forall i :: 0 <= i < a.Length ==> a[i] == if at <= i < at + |src| then src[i - at] else old(a[i])
  {
    for k := 0 to |src|
      invariant forall i :: 0 <= i < a.Length ==> a[i] == if at <= i < at + k then src[i - at] else old(a[i])
    {
      a[at + k] := src[k];
    }
  }

  /** Byte j of a 64-bit value. */
  function ByteOf(value: nat, j: nat): byte {
    match j
    case 0 => value % 0x100
    case 1 => value / 0x100 % 0x100
    case 2 => value / 0x1_0000 % 0x100
    case 3 => value / 0x100_0000 % 0x100
    case 4 => value / 0x1_0000_0000 % 0x100
    case 5 => value / 0x100_0000_0000 % 0x100
    case 6 => value / 0x1_0000_0000_0000 % 0x100
    case _ => value / 0x100_0000_0000_0000 % 0x100
  }

  /** A little-endian 64-bit store. */
  method Store64(a: array<byte>, at: nat, value: nat)
    requires at + 8 <= a.Length && value < U64
    modifies a
    ensures forall i :: 0 <= i < a.Length ==>
              a[i] == if at <= i < at + 8 then ByteOf(value, i - at) else old(a[i])
  {
    for j := 0 to 8
      invariant forall i :: 0 <= i < a.Length ==>
                  a[i] == if at <= i < at + j then ByteOf(value, i - at) else old(a[i])
    {
      a[at + j] := ByteOf(value, j);
    }
  }

  // The entries, composed as the source composes them: an address in 0x2000 and 0x3000
  // for the two upper tables, a large page at 0 for the third.

  const PML4_ENTRY: bv64 := (0x2000 & PT_ADDR_MASK) | PT_PRESENT | PT_RW
  const PDPT_ENTRY: bv64 := (0x3000 & PT_ADDR_MASK) | PT_PRESENT | PT_RW
  const PDT_ENTRY: bv64 := PT_PAGE_SIZE | PT_PRESENT | PT_RW

  lemma EntryValues()
    ensures PML4_ENTRY as int == 0x2003 && PDPT_ENTRY as int == 0x3003 && PDT_ENTRY as int == 0x83
  {
  }

  /** kvm_setup_pages on a guest memory at the head of mem: refused when too small,
      otherwise memory with the three tables written over it. */
  method SetupPages(mem: array<byte>, memSize: nat) returns (ret: int)
    requires memSize <= mem.Length
    modifies mem
    ensures ret == if memSize < 0x5000 then NOT_ENOUGH_MEMORY else SUCCESS
    ensures memSize < 0x5000 ==> mem[..] == old(mem[..])
    ensures memSize >= 0x5000 ==> mem[..] == WithTables(old(mem[..]))
  {
    var plm4, pdpt, pdt := PLM4_ADDR, PLM4_ADDR + 0x1000, PLM4_ADDR + 0x2000;
    if memSize < MINIMUM_MEMORY_REQUIRED {
      return NOT_ENOUGH_MEMORY;
    }
    MemSet(mem, plm4, 3 * 0x1000, 0);
    EntryValues();
    Store64(mem, plm4, PML4_ENTRY as int);
    Store64(mem, pdpt, PDPT_ENTRY as int);
    Store64(mem, pdt, PDT_ENTRY as int);
    TablesAre(old(mem[..]), mem[..]);
    ret := SUCCESS;
  }

  lemma TablesAre(before: Memory, after: Memory)
    requires |before| == |after| >= BOOTLOADER_ADDR
    requires forall i :: 0 <= i < |after| ==>
               after[i] == if PLM4_ADDR <= i < BOOTLOADER_ADDR then TableByte(i) else before[i]
    ensures after == WithTables(before)
  {
  }

  // ----- what the shared fields become, command by command -----

  /** The fields that commands change. */
  datatype Shared = Shared(vm: VmState, paused: bool, lockLog: seq<LockOp>)

  function Handled(c: Command, s: Shared): Shared {
    match c
    case CmdPause => Shared(Paused, true, s.lockLog + [Lock])
    case CmdResume => Shared(Running, false, s.lockLog + [Unlock])
    case CmdShutdown =>
      Shared(Shutdown, false, if s.paused then s.lockLog + [Unlock] else s.lockLog)
    case _ => s
  }

  /** mem is host memory from the first byte of guest memory on; the guest's are its
      first memSize bytes. */
  class Kvm {
    const mem: array<byte>
    const memSize: nat
    const vcpus: Vec<VCpu>
    var state: VmState
    var paused: bool
    ghost var lockLog: seq<LockOp>

    ghost predicate Valid()
      reads this, vcpus
    {
      vcpus.Valid() && 0 < memSize <= mem.Length && vcpus.tab as object != mem
    }

    ghost function SharedFields(): Shared
      reads this
    {
      Shared(state, paused, lockLog)
    }

    /** mini_kvm_setup_kvm: zeroed memory of the given size, whatever lies beyond it in
        the host, no vCPU. */
    constructor (size: nat, beyond: seq<byte>)
      requires size > 0
      ensures Valid() && fresh(mem) && fresh(vcpus) && fresh(vcpus.tab)
      ensures memSize == size && mem[..] == ZeroMemory(size) + beyond
      ensures vcpus.View().items == []
      ensures SharedFields() == Shared(Paused, false, [])
    {
      var all := ZeroMemory(size) + beyond;
      mem := new byte[|all|](i requires 0 <= i < |all| => all[i]);
      memSize := size;
      vcpus := new Vec();
      state := Paused;
      paused := false;
      lockLog := [];
    }

    /** mini_kvm_add_vcpu. */
    method AddVcpu(host: Sregs)
      requires Valid()
      modifies vcpus, vcpus.tab
      ensures Valid() && (vcpus.tab == old(vcpus.tab) || fresh(vcpus.tab))
      ensures vcpus.View().items ==
                old(vcpus.View().items) + [FreshVcpu(|old(vcpus.View().items)|, memSize, host)]
    {
      hide FreshVcpu, Appended;
      var vcpu := FreshVcpu(vcpus.len, memSize, host);
      AppendedItems(vcpus.View(), vcpu);
      vcpus.Append(vcpu);
    }

    /** mini_kvm_configure_paging: tables in memory, control registers of vCPU 0. */
    method ConfigurePaging() returns (ret: int)
      requires Valid() && vcpus.len > 0
      modifies mem, vcpus.tab
      ensures ret == if memSize < MINIMUM_MEMORY_REQUIRED then NOT_ENOUGH_MEMORY else SUCCESS
      ensures ret != SUCCESS ==> mem[..] == old(mem[..]) && vcpus.View() == old(vcpus.View())
      ensures ret == SUCCESS ==>
                && mem[..] == WithTables(old(mem[..]))
                && vcpus.View().items ==
                   old(vcpus.View().items)[0 := old(vcpus.tab[0]).(sregs := Paged(old(vcpus.tab[0].sregs)))]
    {
      ret := SetupPages(mem, memSize);
      if ret != SUCCESS {
        return;
      }
      vcpus.tab[0] := vcpus.tab[0].(sregs := Paged(vcpus.tab[0].sregs));
    }

    /** load_kernel at the load address. */
    method LoadKernel(image: seq<byte>) returns (ret: int)
      requires BOOTLOADER_ADDR + |image| <= memSize <= mem.Length
      modifies mem
      ensures ret == if image == [] then INTERNAL_ERROR else SUCCESS
      ensures mem[..] == WithImage(old(mem[..]), image, BOOTLOADER_ADDR)
    {
      if |image| == 0 {
        return INTERNAL_ERROR;
      }
      MemCpy(mem, BOOTLOADER_ADDR, image);
      ret := SUCCESS;
    }

    // ----- command handlers -----

    method PauseVm()
      modifies this`paused, this`lockLog
      ensures paused && lockLog == old(lockLog) + [Lock]
    {
      lockLog := lockLog + [Lock];
      paused := true;
    }

    method ResumeVm()
      modifies this`paused, this`lockLog
      ensures !paused && lockLog == old(lockLog) + [Unlock]
    {
      paused := false;
      lockLog := lockLog + [Unlock];
    }

    /** The dump is served, and reads host memory that is there. */
    predicate Reads(c: Command, served: bool)
      reads this
    {
      c.CmdDump? && state == Paused && served ==>
        Sized(c.range) && (c.range.word <= SIGN32 ==> ReadsBelow(c.range, memSize, mem.Length))
    }

    /** mini_kvm_status_handle_command with no vCPU in between; res is the state field
        of the reply and text what a dump writes to the client. served says whether the
        system calls behind SHOW_REGS and DUMP_MEM succeed: reading the registers, and
        opening the client's output. */
    method HandleCommand(c: Command, before: VmState, served: bool)
      returns (ret: int, res: VmState, text: string)
      requires memSize <= mem.Length && Reads(c, served)
      modifies this
      ensures SharedFields() == Handled(c, old(SharedFields()))
      ensures res == if c.CmdState? then old(state) else before
      ensures ret == if !c.CmdRegs? && !c.CmdDump? then SUCCESS
                     else if old(state) != Paused then STATUS_CMD_VM_NOT_PAUSED
                     else if served then SUCCESS else INTERNAL_ERROR
      ensures !(c.CmdDump? && old(state) == Paused && served) ==> text == ""
      ensures c.CmdDump? && old(state) == Paused && served ==>
                && text == LoopText(mem[..], Aligned(c.range, memSize))
                && (Confined(c.range, memSize) ==> text == ServedText(mem[..memSize], c.range))
                && (Inside(c.range, memSize) ==> text == TextOf(mem[..memSize], memSize, c.range))
    {
      hide ReadsBelow, Aligned, LoopText, TextOf, Inside, Confined, ServedText;
      ret, res, text := SUCCESS, before, "";
      match c {
        case CmdNone =>
        case CmdPause =>
          state := Paused;
          PauseVm();
        case CmdResume =>
          state := Running;
          ResumeVm();
        case CmdShutdown =>
          state := Shutdown;
          if paused {
            ResumeVm();
          }
        case CmdState =>
          res := state;
        case CmdRegs =>
          if state != Paused {
            ret := STATUS_CMD_VM_NOT_PAUSED;
          } else if !served {
            ret := INTERNAL_ERROR;
          }
        case CmdDump(range) =>
          if state != Paused {
            ret := STATUS_CMD_VM_NOT_PAUSED;
          } else if served {
            text := DumpMem(mem, memSize, range);
            if Confined(range, memSize) {
              ConfinedText(mem[..], memSize, range);
            }
            if Inside(range, memSize) {
              GuestText(mem[..], memSize, range);
            }
          } else {
            ret := INTERNAL_ERROR;
          }
      }
    }
  }

  // ----- the set-up of mini_kvm_run -----

  function ZeroMemory(n: nat): Memory {
    seq<byte>(n, _ => 0)
  }

  /** Guest memory when the VM starts. */
  function BootMemory(memSize: nat, kernel: seq<byte>): Memory
    requires memSize >= MINIMUM_MEMORY_REQUIRED && BOOTLOADER_ADDR + |kernel| <= memSize
  {
    WithImage(WithTables(ZeroMemory(memSize)), kernel, BOOTLOADER_ADDR)
  }

  /** The vCPU table when the VM starts: paging is on for the first only. */
  function BootVcpu(i: nat, memSize: nat, host: Sregs): VCpu
    requires memSize > 0
  {
    var v := FreshVcpu(i, memSize, host);
    if i == 0 then v.(sregs := Paged(v.sregs)) else v
  }

  predicate FreshTable(items: seq<VCpu>, memSize: nat, host: Sregs)
    requires memSize > 0
  {
    forall i :: 0 <= i < |items| ==> items[i] == FreshVcpu(i, memSize, host)
  }

  lemma OneMoreFresh(items: seq<VCpu>, memSize: nat, host: Sregs)
    requires memSize > 0 && FreshTable(items, memSize, host)
    ensures FreshTable(items + [FreshVcpu(|items|, memSize, host)], memSize, host)
  {
    hide FreshVcpu;
  }

  method AddVcpus(kvm: Kvm, count: nat, host: Sregs)
    requires kvm.Valid() && kvm.vcpus.View().items == []
    modifies kvm.vcpus, kvm.vcpus.tab
    ensures kvm.Valid() && (kvm.vcpus.tab == old(kvm.vcpus.tab) || fresh(kvm.vcpus.tab))
    ensures |kvm.vcpus.View().items| == count
    ensures FreshTable(kvm.vcpus.View().items, kvm.memSize, host)
  {
    hide FreshVcpu, FreshTable;
    NoneFresh(kvm.memSize, host);
    ghost var items: seq<VCpu> := [];
    for i := 0 to count
      invariant kvm.Valid() && (kvm.vcpus.tab == old(kvm.vcpus.tab) || fresh(kvm.vcpus.tab))
      invariant kvm.vcpus.View().items == items && |items| == i && FreshTable(items, kvm.memSize, host)
    {
      OneMoreFresh(items, kvm.memSize, host);
      kvm.AddVcpu(host);
      items := items + [FreshVcpu(|items|, kvm.memSize, host)];
    }
  }

  lemma NoneFresh(memSize: nat, host: Sregs)
    requires memSize > 0
    ensures FreshTable([], memSize, host)
  {
  }

  lemma BootTable(items: seq<VCpu>, booted: seq<VCpu>, memSize: nat, host: Sregs)
    requires memSize > 0 && |items| > 0 && FreshTable(items, memSize, host)
    requires booted == items[0 := items[0].(sregs := Paged(items[0].sregs))]
    ensures forall i :: 0 <= i < |booted| ==> booted[i] == BootVcpu(i, memSize, host)
  {
    hide FreshVcpu, Paged;
  }

  /** What lies beyond guest memory is not touched by the set-up. */
  lemma BootKeepsBeyond(memSize: nat, kernel: seq<byte>, beyond: seq<byte>)
    requires memSize >= MINIMUM_MEMORY_REQUIRED && BOOTLOADER_ADDR + |kernel| <= memSize
    ensures WithImage(WithTables(ZeroMemory(memSize) + beyond), kernel, BOOTLOADER_ADDR) ==
              BootMemory(memSize, kernel) + beyond
  {
    var z := ZeroMemory(memSize);
    assert WithTables(z + beyond) == WithTables(z) + beyond;
    ImageKeepsBeyond(WithTables(z), kernel, beyond);
  }

  lemma ImageKeepsBeyond(m: Memory, image: seq<byte>, beyond: seq<byte>)
    requires BOOTLOADER_ADDR + |image| <= |m|
    ensures WithImage(m + beyond, image, BOOTLOADER_ADDR) == WithImage(m, image, BOOTLOADER_ADDR) + beyond
  {
  }

  /** mini_kvm_run up to the main loop: memory, vCPUs, paging, kernel, in that order.
      At least one vCPU is always asked for, and the kernel must fit. */
  method BootVm(memSize: nat, vcpuCount: nat, kernel: seq<byte>, host: Sregs, beyond: seq<byte>)
    returns (ret: int, kvm: Kvm?)
    requires vcpuCount >= 1
    requires memSize >= MINIMUM_MEMORY_REQUIRED ==> BOOTLOADER_ADDR + |kernel| <= memSize
    ensures ret == if memSize == 0 then FAILED_ALLOCATION
                   else if memSize < MINIMUM_MEMORY_REQUIRED then NOT_ENOUGH_MEMORY
                   else if kernel == [] then INTERNAL_ERROR
                   else SUCCESS
    ensures ret == SUCCESS ==>
              && kvm != null && fresh(kvm) && kvm.Valid() && kvm.memSize == memSize
              && kvm.SharedFields() == Shared(Paused, false, [])
              && kvm.mem[..] == BootMemory(memSize, kernel) + beyond
              && |kvm.vcpus.View().items| == vcpuCount
              && forall i :: 0 <= i < vcpuCount ==> kvm.vcpus.View().items[i] == BootVcpu(i, memSize, host)
  {
    hide FreshVcpu, Paged, WithTables, WithImage, ZeroMemory, BootMemory, BootVcpu, FreshTable;
    if memSize == 0 {
      return FAILED_ALLOCATION, null;
    }
    var vm := new Kvm(memSize, beyond);
    AddVcpus(vm, vcpuCount, host);
    ghost var items := vm.vcpus.View().items;
    ret := vm.ConfigurePaging();
    if ret != SUCCESS {
      return ret, null;
    }
    BootTable(items, vm.vcpus.View().items, memSize, host);
    ret := vm.LoadKernel(kernel);
    BootKeepsBeyond(memSize, kernel, beyond);
    kvm := vm;
  }

  /** From the first instruction on, the boot vCPU sees the kernel: its paging is the
      4-level walk, that walk is the identity below 2 MiB, and a fetch at rip + i gives
      kernel byte i for exactly the bytes below 2 MiB. */
  lemma BootFetch(memSize: nat, kernel: seq<byte>, host: Sregs, i: nat)
    requires memSize >= MINIMUM_MEMORY_REQUIRED && BOOTLOADER_ADDR + |kernel| <= memSize
    requires i < |kernel| && Canonical(BOOTLOADER_ADDR + i)
    ensures var v := BootVcpu(0, memSize, host);
            && FourLevel(v.sregs)
            && Fetch(BootMemory(memSize, kernel), v.sregs.cr3, v.regs.rip + i) ==
                 if BOOTLOADER_ADDR + i < MAPPED_END then Byte(kernel[i]) else PageFault
  {
    hide Fetch, WithTables, WithImage, Paged, FourLevel;
    PagedIsFourLevel(FreshVcpu(0, memSize, host).sregs);
    BootImageAgrees(ZeroMemory(memSize), kernel, i);
  }

  /** The boot vCPU's stack pointer, mem_size - 1, is a mapped address exactly when the
      memory is no larger than the 2 MiB that are mapped. */
  lemma BootStack(memSize: nat, kernel: seq<byte>, host: Sregs)
    requires memSize >= MINIMUM_MEMORY_REQUIRED && BOOTLOADER_ADDR + |kernel| <= memSize
    requires Canonical(memSize - 1)
    ensures var v := BootVcpu(0, memSize, host);
            Walk(BootMemory(memSize, kernel), v.sregs.cr3, v.regs.rsp).Mapped? <==> memSize <= MAPPED_END
  {
    hide Walk, WithTables, WithImage, Paged, FourLevel, Installed;
    PagedIsFourLevel(FreshVcpu(0, memSize, host).sregs);
    ImageKeepsTables(WithTables(ZeroMemory(memSize)), kernel);
    IdentityMap(BootMemory(memSize, kernel), memSize - 1);
  }

  // ----- the registers when the VM starts -----

  // Segment descriptors: section 3.4.5 of the Intel SDM, volume 3A.

  /** A segment of the flat 64-bit model at privilege 0, named by entry n of the global
      descriptor table. */
  predicate FlatLong(g: Segment, n: nat) {
    && g.base == 0 && g.limit == 0xffff_ffff && g.g
    && g.present && g.s && g.l && !g.db
    && g.selector / 8 == n && g.selector / 4 % 2 == 0 && g.selector % 4 == 0 && g.dpl == 0
  }

  /** Type bits 3 (code) and 1 (readable). */
  predicate ReadableCode(g: Segment) {
    g.kind / 8 % 2 == 1 && g.kind / 2 % 2 == 1
  }

  /** Type bits 3 (code) and 1 (writable). */
  predicate WritableData(g: Segment) {
    g.kind / 8 % 2 == 0 && g.kind / 2 % 2 == 1
  }

  /** The boot vCPU runs 64-bit code from entry 1 and has writable data in the other
      segments from entry 2; its control registers switch on 4-level paging from 0x1000 and
      nothing else. */
  lemma BootSegments(memSize: nat, host: Sregs)
    requires memSize > 0
    ensures var v := BootVcpu(0, memSize, host).sregs;
            && FlatLong(v.cs, 1) && ReadableCode(v.cs)
            && FlatLong(v.ds, 2) && WritableData(v.ds) && v.es == v.ds && v.fs == v.ds && v.gs == v.ds
            && v.ss == host.ss.(base := 0, selector := 0)
            && FourLevel(v) && v.cr3 == 0x1000
            && v.cr0 == 0x8000_0001 && v.cr4 == 0x20 && v.efer == 0x500
  {
    hide FourLevel;
    PagedIsFourLevel(FreshVcpu(0, memSize, host).sregs);
  }

  /** A segment as real mode forms it: section 20.1.1 of the Intel SDM, volume 3B. */
  predicate RealMode(g: Segment) {
    g.base == 16 * g.selector
  }

  /** Every vCPU starts at the load address with an empty stack at the end of memory and
      no flag but the lowest; all but the first in the mode the host gave, with code, data
      and stack segments at 0, and the other registers as the host gave them. */
  lemma BootRegisters(i: nat, memSize: nat, host: Sregs)
    requires memSize > 0
    ensures var v := BootVcpu(i, memSize, host);
            && v.id == i && v.sregs.cs.base + v.regs.rip == 0x4000
            && v.regs.rsp == v.regs.rbp && v.regs.rsp + 1 == memSize && v.regs.rflags == 1
            && RealMode(v.sregs.ss) && v.sregs.ss.base == 0
    ensures i > 0 ==>
              var g := BootVcpu(i, memSize, host).sregs;
              && RealMode(g.cs) && RealMode(g.ds) && g.cs.base == 0 && g.ds.base == 0
              && g == host.(cs := g.cs, ds := g.ds, ss := g.ss)
              && g.cs == host.cs.(base := g.cs.base, selector := g.cs.selector)
              && g.ds == host.ds.(base := g.ds.base, selector := g.ds.selector)
  {
  }

  /** Guest memory when the VM starts holds the tables, the kernel, and zeros. */
  lemma BootRest(memSize: nat, kernel: seq<byte>, i: nat)
    requires memSize >= MINIMUM_MEMORY_REQUIRED && BOOTLOADER_ADDR + |kernel| <= memSize && i < memSize
    ensures var m := BootMemory(memSize, kernel);
            && |m| == memSize
            && (0x4000 <= i < 0x4000 + |kernel| ==> m[i] == kernel[i - 0x4000])
            && (i < 0x1000 || 0x4000 + |kernel| <= i ==> m[i] == 0)
  {
    var z := ZeroMemory(memSize);
    assert i < PLM4_ADDR ==> WithTables(z)[..PLM4_ADDR][i] == 0;
    assert i >= BOOTLOADER_ADDR ==> WithTables(z)[BOOTLOADER_ADDR..][i - BOOTLOADER_ADDR] == 0;
  }

  // ----- handlers and the interleaving model agree -----

  /** Only main moves, and no other thread, client or signal. */
  predicate OnlyMain(r: Run) {
    r.Then? ==> (r.step.Main? || r.step.StrayDump? || r.step.NoOutput?) && OnlyMain(r.before)
  }

  lemma TakeMain(r: Run, step: Step, s: State) returns (r': Run)
    requires Valid(r) && OnlyMain(r) && (step.Main? || step.StrayDump? || step.NoOutput?)
    requires Enabled(Last(r), step) && Apply(Last(r), step) == s
    ensures Valid(r') && OnlyMain(r') && Last(r') == s && First(r') == First(r)
  {
    r' := Run.Then(r, step);
  }

  lemma BeginMain(s: State) returns (r: Run)
    ensures Valid(r) && OnlyMain(r) && Last(r) == s && First(r) == s
  {
    r := Start(s);
  }

  /** What HandleCommand does to the fields, the reply and the texts sent. */
  function HandledState(s: State, c: Command, served: bool, text: string): State {
    var sh := Handled(c, Shared(s.vm, s.paused, s.lockLog));
    s.(vm := sh.vm, paused := sh.paused, lockLog := sh.lockLog,
       res := if c.CmdState? then s.vm else s.res,
       dumps := if c.CmdDump? && s.vm == Paused && served
                then s.dumps + [DumpRecord(c.range, text)] else s.dumps,
       main := Replying)
  }

  lemma ShutdownSteps(s: State, served: bool, text: string) returns (r: Run)
    requires s.main == ShutState
    ensures Valid(r) && First(r) == s && OnlyMain(r) && Last(r) == HandledState(s, CmdShutdown, served, text)
  {
    hide Valid, Last, First, OnlyMain, Confined, ServedText, NextCommand, AfterReply, VcpuNext;
    r := BeginMain(s);
    r := TakeMain(r, Main, s.(vm := Shutdown, main := ShutTest));
    if s.paused {
      r := TakeMain(r, Main, s.(vm := Shutdown, main := ResumeFlag));
      r := TakeMain(r, Main, s.(vm := Shutdown, paused := false, main := ResumeUnlock));
    }
    r := TakeMain(r, Main, HandledState(s, CmdShutdown, served, text));
  }

  lemma DumpSteps(s: State, q: Request, served: bool, text: string) returns (r: Run)
    requires s.main == HandleDump(q)
    requires Confined(q, |s.mem|) ==> text == ServedText(s.mem, q)
    ensures Valid(r) && First(r) == s && OnlyMain(r) && Last(r) == HandledState(s, CmdDump(q), served, text)
  {
    hide Valid, Last, First, OnlyMain, Confined, ServedText, NextCommand, AfterReply, VcpuNext;
    r := BeginMain(s);
    if s.vm == Paused && !served {
      r := TakeMain(r, NoOutput, HandledState(s, CmdDump(q), served, text));
    } else if s.vm == Paused && !Confined(q, |s.mem|) {
      r := TakeMain(r, StrayDump(text), HandledState(s, CmdDump(q), served, text));
    } else {
      if s.vm == Paused {
        r := TakeMain(r, Main, s.(main := Dumping(q, s.mem)));
      }
      r := TakeMain(r, Main, HandledState(s, CmdDump(q), served, text));
    }
  }

  /** Run without interference, main's steps for a command have exactly the effect of
      HandleCommand. */
  lemma HandlerSteps(s: State, c: Command, served: bool, text: string) returns (r: Run)
    requires s.main == Handler(c)
    requires c.CmdDump? && Confined(c.range, |s.mem|) ==> text == ServedText(s.mem, c.range)
    ensures Valid(r) && First(r) == s && OnlyMain(r) && Last(r) == HandledState(s, c, served, text)
  {
    hide Valid, Last, First, OnlyMain, Confined, ServedText, NextCommand, AfterReply, VcpuNext;
    r := BeginMain(s);
    match c
    case CmdNone =>
    case CmdPause =>
      r := TakeMain(r, Main, s.(vm := Paused, main := PauseLock));
      r := TakeMain(r, Main, s.(vm := Paused, lockLog := s.lockLog + [Lock], main := PauseFlag));
      r := TakeMain(r, Main, HandledState(s, c, served, text));
    case CmdResume =>
      r := TakeMain(r, Main, s.(vm := Running, main := ResumeFlag));
      r := TakeMain(r, Main, s.(vm := Running, paused := false, main := ResumeUnlock));
      r := TakeMain(r, Main, HandledState(s, c, served, text));
    case CmdShutdown =>
      r := ShutdownSteps(s, served, text);
    case CmdDump(q) =>
      r := DumpSteps(s, q, served, text);
    case _ =>
      r := TakeMain(r, Main, HandledState(s, c, served, text));
  }
}
