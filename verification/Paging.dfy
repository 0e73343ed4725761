/** The page tables that src/kvm/kvm.c builds in guest memory, against the
    4-level translation of section 4.5 of the Intel SDM, volume 3A. */
module Paging {
  import opened Text

  type Memory = seq<byte>

  const PLM4_ADDR := 0x1000
  const PDPT_ADDR := 0x2000
  const PDT_ADDR := 0x3000
  const BOOTLOADER_ADDR := 0x4000
  const MINIMUM_MEMORY_REQUIRED := 0x5000
  const MAPPED_END := 0x20_0000

  // ----- the translation the processor makes -----

  /** Little-endian value of the 8 bytes at an address. */
  function Le64(m: Memory, at: nat): nat
    requires at + 8 <= |m|
  {
    var b := (j: nat) requires j < 8 => m[at + j] as int;
    b(0) + 0x100 * b(1) + 0x1_0000 * b(2) + 0x100_0000 * b(3) +
    0x1_0000_0000 * b(4) + 0x100_0000_0000 * b(5) +
    0x1_0000_0000_0000 * b(6) + 0x100_0000_0000_0000 * b(7)
  }

  // Fields of a table entry.

  predicate Present(e: nat) { e % 2 == 1 }

  predicate Writable(e: nat) { e / 2 % 2 == 1 }

  predicate User(e: nat) { e / 4 % 2 == 1 }

  predicate Large(e: nat) { e / 0x80 % 2 == 1 }

  /** Bits 51:12. */
  function Frame(e: nat): nat { e % 0x10_0000_0000_0000 / 0x1000 * 0x1000 }

  /** Bytes that one entry of a level covers; levels count from 4 (PML4) to 1. */
  function Span(level: nat): (s: nat)
    requires 1 <= level <= 4
    ensures s > 0
  {
    if level == 1 then 0x1000
    else if level == 2 then 0x20_0000
    else if level == 3 then 0x4000_0000
    else 0x80_0000_0000
  }

  function Index(la: nat, level: nat): (i: nat)
    requires 1 <= level <= 4
    ensures i < 512
  {
    la / Span(level) % 512
  }

  /** Reserved bits that must be 0: bit 63 (no-execute is off), the page-size bit
      of a PML4 entry, and the low address bits of a large page above bit 12. */
  predicate Malformed(e: nat, level: nat)
    requires 1 <= level <= 4
  {
    e / 0x8000_0000_0000_0000 % 2 == 1 ||
    (level == 4 && Large(e)) ||
    ((level == 2 || level == 3) && Large(e) && e % Span(level) / 0x2000 != 0)
  }

  /** What an entry tells the walk to do at its level. */
  datatype Entry =
    | Absent
    | Bad
    | Page(base: nat, writable: bool, user: bool)
    | Table(next: nat, writable: bool, user: bool)

  function Decode(e: nat, level: nat): Entry
    requires 1 <= level <= 4
  {
    if !Present(e) then Absent
    else if Malformed(e, level) then Bad
    else if level == 1 || (level <= 3 && Large(e)) then
      Page(Frame(e) / Span(level) * Span(level), Writable(e), User(e))
    else Table(Frame(e), Writable(e), User(e))
  }

  datatype Translation =
    | Mapped(physical: nat, writable: bool, user: bool)
    | NotPresent(level: nat)
    | ReservedBit(level: nat)
    | OutsideMemory(level: nat)

  /** The walk from one level down; access rights are those that every entry grants. */
  function WalkFrom(m: Memory, table: nat, la: nat, level: nat, w: bool, u: bool): Translation
    requires 1 <= level <= 4
    decreases level
  {
    var at := table + 8 * Index(la, level);
    if at + 8 > |m| then OutsideMemory(level)
    else match Decode(Le64(m, at), level)
      case Absent => NotPresent(level)
      case Bad => ReservedBit(level)
      case Page(base, w', u') => Mapped(base + la % Span(level), w && w', u && u')
      case Table(next, w', u') => WalkFrom(m, next, la, level - 1, w && w', u && u')
  }

  function Walk(m: Memory, cr3: nat, la: nat): Translation {
    WalkFrom(m, Frame(cr3), la, 4, true, true)
  }

  /** Bits 63:47 of the linear address are equal. */
  predicate Canonical(la: nat) {
    la < 0x8000_0000_0000 || U64 - 0x8000_0000_0000 <= la < U64
  }

  // ----- the tables in memory -----

  /** Three entries: PML4[0] and PDPT[0] lead to the page directory, whose first
      entry is a present, writable 2 MiB page at 0; all else is 0. */
  function TableByte(i: nat): byte {
    if i == PLM4_ADDR then 0x03 else if i == PLM4_ADDR + 1 then 0x20
    else if i == PDPT_ADDR then 0x03 else if i == PDPT_ADDR + 1 then 0x30
    else if i == PDT_ADDR then 0x83
    else 0
  }

  predicate Installed(m: Memory) {
    |m| >= BOOTLOADER_ADDR &&
    forall i :: PLM4_ADDR <= i < BOOTLOADER_ADDR ==> m[i] == TableByte(i)
  }

  function TableImage(): (r: Memory)
    ensures |r| == BOOTLOADER_ADDR - PLM4_ADDR
    ensures forall i :: 0 <= i < |r| ==> r[i] == TableByte(PLM4_ADDR + i)
  {
    seq<byte>(BOOTLOADER_ADDR - PLM4_ADDR, i requires 0 <= i => TableByte(PLM4_ADDR + i))
  }

  /** Memory once the tables are written over it. */
  function WithTables(m: Memory): (r: Memory)
    requires |m| >= BOOTLOADER_ADDR
    ensures |r| == |m| && Installed(r)
    ensures r[..PLM4_ADDR] == m[..PLM4_ADDR] && r[BOOTLOADER_ADDR..] == m[BOOTLOADER_ADDR..]
  {
    m[..PLM4_ADDR] +
    TableImage() +
    m[BOOTLOADER_ADDR..]
  }

  lemma EntryAt(m: Memory, table: nat, n: nat)
    requires Installed(m) && n < 512
    requires table == PLM4_ADDR || table == PDPT_ADDR || table == PDT_ADDR
    ensures table + 8 * n + 8 <= |m|
    ensures Le64(m, table + 8 * n) ==
              if n > 0 then 0
              else if table == PLM4_ADDR then 0x2003
              else if table == PDPT_ADDR then 0x3003
              else 0x83
  {
  }

  lemma Decoded(level: nat)
    requires 1 <= level <= 4
    ensures Decode(0, level) == Absent
    ensures level == 4 ==> Decode(0x2003, level) == Table(PDPT_ADDR, true, false)
    ensures level == 3 ==> Decode(0x3003, level) == Table(PDT_ADDR, true, false)
    ensures level == 2 ==> Decode(0x83, level) == Page(0, true, false)
  {
  }

  /** The level at which the walk of an unmapped address ends. */
  function MissLevel(la: nat): nat {
    if Index(la, 4) != 0 then 4 else if Index(la, 3) != 0 then 3 else 2
  }

  lemma WalkLevel2(m: Memory, la: nat)
    requires Installed(m)
    ensures WalkFrom(m, PDT_ADDR, la, 2, true, false) ==
              if Index(la, 2) == 0 then Mapped(la % MAPPED_END, true, false) else NotPresent(2)
  {
    hide Decode, Le64, Installed, Index;
    EntryAt(m, PDT_ADDR, Index(la, 2));
    Decoded(2);
  }

  lemma WalkLevel3(m: Memory, la: nat)
    requires Installed(m)
    ensures WalkFrom(m, PDPT_ADDR, la, 3, true, false) ==
              if Index(la, 3) == 0 then WalkFrom(m, PDT_ADDR, la, 2, true, false) else NotPresent(3)
  {
    hide Decode, Le64, Installed, Index;
    EntryAt(m, PDPT_ADDR, Index(la, 3));
    Decoded(3);
  }

  lemma WalkLevel4(m: Memory, la: nat)
    requires Installed(m)
    ensures Walk(m, PLM4_ADDR, la) ==
              if Index(la, 4) == 0 then WalkFrom(m, PDPT_ADDR, la, 3, true, false) else NotPresent(4)
  {
    hide Decode, Le64, Installed, Index;
    EntryAt(m, PLM4_ADDR, Index(la, 4));
    Decoded(4);
  }

  lemma IndicesOf(la: nat)
    requires Canonical(la)
    ensures la < MAPPED_END <==> Index(la, 4) == 0 && Index(la, 3) == 0 && Index(la, 2) == 0
  {
  }

  /** Every address below 2 MiB is its own physical address, writable and for the
      supervisor only; every other canonical address ends at an absent entry. */
  lemma IdentityMap(m: Memory, la: nat)
    requires Installed(m) && Canonical(la)
    ensures Walk(m, PLM4_ADDR, la) ==
              if la < MAPPED_END then Mapped(la, true, false) else NotPresent(MissLevel(la))
  {
    hide WalkFrom, Installed;
    IndicesOf(la);
    WalkLevel4(m, la);
    WalkLevel3(m, la);
    WalkLevel2(m, la);
  }

  // ----- the kernel image -----

  /** Memory with the image copied to an address. */
  function WithImage(m: Memory, image: seq<byte>, at: nat): (r: Memory)
    requires at + |image| <= |m|
    ensures |r| == |m|
  {
    m[..at] + image + m[at + |image|..]
  }

  /** What an instruction fetch at a linear address reads. */
  datatype Fetched = Byte(value: byte) | PageFault | BusError

  function Fetch(m: Memory, cr3: nat, la: nat): Fetched {
    match Walk(m, cr3, la)
    case Mapped(p, _, _) => if p < |m| then Byte(m[p]) else BusError
    case _ => PageFault
  }

  /** Copying an image above the tables leaves them installed. */
  lemma ImageKeepsTables(m: Memory, image: seq<byte>)
    requires Installed(m) && BOOTLOADER_ADDR + |image| <= |m|
    ensures Installed(WithImage(m, image, BOOTLOADER_ADDR))
  {
  }

  /** After the tables and the image are in place the walk is still the identity,
      and a fetch at the load address plus i gives image byte i for exactly those
      i whose address is below 2 MiB; the rest of the image is not mapped. */
  lemma BootImageAgrees(m: Memory, image: seq<byte>, i: nat)
    requires |m| >= MINIMUM_MEMORY_REQUIRED && BOOTLOADER_ADDR + |image| <= |m|
    requires i < |image| && Canonical(BOOTLOADER_ADDR + i)
    ensures var booted := WithImage(WithTables(m), image, BOOTLOADER_ADDR);
            && Installed(booted)
            && Fetch(booted, PLM4_ADDR, BOOTLOADER_ADDR + i) ==
                 if BOOTLOADER_ADDR + i < MAPPED_END then Byte(image[i]) else PageFault
  {
    hide Walk, Installed, MissLevel;
    var booted := WithImage(WithTables(m), image, BOOTLOADER_ADDR);
    ImageKeepsTables(WithTables(m), image);
    IdentityMap(booted, BOOTLOADER_ADDR + i);
    assert booted[BOOTLOADER_ADDR + i] == image[i];
  }
}
