/** A memory dump from the --mem argument of the status client to the text it gets:
    parser, command structure, server and loops together. */
module DumpCommand {
  import opened Text
  import opened Vectors
  import opened Errors
  import opened IntLists
  import opened DumpText
  import opened DumpLoops
  import opened DumpRange
  import opened Dump
  import opened Lifecycle
  import opened Machine

  /** MEM_RANGE_DEFAULTS. */
  const DEFAULTS: seq<int> := [0, -1, 2, 16]

  /** A 64-bit number stored in an int64_t, and back. */
  function AsSigned(v: nat): int {
    if v >= 0x8000_0000_0000_0000 then v - U64 else v
  }

  function AsUnsigned(x: int): nat {
    x % U64
  }

  /** The mem_range field: the values given, then the tail of the defaults. */
  function MemRange(vs: seq<nat>): (range: seq<int>)
    requires |vs| <= 4
    ensures |range| == 4
    ensures forall i :: 0 <= i < 4 ==> range[i] == if i < |vs| then AsSigned(vs[i]) else DEFAULTS[i]
  {
    seq(4, i requires 0 <= i < 4 => if i < |vs| then AsSigned(vs[i]) else DEFAULTS[i])
  }

  /** status_build_command for DUMP_MEM. */
  method BuildDumpCommand(list: Vec<nat>) returns (range: array<int>)
    requires list.Valid() && list.len <= 4
    ensures fresh(range) && range.Length == 4 && range[..] == MemRange(list.View().items)
  {
    range := new int[4](_ => 0);
    for i := 0 to list.len
      invariant forall k :: 0 <= k < i ==> range[k] == AsSigned(list.tab[k])
    {
      range[i] := AsSigned(list.tab[i]);
    }
    for i := list.len to 4
      invariant forall k :: 0 <= k < list.len ==> range[k] == AsSigned(list.tab[k])
      invariant forall k :: list.len <= k < i ==> range[k] == DEFAULTS[k]
    {
      range[i] := DEFAULTS[i];
    }
  }

  /** The range that status_handle_dump_mem passes on, with the conversions of its
      parameters: 64-bit addresses, 32-bit sizes. */
  function ServedRange(range: seq<int>, memSize: nat): Request
    requires |range| == 4
  {
    Request(AsUnsigned(range[0]),
            if range[1] == -1 then memSize else AsUnsigned(range[1]),
            range[2] % U32, range[3] % U32)
  }

  function ValueOr(vs: seq<nat>, i: nat, default: nat): nat {
    if i < |vs| then vs[i] else default
  }

  /** The range a list of values stands for. */
  function MeantRange(vs: seq<nat>, memSize: nat): Request {
    Request(ValueOr(vs, 0, 0),
            if |vs| < 2 || vs[1] == U64 - 1 then memSize else vs[1],
            ValueOr(vs, 2, 2) % U32, ValueOr(vs, 3, 16) % U32)
  }

  lemma SignRoundTrip(v: nat)
    requires v < U64
    ensures AsUnsigned(AsSigned(v)) == v && AsSigned(v) % U32 == v % U32
    ensures AsSigned(v) == -1 <==> v == U64 - 1
  {
  }

  /** For any printed list of up to four 64-bit values the server uses those values,
      then the defaults, with the memory size for an end of -1. */
  lemma ServedIsMeant(vs: seq<nat>, memSize: nat)
    requires |vs| <= 4 && AllU64(vs)
    ensures Accepts(PrintList(vs)) && Values(PrintList(vs)) == vs
    ensures ServedRange(MemRange(vs), memSize) == MeantRange(vs, memSize)
  {
    IntLists.RoundTrip(vs);
    forall i | 0 <= i < |vs|
      ensures AsUnsigned(AsSigned(vs[i])) == vs[i] && AsSigned(vs[i]) % U32 == vs[i] % U32
      ensures AsSigned(vs[i]) == -1 <==> vs[i] == U64 - 1
    {
      SignRoundTrip(vs[i]);
    }
    hide AsSigned, AsUnsigned, Accepts, Values, PrintList;
    assert AsUnsigned(0) == 0 by { SignRoundTrip(0); ZeroIsZero(); }
  }

  lemma ZeroIsZero()
    ensures AsSigned(0) == 0
  {
  }

  /** The request that an argument leads to. */
  function ServedFor(raw: string, memSize: nat): Request
    requires Accepts(raw) && |Values(raw)| <= 4
  {
    ServedRange(MemRange(Values(raw)), memSize)
  }

  /** The whole path of one dump: the client parses its argument and builds the
      command, the server handles it. */
  method RequestDump(raw: string, kvm: Kvm, served: bool) returns (ret: int, text: string)
    requires kvm.Valid()
    requires Accepts(raw) ==> |Values(raw)| <= 4
    requires Accepts(raw) ==> kvm.Reads(CmdDump(ServedFor(raw, kvm.memSize)), served)
    modifies kvm
    ensures kvm.SharedFields() == old(kvm.SharedFields())
    ensures !Accepts(raw) ==> ret == ARGS_FAILED && text == ""
    ensures Accepts(raw) && old(kvm.state) != Paused ==> ret == STATUS_CMD_VM_NOT_PAUSED && text == ""
    ensures Accepts(raw) && old(kvm.state) == Paused && !served ==> ret == INTERNAL_ERROR && text == ""
    ensures Accepts(raw) && old(kvm.state) == Paused && served ==>
              var r := ServedFor(raw, kvm.memSize);
              && ret == SUCCESS
              && text == LoopText(kvm.mem[..], Aligned(r, kvm.memSize))
              && (Confined(r, kvm.memSize) ==> text == ServedText(kvm.mem[..kvm.memSize], r))
              && (Inside(r, kvm.memSize) ==> text == TextOf(kvm.mem[..kvm.memSize], kvm.memSize, r))
  {
    hide Accepts, Values, Inside, TextOf, MemRange, ServedRange, LoopText, Aligned, ReadsBelow, Confined, ServedText;
    var parsed, list := ParseIntList(raw);
    if parsed != SUCCESS {
      return ARGS_FAILED, "";
    }
    var range := BuildDumpCommand(list);
    var res;
    ret, res, text := kvm.HandleCommand(CmdDump(ServedRange(range[..], kvm.memSize)), Paused, served);
  }

  lemma ServedIsDefault(start: nat, memSize: nat)
    requires start < U64
    ensures Accepts(Decimal(start)) && |Values(Decimal(start))| == 1
    ensures ServedFor(Decimal(start), memSize) == DefaultRequest(start, memSize)
  {
    hide Accepts, Values, MemRange, ServedRange;
    PrintOne(start);
    ServedIsMeant([start], memSize);
  }

  /** Asking for a start alone, on a memory of whole pages: the loops print the words from
      there to the end of memory and no others if and only if the start, rounded to a
      word, is a multiple of 16 and at most 4 GiB are left; and then the text reads back
      as exactly that part of memory. */
  lemma TailDump(m: seq<byte>, start: nat)
    requires StartsIn(start, |m|)
    ensures Accepts(Decimal(start)) && |Values(Decimal(start))| == 1
    ensures var r, from := ServedFor(Decimal(start), |m|), start - start % 2;
            && r.word == 2 && r.line == 16
            && (Offsets(Aligned(r, |m|), 0) == Steps(0, |m| - from, 2) <==> from % 16 == 0 && |m| - from <= U32)
            && (from % 16 == 0 && |m| - from <= U32 ==> Unrender(LoopText(m, Aligned(r, |m|))) == m[from..])
  {
    hide Accepts, Values, ServedFor, Inside, LoopText, Unrender, From, To, Offsets, Steps, Decimal;
    ServedIsDefault(start, |m|);
    DefaultDump(start, |m|);
    var r, from := DefaultRequest(start, |m|), start - start % 2;
    if Inside(r, |m|) {
      TailText(m, r, from);
    }
  }

  lemma TailText(m: seq<byte>, r: Request, from: nat)
    requires r.word > 0 && r.line > 0 && Inside(r, |m|) && From(r) == from && ShownEnd(r, |m|) == |m|
    ensures Unrender(LoopText(m, Aligned(r, |m|))) == m[from..]
  {
    hide LoopText, Unrender, TextOf, From, To, Sane;
    assert m[..|m|] == m;
    GuestText(m, |m|, r);
    DumpRoundTrip(m, |m|, r);
    assert Shown(m, |m|, r) == m[from..];
  }

  lemma PrintOne(v: nat)
    ensures PrintList([v]) == Decimal(v)
  {
  }
}
