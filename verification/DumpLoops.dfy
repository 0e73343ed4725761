/** mini_kvm_dump_mem of src/kvm/kvm.c: its three nested loops with the integer widths
    of the source. Guest memory is the first memSize bytes of the host memory that a
    pointer into it can reach, so that a read past its end is described too. */
module DumpLoops {
  import opened Text
  import opened DumpText

  /** A request as the server receives it: 64-bit addresses, 32-bit sizes. */
  datatype Request = Request(start: nat, end: nat, word: nat, line: nat)

  const SIGN32 := 0x8000_0000
  const SIGN64 := 0x8000_0000_0000_0000

  /** Sizes are not zero, and the 32-bit counter of words reaches the line size without
      wrapping around. */
  predicate Sized(r: Request) {
    r.start < U64 && r.end < U64 && 0 < r.word < U32 && 0 < r.line < U32 &&
    (r.line % r.word == 0 || r.line + r.word <= U32)
  }

  /** start rounded down to a word. */
  function From(r: Request): nat
    requires r.word > 0
  {
    r.start - r.start % r.word
  }

  /** end rounded up to a word, in 64 bits. */
  function RoundedUp(end: nat, w: nat): nat
    requires w > 0
  {
    if end % w == 0 then end else (end - end % w + w) % U64
  }

  /** end rounded up, then cut at the memory size by a signed comparison. */
  function To(r: Request, memSize: nat): nat
    requires r.word > 0
  {
    var end := RoundedUp(r.end, r.word);
    var signed := if end >= SIGN64 then end - U64 else end;
    if memSize < signed then memSize else end
  }

  /** The request once aligned and clamped. */
  function Aligned(r: Request, memSize: nat): Request
    requires r.word > 0
  {
    Request(From(r), To(r, memSize), r.word, r.line)
  }

  lemma AlignedIsSized(r: Request, memSize: nat)
    requires Sized(r)
    ensures Sized(Aligned(r, memSize))
  {
  }

  function LineCount(len: nat, b: nat): nat
    requires b > 0
  {
    len / b + if len % b != 0 then 1 else 0
  }

  /** nb_lines: a 64-bit difference, then cut to 32 bits. */
  function Lines(a: Request): nat
    requires a.line > 0
  {
    LineCount((a.end - a.start) % U64, a.line) % U32
  }

  /** Offset of a word from the start of the dump, in 32 bits. */
  function Offset(a: Request, line: nat, word: nat): nat {
    (word + a.line * line) % U32
  }

  /** The test that ends a line early. */
  predicate Passed(a: Request, offset: nat) {
    (offset + a.start) % U64 > a.end
  }

  /** Offsets of the words printed on a line, from one word on. */
  function LineOffsets(a: Request, line: nat, word: nat): (os: seq<nat>)
    requires a.word > 0
    ensures forall k :: 0 <= k < |os| ==> os[k] < U32
    decreases a.line - word
  {
    if word >= a.line || Passed(a, Offset(a, line, word)) then []
    else [Offset(a, line, word)] + LineOffsets(a, line, word + a.word)
  }

  /** Offsets of the words printed, in order, from one line on. */
  function Offsets(a: Request, line: nat): (os: seq<nat>)
    requires a.word > 0 && a.line > 0
    ensures forall k :: 0 <= k < |os| ==> os[k] < U32
    decreases Lines(a) - line
  {
    if line >= Lines(a) then [] else LineOffsets(a, line, 0) + Offsets(a, line + 1)
  }

  /** Where byte i of a word lies, from the start of the dump: the sum of an unsigned
      and a signed 32-bit number, which is unsigned and wraps around. */
  function ByteIndex(offset: nat, i: nat): nat {
    (offset + i) % U32
  }

  /** Its address, counted from the first byte of guest memory: pointers are 64 bits wide
      and wrap around. */
  function Address(start: nat, offset: nat, i: nat): nat {
    (start + ByteIndex(offset, i)) % U64
  }

  /** Every byte of the word lies below limit. */
  predicate WordBelow(start: nat, offset: nat, w: nat, limit: nat) {
    forall i :: 0 <= i < w ==> Address(start, offset, i) < limit
  }

  /** So it is for the words at some offsets. */
  predicate AllBelow(a: Request, os: seq<nat>, limit: nat) {
    forall o :: o in os ==> WordBelow(a.start, o, a.word, limit)
  }

  /** A byte of host memory; what is not there is not read. */
  function ByteAt(host: seq<byte>, at: nat): byte {
    if at < |host| then host[at] else 0
  }

  /** The bytes of the word at an offset. */
  function WordAt(host: seq<byte>, start: nat, offset: nat, w: nat): (bs: seq<byte>)
    ensures |bs| == w
    ensures forall i :: 0 <= i < w ==> bs[i] == ByteAt(host, Address(start, offset, i))
  {
    seq<byte>(w, i requires 0 <= i => ByteAt(host, Address(start, offset, i)))
  }

  /** A word as printed; its counter of bytes is a signed 32-bit number. */
  function WordText(host: seq<byte>, start: nat, offset: nat, w: nat): string {
    if w > SIGN32 then "" else WordHex(WordAt(host, start, offset, w))
  }

  function WordTexts(host: seq<byte>, a: Request, os: seq<nat>): (ts: seq<string>)
    ensures |ts| == |os|
  {
    if os == [] then [] else [WordText(host, a.start, os[0], a.word)] + WordTexts(host, a, os[1..])
  }

  /** What is printed for a line after its address, from one word on. */
  function LineRest(host: seq<byte>, a: Request, line: nat, word: nat): string
    requires a.word > 0
  {
    Terminated(WordTexts(host, a, LineOffsets(a, line, word)), ' ')
  }

  function LoopLine(host: seq<byte>, a: Request, line: nat): string
    requires a.word > 0
  {
    LineHead((a.start + line * a.line % U32) % U64) + "\t" + LineRest(host, a, line, 0)
  }

  function LoopLines(host: seq<byte>, a: Request, line: nat): seq<string>
    requires a.word > 0 && a.line > 0
    decreases Lines(a) - line
  {
    if line >= Lines(a) then [] else [LoopLine(host, a, line)] + LoopLines(host, a, line + 1)
  }

  /** What the loops print, whatever the request. */
  function LoopText(host: seq<byte>, a: Request): string
    requires a.word > 0 && a.line > 0
  {
    Header(a.start, a.end) + "\n" + Terminated(LoopLines(host, a, 0), '\n')
  }

  // ----- one turn of each loop -----

  lemma NoByte()
    ensures WordHex([]) == ""
  {
  }

  lemma OneByte(word: seq<byte>, i: nat)
    requires i < |word|
    ensures WordHex(word[..i + 1]) == HexByte(word[i]) + WordHex(word[..i])
  {
    assert word[..i + 1][..i] == word[..i];
  }

  lemma NextWord(host: seq<byte>, a: Request, line: nat, word: nat, out: string)
    requires a.word > 0 && word < a.line && !Passed(a, Offset(a, line, word))
    ensures out + LineRest(host, a, line, word) ==
              out + WordText(host, a.start, Offset(a, line, word), a.word) + " " +
              LineRest(host, a, line, word + a.word)
    ensures AllBelow(a, LineOffsets(a, line, word), |host|) ==>
              WordBelow(a.start, Offset(a, line, word), a.word, |host|) &&
              AllBelow(a, LineOffsets(a, line, word + a.word), |host|)
  {
    hide Passed, WordText, WordBelow;
    var offset, rest := Offset(a, line, word), LineOffsets(a, line, word + a.word);
    assert LineOffsets(a, line, word) == [offset] + rest;
    assert ([offset] + rest)[1..] == rest;
    OneMoreRecord(WordText(host, a.start, offset, a.word), WordTexts(host, a, rest), ' ');
    BelowParts(a, [offset], rest, |host|);
    assert offset in [offset];
  }

  lemma BelowParts(a: Request, p: seq<nat>, q: seq<nat>, limit: nat)
    ensures AllBelow(a, p + q, limit) <==> AllBelow(a, p, limit) && AllBelow(a, q, limit)
  {
    hide WordBelow;
  }

  lemma LineIsOver(host: seq<byte>, a: Request, line: nat, word: nat)
    requires a.word > 0 && (word >= a.line || Passed(a, Offset(a, line, word)))
    ensures LineRest(host, a, line, word) == ""
  {
  }

  lemma OneMoreRecord(f: string, rest: seq<string>, d: char)
    ensures Terminated([f] + rest, d) == f + [d] + Terminated(rest, d)
  {
    assert ([f] + rest)[1..] == rest;
  }

  function LinesLeft(host: seq<byte>, a: Request, line: nat): string
    requires a.word > 0 && a.line > 0
  {
    Terminated(LoopLines(host, a, line), '\n')
  }

  lemma NextLine(host: seq<byte>, a: Request, line: nat, out: string)
    requires a.word > 0 && a.line > 0 && line < Lines(a)
    ensures out + LinesLeft(host, a, line) ==
              out + LineHead((a.start + line * a.line % U32) % U64) + "\t" + LineRest(host, a, line, 0) + "\n" +
              LinesLeft(host, a, line + 1)
  {
    hide LineHead, LineRest, Lines;
    OneMoreRecord(LoopLine(host, a, line), LoopLines(host, a, line + 1), '\n');
  }

  // ----- the loops -----

  /** Innermost loop: the bytes of one word, last first. The counter is an int32_t, so
      that a word size above 2^31 makes it negative from the start. */
  method PrintWord(host: array<byte>, start: nat, offset: nat, w: nat) returns (out: string)
    requires 0 < w < U32 && (w <= SIGN32 ==> WordBelow(start, offset, w, host.Length))
    ensures out == WordText(host[..], start, offset, w)
  {
    hide WordHex, HexByte, Address;
    out := "";
    var i := if w - 1 >= SIGN32 then w - 1 - U32 else w - 1;
    ghost var word := WordAt(host[..], start, offset, w);
    assert word[..w] == word;
    while i >= 0
      invariant i >= 0 ==> i < w <= SIGN32
      invariant w <= SIGN32 ==> i >= -1 && out + WordHex(word[..i + 1]) == WordHex(word)
      invariant w > SIGN32 ==> i < 0 && out == ""
    {
      OneByte(word, i);
      out := out + HexByte(host[Address(start, offset, i)]);
      i := i - 1;
    }
    if w <= SIGN32 {
      assert word[..0] == [];
      NoByte();
    }
  }

  /** Middle loop: the words of one line, until the range is passed. */
  method PrintLine(host: array<byte>, a: Request, line: nat) returns (out: string)
    requires Sized(a) && line < Lines(a)
    requires a.word <= SIGN32 ==> AllBelow(a, LineOffsets(a, line, 0), host.Length)
    ensures out == LineRest(host[..], a, line, 0)
  {
    hide WordText, LineRest, LineOffsets, Lines, AllBelow, WordBelow, Passed;
    out := "";
    ghost var rest := LineRest(host[..], a, line, 0);
    var word := 0;
    while word < a.line
      invariant 0 <= word
      invariant out + LineRest(host[..], a, line, word) == rest
      invariant a.word <= SIGN32 ==> AllBelow(a, LineOffsets(a, line, word), host.Length)
      decreases a.line - word
    {
      var offset := Offset(a, line, word);
      if Passed(a, offset) {
        break;
      }
      NextWord(host[..], a, line, word, out);
      var text := PrintWord(host, a.start, offset, a.word);
      out := out + text + " ";
      word := word + a.word;
    }
    LineIsOver(host[..], a, line, word);
  }

  /** Outer loop. */
  method PrintLines(host: array<byte>, a: Request) returns (out: string)
    requires Sized(a)
    requires a.word <= SIGN32 ==> AllBelow(a, Offsets(a, 0), host.Length)
    ensures out == LinesLeft(host[..], a, 0)
  {
    hide LineRest, LinesLeft, LineOffsets, AllBelow, LineHead;
    out := "";
    ghost var rest := LinesLeft(host[..], a, 0);
    var nbLines := Lines(a);
    for line := 0 to nbLines
      invariant out + LinesLeft(host[..], a, line) == rest
      invariant a.word <= SIGN32 ==> AllBelow(a, Offsets(a, line), host.Length)
    {
      BelowParts(a, LineOffsets(a, line, 0), Offsets(a, line + 1), host.Length);
      NextLine(host[..], a, line, out);
      var head := LineHead((a.start + line * a.line % U32) % U64);
      var words := PrintLine(host, a, line);
      out := out + head + "\t" + words + "\n";
    }
    NoLinesLeft(host[..], a);
  }

  lemma NoLinesLeft(host: seq<byte>, a: Request)
    requires a.word > 0 && a.line > 0
    ensures LinesLeft(host, a, Lines(a)) == ""
  {
  }

  /** Every byte read for the request lies below limit. */
  predicate ReadsBelow(r: Request, memSize: nat, limit: nat)
    requires r.word > 0 && r.line > 0
  {
    AllBelow(Aligned(r, memSize), Offsets(Aligned(r, memSize), 0), limit)
  }

  /** The request can be served, and nothing but guest memory is read for it. */
  predicate Confined(r: Request, memSize: nat) {
    Sized(r) && (r.word > SIGN32 || ReadsBelow(r, memSize, memSize))
  }

  /** The text of such a request. */
  function ServedText(mem: seq<byte>, r: Request): string
    requires Confined(r, |mem|)
  {
    LoopText(mem, Aligned(r, |mem|))
  }

  /** mini_kvm_dump_mem on a guest memory of memSize bytes at the head of host. */
  method DumpMem(host: array<byte>, memSize: nat, r: Request) returns (out: string)
    requires Sized(r)
    requires r.word <= SIGN32 ==> ReadsBelow(r, memSize, host.Length)
    ensures out == LoopText(host[..], Aligned(r, memSize))
  {
    hide Header, LoopLines, Terminated, Sized, Lines, AllBelow;
    AlignedIsSized(r, memSize);
    var w := r.word;
    var start := r.start - r.start % w;
    var end := if r.end % w == 0 then r.end else (r.end - r.end % w + w) % U64;
    var signed := if end >= SIGN64 then end - U64 else end;
    end := if memSize < signed then memSize else end;
    out := Header(start, end) + "\n";
    var lines := PrintLines(host, Request(start, end, w, r.line));
    out := out + lines;
  }
}
