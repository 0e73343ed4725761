/** What a dump shows of the host: for every request, wrapped indices included, its text
    is a function of guest memory alone if and only if no byte read lies behind it. */
module DumpGuest {
  import opened Text
  import opened DumpText
  import opened DumpLoops
  import opened DumpRange
  import opened DumpBytes
  import opened Dump

  /** Two host memories that hold the same guest memory. */
  predicate SameGuest(h: seq<byte>, h': seq<byte>, memSize: nat) {
    memSize <= |h| && memSize <= |h'| && h[..memSize] == h'[..memSize]
  }

  // ----- bytes that are not read do not matter -----

  lemma SameByte(h: seq<byte>, h': seq<byte>, memSize: nat, at: nat)
    requires SameGuest(h, h', memSize) && at < memSize
    ensures ByteAt(h, at) == ByteAt(h', at)
  {
    assert h[..memSize][at] == h'[..memSize][at];
  }

  lemma SameWord(h: seq<byte>, h': seq<byte>, memSize: nat, start: nat, o: nat, w: nat)
    requires SameGuest(h, h', memSize) && WordBelow(start, o, w, memSize)
    ensures WordAt(h, start, o, w) == WordAt(h', start, o, w)
  {
    hide SameGuest, Address, ByteAt;
    forall i | 0 <= i < w ensures WordAt(h, start, o, w)[i] == WordAt(h', start, o, w)[i] {
      SameByte(h, h', memSize, Address(start, o, i));
    }
  }

  /** Only guest memory is read for the words at some offsets, or nothing is. */
  predicate GuestReads(a: Request, os: seq<nat>, memSize: nat) {
    a.word > SIGN32 || AllBelow(a, os, memSize)
  }

  lemma {:induction false} SameWords(h: seq<byte>, h': seq<byte>, memSize: nat, a: Request, os: seq<nat>)
    requires SameGuest(h, h', memSize) && GuestReads(a, os, memSize)
    ensures WordTexts(h, a, os) == WordTexts(h', a, os)
  {
    hide SameGuest, WordBelow, WordAt;
    if os != [] {
      if a.word <= SIGN32 {
        assert os[0] in os;
        SameWord(h, h', memSize, a.start, os[0], a.word);
      }
      SameWords(h, h', memSize, a, os[1..]);
    }
  }

  lemma {:induction false} SameLines(h: seq<byte>, h': seq<byte>, memSize: nat, a: Request, line: nat)
    requires a.word > 0 && a.line > 0 && SameGuest(h, h', memSize) && GuestReads(a, Offsets(a, line), memSize)
    ensures LoopLines(h, a, line) == LoopLines(h', a, line)
    decreases Lines(a) - line
  {
    hide SameGuest, AllBelow, LineOffsets, WordTexts, Lines, LineHead, Terminated;
    if line < Lines(a) {
      BelowParts(a, LineOffsets(a, line, 0), Offsets(a, line + 1), memSize);
      SameWords(h, h', memSize, a, LineOffsets(a, line, 0));
      SameLines(h, h', memSize, a, line + 1);
    }
  }

  // ----- the text tells every byte that is read -----

  lemma WordTextLength(h: seq<byte>, h': seq<byte>, start: nat, o: nat, w: nat)
    ensures |WordText(h, start, o, w)| == |WordText(h', start, o, w)|
  {
    hide WordHex;
    WordHexLength(WordAt(h, start, o, w));
    WordHexLength(WordAt(h', start, o, w));
  }

  /** Two texts of records cut at the same place. */
  lemma Peel(f: string, f': string, d: char, rest: string, rest': string)
    requires |f| == |f'| && f + [d] + rest == f' + [d] + rest'
    ensures f == f' && rest == rest'
  {
    var s, s' := f + [d] + rest, f' + [d] + rest';
    assert s[..|f|] == f && s'[..|f|] == f';
    assert s[|f| + 1..] == rest && s'[|f| + 1..] == rest';
  }

  function Words(h: seq<byte>, a: Request, os: seq<nat>): string {
    Terminated(WordTexts(h, a, os), ' ')
  }

  lemma NextOfWords(h: seq<byte>, a: Request, os: seq<nat>)
    requires os != []
    ensures Words(h, a, os) == WordText(h, a.start, os[0], a.word) + [' '] + Words(h, a, os[1..])
  {
    hide WordText;
    OneMoreRecord(WordText(h, a.start, os[0], a.word), WordTexts(h, a, os[1..]), ' ');
  }

  lemma {:induction false} WordsLength(h: seq<byte>, h': seq<byte>, a: Request, os: seq<nat>)
    ensures |Words(h, a, os)| == |Words(h', a, os)|
  {
    if os != [] {
      NextOfWords(h, a, os);
      NextOfWords(h', a, os);
      WordTextLength(h, h', a.start, os[0], a.word);
      WordsLength(h, h', a, os[1..]);
    }
  }

  lemma WordTells(h: seq<byte>, h': seq<byte>, start: nat, o: nat, w: nat)
    requires w <= SIGN32 && WordText(h, start, o, w) == WordText(h', start, o, w)
    ensures WordAt(h, start, o, w) == WordAt(h', start, o, w)
  {
    hide WordHex, WordBytes, WordAt;
    WordRoundTrip(WordAt(h, start, o, w));
    WordRoundTrip(WordAt(h', start, o, w));
  }

  lemma {:induction false} WordsTell(h: seq<byte>, h': seq<byte>, a: Request, os: seq<nat>, o: nat)
    requires a.word <= SIGN32 && o in os && Words(h, a, os) == Words(h', a, os)
    ensures WordAt(h, a.start, o, a.word) == WordAt(h', a.start, o, a.word)
  {
    hide Words, WordText, WordAt;
    NextOfWords(h, a, os);
    NextOfWords(h', a, os);
    WordTextLength(h, h', a.start, os[0], a.word);
    Peel(WordText(h, a.start, os[0], a.word), WordText(h', a.start, os[0], a.word), ' ',
         Words(h, a, os[1..]), Words(h', a, os[1..]));
    if o == os[0] {
      WordTells(h, h', a.start, o, a.word);
    } else {
      WordsTell(h, h', a, os[1..], o);
    }
  }

  lemma NextOfLines(h: seq<byte>, a: Request, line: nat)
    requires a.word > 0 && a.line > 0 && line < Lines(a)
    ensures LinesLeft(h, a, line) == LoopLine(h, a, line) + ['\n'] + LinesLeft(h, a, line + 1)
  {
    hide LoopLine, Lines;
    OneMoreRecord(LoopLine(h, a, line), LoopLines(h, a, line + 1), '\n');
  }

  lemma LineTells(h: seq<byte>, h': seq<byte>, a: Request, line: nat)
    requires a.word > 0
    ensures |LoopLine(h, a, line)| == |LoopLine(h', a, line)|
    ensures LoopLine(h, a, line) == LoopLine(h', a, line) ==>
              Words(h, a, LineOffsets(a, line, 0)) == Words(h', a, LineOffsets(a, line, 0))
  {
    hide LineHead, WordTexts, LineOffsets, Terminated;
    var os := LineOffsets(a, line, 0);
    WordsLength(h, h', a, os);
    var head := LineHead((a.start + line * a.line % U32) % U64) + "\t";
    assert LoopLine(h, a, line) == head + Words(h, a, os) && LoopLine(h', a, line) == head + Words(h', a, os);
    assert (head + Words(h, a, os))[|head|..] == Words(h, a, os);
    assert (head + Words(h', a, os))[|head|..] == Words(h', a, os);
  }

  lemma {:induction false} LinesTell(h: seq<byte>, h': seq<byte>, a: Request, line: nat, o: nat)
    requires 0 < a.word <= SIGN32 && a.line > 0 && o in Offsets(a, line)
    requires LinesLeft(h, a, line) == LinesLeft(h', a, line)
    ensures WordAt(h, a.start, o, a.word) == WordAt(h', a.start, o, a.word)
    decreases Lines(a) - line
  {
    hide LinesLeft, LoopLine, LineOffsets, WordAt, Words, Lines;
    NextOfLines(h, a, line);
    NextOfLines(h', a, line);
    LineTells(h, h', a, line);
    Peel(LoopLine(h, a, line), LoopLine(h', a, line), '\n', LinesLeft(h, a, line + 1), LinesLeft(h', a, line + 1));
    if o in LineOffsets(a, line, 0) {
      WordsTell(h, h', a, LineOffsets(a, line, 0), o);
    } else {
      LinesTell(h, h', a, line + 1, o);
    }
  }

  /** Hosts that give the same text agree on every byte that is read. */
  lemma TextTellsWords(h: seq<byte>, h': seq<byte>, a: Request, o: nat)
    requires 0 < a.word <= SIGN32 && a.line > 0 && o in Offsets(a, 0) && LoopText(h, a) == LoopText(h', a)
    ensures WordAt(h, a.start, o, a.word) == WordAt(h', a.start, o, a.word)
  {
    hide Header, LoopLines, Terminated, Offsets, WordAt;
    var head := Header(a.start, a.end) + "\n";
    assert LoopText(h, a) == head + LinesLeft(h, a, 0) && LoopText(h', a) == head + LinesLeft(h', a, 0);
    assert (head + LinesLeft(h, a, 0))[|head|..] == LinesLeft(h, a, 0);
    assert (head + LinesLeft(h', a, 0))[|head|..] == LinesLeft(h', a, 0);
    LinesTell(h, h', a, 0, o);
  }

  // ----- the exact condition -----

  /** A host memory of n zeros but for x at one place. */
  function OneByteHost(n: nat, at: nat, x: byte): (h: seq<byte>)
    ensures |h| == n && forall i :: 0 <= i < n ==> h[i] == if i == at then x else 0
  {
    seq<byte>(n, i => if i == at then x else 0)
  }

  lemma {:induction false} AnyOffsetBelow(a: Request, os: seq<nat>, limit: nat)
    requires a.start + U32 <= limit
    ensures AllBelow(a, os, limit)
  {
  }

  /** A word that reaches behind guest memory tells two hosts apart. */
  lemma TellsBehind(a: Request, memSize: nat, o: nat) returns (h: seq<byte>, h': seq<byte>)
    requires 0 < a.word <= SIGN32 && a.line > 0 && o in Offsets(a, 0)
    requires !WordBelow(a.start, o, a.word, memSize)
    ensures SameGuest(h, h', memSize) && |h| == |h'| && AllBelow(a, Offsets(a, 0), |h|)
    ensures LoopText(h, a) != LoopText(h', a)
  {
    hide LoopText, Offsets, AllBelow;
    var i: nat :| i < a.word && Address(a.start, o, i) >= memSize;
    var x, n := Address(a.start, o, i), a.start + U32 + memSize;
    h, h' := OneByteHost(n, x, 0), OneByteHost(n, x, 1);
    AnyOffsetBelow(a, Offsets(a, 0), n);
    assert WordAt(h, a.start, o, a.word)[i] == 0 && WordAt(h', a.start, o, a.word)[i] == 1;
    if LoopText(h, a) == LoopText(h', a) {
      TextTellsWords(h, h', a, o);
    }
  }

  ghost predicate SameText(a: Request, memSize: nat)
    requires a.word > 0 && a.line > 0
  {
    forall h, h' ::
      SameGuest(h, h', memSize) && AllBelow(a, Offsets(a, 0), |h|) && AllBelow(a, Offsets(a, 0), |h'|) ==>
        LoopText(h, a) == LoopText(h', a)
  }

  /** Whatever the request, hosts that hold the same guest memory always give the same
      text if and only if every byte read, if any, is guest memory. */
  lemma GuestOnly(a: Request, memSize: nat)
    requires a.word > 0 && a.line > 0
    ensures SameText(a, memSize) <==> GuestReads(a, Offsets(a, 0), memSize)
  {
    hide LoopText, Offsets, WordBelow;
    if GuestReads(a, Offsets(a, 0), memSize) {
      forall h, h' | SameGuest(h, h', memSize) ensures LoopText(h, a) == LoopText(h', a) {
        SameDump(h, h', memSize, a);
      }
    } else {
      var o: nat :| o in Offsets(a, 0) && !WordBelow(a.start, o, a.word, memSize);
      var h, h' := TellsBehind(a, memSize, o);
    }
  }

  lemma SameDump(h: seq<byte>, h': seq<byte>, memSize: nat, a: Request)
    requires a.word > 0 && a.line > 0 && SameGuest(h, h', memSize) && GuestReads(a, Offsets(a, 0), memSize)
    ensures LoopText(h, a) == LoopText(h', a)
  {
    hide LoopLines, Terminated, Header, Offsets, AllBelow, SameGuest;
    SameLines(h, h', memSize, a, 0);
  }

  /** For a request of whole words the condition is one a caller can test: nothing is
      printed, or the reach ends in guest memory. */
  lemma GuestOnlyExactly(r: Request, memSize: nat)
    requires 0 < r.word <= SIGN32 && r.line > 0 && Regular(Aligned(r, memSize))
    requires memSize + U32 <= U64
    ensures SameText(Aligned(r, memSize), memSize) <==>
              Reach(Aligned(r, memSize)) == 0 || From(r) + Reach(Aligned(r, memSize)) <= memSize
  {
    hide SameText, Offsets, AllBelow, From, To, Regular, Reach, Fits;
    GuestOnly(Aligned(r, memSize), memSize);
    ReadsExactly(r, memSize, memSize);
  }

  /** The rest of the host does not matter for a confined dump. */
  lemma ConfinedText(host: seq<byte>, memSize: nat, r: Request)
    requires memSize <= |host| && Confined(r, memSize) && r.word > 0 && r.line > 0
    ensures LoopText(host, Aligned(r, memSize)) == ServedText(host[..memSize], r)
  {
    hide LoopText, From, To, Offsets, AllBelow;
    assert host[..memSize][..memSize] == host[..memSize];
    SameDump(host, host[..memSize], memSize, Aligned(r, memSize));
  }

  /** Confined to guest memory, and at least one word is printed. */
  predicate ShowsSome(r: Request, memSize: nat) {
    Confined(r, memSize) && r.word <= SIGN32 && Offsets(Aligned(r, memSize), 0) != []
  }

  /** Otherwise the text is the same for all memories of a size. */
  lemma BlankText(m: seq<byte>, m': seq<byte>, q: Request)
    requires |m| == |m'| && Confined(q, |m|) && !ShowsSome(q, |m|)
    ensures ServedText(m, q) == ServedText(m', q)
  {
    hide LoopText, Offsets, From, To, WordBelow;
    SameDump(m, m', 0, Aligned(q, |m|));
  }

  /** Such a range shows at least one byte that can be changed. */
  lemma FirstByteMatters(m: seq<byte>, q: Request) returns (m1: seq<byte>)
    requires Confined(q, |m|) && ShowsSome(q, |m|)
    ensures |m1| == |m| && ServedText(m, q) != ServedText(m1, q)
  {
    hide LoopText, Offsets, From, To, AllBelow;
    var a := Aligned(q, |m|);
    m1 := ChangeOne(m, a, q.word);
    if LoopText(m, a) == LoopText(m1, a) {
      TextTellsWords(m, m1, a, Offsets(a, 0)[0]);
    }
  }

  lemma ChangeOne(m: seq<byte>, a: Request, w: nat) returns (m1: seq<byte>)
    requires a.word == w > 0 && a.line > 0 && AllBelow(a, Offsets(a, 0), |m|) && Offsets(a, 0) != []
    ensures |m1| == |m| && WordAt(m, a.start, Offsets(a, 0)[0], w) != WordAt(m1, a.start, Offsets(a, 0)[0], w)
  {
    hide Offsets, Address;
    var o := Offsets(a, 0)[0];
    assert o in Offsets(a, 0);
    var x := Address(a.start, o, 0);
    m1 := m[x := if m[x] == 0 then 1 else 0];
    assert WordAt(m, a.start, o, w)[0] == m[x] && WordAt(m1, a.start, o, w)[0] == m1[x];
  }

  /** With the default sizes on whole pages only guest memory is read if and only if the
      rounded start is a multiple of 16 or more than 4 GiB are left. */
  lemma DefaultConfined(start: nat, memSize: nat)
    requires StartsIn(start, memSize)
    ensures Confined(DefaultRequest(start, memSize), memSize) <==>
              (start - start % 2) % 16 == 0 || memSize - (start - start % 2) > U32
  {
    hide From, To, Regular, Fits, Extent, Reach, ReadsBelow;
    var r := DefaultRequest(start, memSize);
    var a := Aligned(r, memSize);
    DefaultRange(start, memSize);
    PageEnds(start, memSize);
    DefaultExtent(a.start, a.end);
    RegularParts(a);
    ReadsExactly(r, memSize, memSize);
    ReachIsSmall(a);
    if Fits(a) {
      ReachOfFitting(a);
    }
  }

  // ----- a start near 2^64 -----

  /** A reversed range whose start is so high that pointers wrap: what is printed lies
      below the end of its lines. */
  lemma WrappedStart(a: Request, o: nat)
    requires Sized(a) && a.line % a.word == 0 && a.end < a.start && Base(a, Lines(a)) < U32
    requires o in Offsets(a, 0)
    ensures a.start + Base(a, Lines(a)) >= U64
    ensures WordBelow(a.start, o, a.word, a.start + Base(a, Lines(a)) - U64)
  {
    hide Base, Lines, Offsets, Multiple;
    MultipleAt(a.line, a.word);
    OffsetMembers(a, 0, o);
    assert o + a.start >= U64;
    forall i | 0 <= i < a.word ensures Address(a.start, o, i) < a.start + Base(a, Lines(a)) - U64 {
      assert ByteIndex(o, i) == o + i;
    }
  }

  /** For instance a start 16 below 2^64 on a memory of one page. */
  lemma PageFromTheTop(a: Request)
    requires a == Request(U64 - 16, PAGE, 2, 16)
    ensures a.word > 0 && a.line > 0 && SameText(a, PAGE)
  {
    hide SameText, Offsets, WordBelow;
    assert Lines(a) == 257;
    forall o | o in Offsets(a, 0) ensures WordBelow(a.start, o, a.word, PAGE) {
      WrappedStart(a, o);
    }
    GuestOnly(a, PAGE);
  }

  // ----- a word across offset 2^32 -----

  /** When offsets fit but the last word does not, the loops go through the right offsets
      and yet that word ends with the first bytes of the dump. */
  lemma StraddlingWord(host: seq<byte>, a: Request)
    requires Regular(a) && a.word > 0 && a.line > 0 && OffsetsFit(a) && Extent(a) > U32
    ensures var o := Extent(a) - a.word;
            && o < U32 && o in Offsets(a, 0)
            && WordAt(host, a.start, o, a.word)[U32 - o] == ByteAt(host, a.start)
  {
    hide Regular, Extent, Rows, Base, Offsets, Steps, ByteAt;
    RegularParts(a);
    OffsetsExactly(a);
    LastStep(a);
    assert ByteIndex(Extent(a) - a.word, U32 - (Extent(a) - a.word)) == 0;
  }

  /** For instance words and lines of 3 bytes up to 2^32 + 2. */
  lemma ThreeAcross(a: Request)
    requires a == Request(0, U32 + 2, 3, 3)
    ensures Regular(a) && OffsetsFit(a) && Extent(a) == U32 + 2 && !Fits(a)
  {
  }

  /** And up to 2^32 on a guest memory of 4 GiB: the word past the range wraps to its
      start, so that only guest memory is read. */
  lemma ThreeUpTo4G(a: Request)
    requires a == Request(0, U32, 3, 3)
    ensures Regular(a) && !Fits(a) && a.word > 0 && a.line > 0 && SameText(a, U32)
  {
    hide SameText, Offsets, WordBelow;
    ThreeExtent(a);
    ReachExactly(a, U32);
    GuestOnly(a, U32);
  }

  lemma ThreeExtent(a: Request)
    requires a == Request(0, U32, 3, 3)
    ensures Regular(a) && Extent(a) == U32 + 2 && Reach(a) == U32 && !Fits(a)
  {
  }
}
