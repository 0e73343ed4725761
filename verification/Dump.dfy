/** What the dump of src/kvm/kvm.c means: the text of a sane request is the rendering of
    one slice of memory, can be read back into it, and stays inside guest memory under
    an exact condition. */
module Dump {
  import opened Text
  import opened DumpText
  import opened DumpLoops
  import opened DumpRange
  import opened DumpBytes

  function Length(r: Request, memSize: nat): nat
    requires r.word > 0 && From(r) <= To(r, memSize)
  {
    To(r, memSize) - From(r)
  }

  /** The request makes sense: whole words that the byte counter can count, a range that
      is not reversed, and no index that wraps. */
  predicate Sane(r: Request, memSize: nat) {
    && 0 < r.word <= SIGN32
    && Regular(Aligned(r, memSize))
    && Fits(Aligned(r, memSize))
  }

  /** One past the last byte shown. */
  function ShownEnd(r: Request, memSize: nat): (e: nat)
    requires r.word > 0 && Regular(Aligned(r, memSize))
    ensures e >= From(r)
  {
    From(r) + Extent(Aligned(r, memSize))
  }

  /** Nothing outside guest memory is shown. */
  predicate Inside(r: Request, memSize: nat) {
    Shows(r, memSize, memSize)
  }

  predicate Shows(r: Request, memSize: nat, limit: nat) {
    Sane(r, memSize) && ShownEnd(r, memSize) <= limit
  }

  /** The slice of host memory that a request shows. */
  function Shown(host: seq<byte>, memSize: nat, r: Request): (bytes: seq<byte>)
    requires Shows(r, memSize, |host|)
    ensures |bytes| == Extent(Aligned(r, memSize))
    ensures forall i :: 0 <= i < |bytes| ==> bytes[i] == host[From(r) + i]
  {
    host[From(r)..ShownEnd(r, memSize)]
  }

  /** The text a request gives. */
  function TextOf(host: seq<byte>, memSize: nat, r: Request): string
    requires Shows(r, memSize, |host|)
  {
    Render(Shown(host, memSize, r), From(r), To(r, memSize), r.word, r.line)
  }

  // ----- the text the loops print -----

  lemma FirstOfSteps(host: seq<byte>, a: Request, at: nat, upTo: nat)
    requires a.word > 0 && at + a.word <= upTo
    ensures WordTexts(host, a, Steps(at, upTo, a.word)) ==
              [WordText(host, a.start, at, a.word)] + WordTexts(host, a, Steps(at + a.word, upTo, a.word))
  {
    hide WordText;
    var rest := Steps(at + a.word, upTo, a.word);
    assert Steps(at, upTo, a.word) == [at] + rest && ([at] + rest)[1..] == rest;
  }

  /** A word no byte of which wraps is a slice of memory. */
  lemma PlainWord(host: seq<byte>, start: nat, at: nat, w: nat)
    requires at + w <= U32 && start + at + w <= U64 && start + at + w <= |host|
    ensures WordAt(host, start, at, w) == host[start + at..start + at + w]
  {
  }

  lemma FirstOfTokens(host: seq<byte>, start: nat, at: nat, upTo: nat, w: nat)
    requires 0 < w <= SIGN32 && at + w <= upTo <= U32 && start + upTo <= U64 && start + upTo <= |host|
    ensures Tokens(host[start + at..start + upTo], w) ==
              [WordText(host, start, at, w)] + Tokens(host[start + at + w..start + upTo], w)
  {
    hide WordHex, WordAt;
    PlainWord(host, start, at, w);
    var bytes := host[start + at..start + upTo];
    assert bytes[..w] == host[start + at..start + at + w] && bytes[w..] == host[start + at + w..start + upTo];
  }

  lemma NoneOfSteps(host: seq<byte>, a: Request, at: nat, upTo: nat, bytes: seq<byte>)
    requires a.word > 0 && at + a.word > upTo && |bytes| < a.word
    ensures WordTexts(host, a, Steps(at, upTo, a.word)) == [] && Tokens(bytes, a.word) == []
  {
  }

  lemma {:induction false} TextsOfSteps(host: seq<byte>, a: Request, at: nat, upTo: nat)
    requires 0 < a.word <= SIGN32 && at <= upTo <= U32 && a.start + upTo <= U64 && a.start + upTo <= |host|
    ensures WordTexts(host, a, Steps(at, upTo, a.word)) == Tokens(host[a.start + at..a.start + upTo], a.word)
    decreases upTo - at
  {
    hide WordText, WordTexts, Tokens, Steps;
    if at + a.word <= upTo {
      FirstOfSteps(host, a, at, upTo);
      FirstOfTokens(host, a.start, at, upTo, a.word);
      TextsOfSteps(host, a, at + a.word, upTo);
    } else {
      NoneOfSteps(host, a, at, upTo, host[a.start + at..a.start + upTo]);
    }
  }

  /** A line prints the words from its start to its end, and nothing more. */
  lemma LineWhole(a: Request, line: nat)
    requires Regular(a) && a.word > 0 && Fits(a) && line < Rows(a)
    ensures LineOffsets(a, line, 0) == Steps(Base(a, line), LineEnd(a, line), a.word)
  {
    hide Regular, Rows, Extent, Base, LineEnd, LineOffsets, Steps, OnLine, Tail;
    LineStarts(a, line);
    LineInOrder(a, line, 0);
    LineBounds(a, line);
    if line + 1 < Rows(a) {
      PastTheLine(a, line);
    } else {
      TailExactly(a);
      TailIs(a);
    }
  }

  lemma PlainHead(a: Request, line: nat)
    requires Base(a, line) < U32 && a.start + Base(a, line) < U64
    ensures (a.start + line * a.line % U32) % U64 == a.start + Base(a, line)
  {
  }

  lemma HeadIs(a: Request, line: nat)
    requires Regular(a) && Fits(a) && line < Rows(a)
    ensures (a.start + line * a.line % U32) % U64 == a.start + Base(a, line)
  {
    hide Regular, Rows, Extent, LineEnd, Multiple, Base;
    RegularParts(a);
    LineBounds(a, line);
    LineMultiples(a, line);
    StepInside(Base(a, line), Extent(a), a.word);
    PlainHead(a, line);
  }

  lemma LoopLineIs(host: seq<byte>, a: Request, line: nat)
    requires Regular(a) && 0 < a.word <= SIGN32 && Fits(a) && line < Rows(a) && a.start + Extent(a) <= |host|
    ensures Base(a, line) <= LineEnd(a, line) <= Extent(a)
    ensures LoopLine(host, a, line) ==
              LineText(host[a.start + Base(a, line)..a.start + LineEnd(a, line)], a.start + Base(a, line), a.word)
  {
    hide Regular, Rows, Extent, Base, LineEnd, LineOffsets, Steps, Fits, Tokens, Terminated, LineHead, WordTexts;
    HeadIs(a, line);
    LineBounds(a, line);
    LineWhole(a, line);
    FitsRows(a);
    TextsOfSteps(host, a, Base(a, line), LineEnd(a, line));
  }

  lemma NextLoopLine(host: seq<byte>, a: Request, line: nat)
    requires Regular(a) && line < Rows(a) < U32
    ensures LoopLines(host, a, line) == [LoopLine(host, a, line)] + LoopLines(host, a, line + 1)
    ensures line + 1 == Rows(a) ==> LoopLines(host, a, line + 1) == []
  {
    hide Regular, Rows, Lines, LoopLine;
    RegularParts(a);
    LinesAreRows(a);
  }

  lemma FitsRows(a: Request)
    requires Regular(a) && Fits(a)
    ensures Rows(a) < U32 && Extent(a) <= U32 && a.start + Extent(a) <= U64
  {
  }

  lemma {:induction false} LoopLinesAre(host: seq<byte>, a: Request, line: nat)
    requires Regular(a) && 0 < a.word <= SIGN32 && Fits(a) && line < Rows(a) && a.start + Extent(a) <= |host|
    ensures Base(a, line) <= Extent(a)
    ensures LoopLines(host, a, line) ==
              LineTexts(host[a.start + Base(a, line)..a.start + Extent(a)], a.start + Base(a, line), a.word, a.line)
    decreases Rows(a) - line
  {
    hide Regular, Rows, Extent, Base, LineEnd, LoopLine, LoopLines, LineText, LineTexts, Fits;
    RegularParts(a);
    var from, to := a.start + Base(a, line), a.start + Extent(a);
    LineBounds(a, line);
    LoopLineIs(host, a, line);
    FitsRows(a);
    NextLoopLine(host, a, line);
    if line + 1 < Rows(a) {
      LineBounds(a, line + 1);
      LoopLinesAre(host, a, line + 1);
      NextLineTexts(host, from, to, a.word, a.line);
    } else {
      LastLineText(host[from..to], from, a.word, a.line);
    }
  }

  lemma LastLineText(bytes: seq<byte>, at: nat, w: nat, b: nat)
    requires w > 0 && 0 < |bytes| <= b
    ensures LineTexts(bytes, at, w, b) == [LineText(bytes, at, w)] + []
  {
  }

  lemma NextLineTexts(host: seq<byte>, from: nat, to: nat, w: nat, b: nat)
    requires w > 0 && b > 0 && from + b < to <= |host|
    ensures LineTexts(host[from..to], from, w, b) ==
              [LineText(host[from..from + b], from, w)] + LineTexts(host[from + b..to], from + b, w, b)
  {
    hide LineText;
    assert host[from..to][..b] == host[from..from + b] && host[from..to][b..] == host[from + b..to];
  }

  lemma NoLoopLines(host: seq<byte>, a: Request)
    requires Regular(a) && Rows(a) == 0
    ensures LoopLines(host, a, 0) == [] && Extent(a) == 0
  {
    RegularParts(a);
    BaseZero(a);
  }

  lemma SaneParts(r: Request, memSize: nat)
    requires Sane(r, memSize)
    ensures r.word > 0 && r.line > 0 && r.line % r.word == 0 && From(r) <= To(r, memSize)
  {
    hide From, To, Fits;
  }

  lemma SliceText(host: seq<byte>, a: Request)
    requires Regular(a) && 0 < a.word <= SIGN32 && Fits(a) && a.start + Extent(a) <= |host|
    ensures LoopText(host, a) == Render(host[a.start..a.start + Extent(a)], a.start, a.end, a.word, a.line)
  {
    hide Regular, Fits, Rows, Extent, Base, LoopLines, LineTexts, Header, Terminated;
    RegularParts(a);
    BaseZero(a);
    if Rows(a) > 0 {
      LoopLinesAre(host, a, 0);
    } else {
      NoLoopLines(host, a);
      assert host[a.start..a.start + 0] == [];
      NoBytes(a.start, a.word, a.line);
    }
  }

  /** For a sane request the loops print the rendering of one slice of memory. */
  lemma DumpIsSlice(host: seq<byte>, memSize: nat, r: Request)
    requires r.word > 0 && r.line > 0 && Shows(r, memSize, |host|)
    ensures LoopText(host, Aligned(r, memSize)) == TextOf(host, memSize, r)
  {
    hide From, To, Regular, Fits, Rows, Extent, LoopText, Render;
    SliceText(host, Aligned(r, memSize));
  }

  lemma NoBytes(at: nat, w: nat, b: nat)
    requires w > 0 && b > 0
    ensures LineTexts([], at, w, b) == []
  {
  }

  lemma AtLeastOneWord(a: Request)
    requires Regular(a)
    ensures Extent(a) == 0 || Extent(a) >= a.word
    ensures Extent(a) == 0 <==> a.start == a.end
  {
    RegularParts(a);
    ShownLength(a.end - a.start, a.word, a.line);
    var n := WordCount(a.end - a.start, a.word, a.line);
    hide WordCount, LineCount;
    Monotone(1, if n == 0 then 1 else n, a.word);
  }

  /** What a request of whole words reads ends exactly where its reach does, for a sane
      one the end of its slice. */
  lemma ReadsExactly(r: Request, memSize: nat, limit: nat)
    requires r.word > 0 && r.line > 0 && Regular(Aligned(r, memSize))
    requires Fits(Aligned(r, memSize)) || limit + U32 <= U64
    ensures var reach := Reach(Aligned(r, memSize));
            && (ReadsBelow(r, memSize, limit) <==> reach == 0 || From(r) + reach <= limit)
            && (Sane(r, memSize) ==> From(r) + reach == ShownEnd(r, memSize))
            && (Sane(r, memSize) ==> (reach == 0 <==> From(r) == To(r, memSize)))
  {
    hide From, To, Regular, Extent, Fits, Offsets, AllBelow, Reach;
    var a := Aligned(r, memSize);
    ReachExactly(a, limit);
    AtLeastOneWord(a);
    if Sane(r, memSize) {
      ReachOfFitting(a);
    }
  }

  // ----- coverage -----

  lemma {:induction false} TokenAt(bytes: seq<byte>, w: nat, k: nat)
    requires w > 0 && k * w + w <= |bytes|
    ensures k < |Tokens(bytes, w)| && Tokens(bytes, w)[k] == WordHex(bytes[k * w..k * w + w])
    decreases k
  {
    hide WordHex, Tokens;
    FirstToken(bytes, w, k);
    if k == 0 {
      assert bytes[0..w] == bytes[..w];
    } else {
      var rest, at := bytes[w..], (k - 1) * w;
      OneLess(k, w);
      TokenAt(rest, w, k - 1);
      assert rest[at..at + w] == bytes[at + w..at + w + w];
    }
  }

  lemma FirstToken(bytes: seq<byte>, w: nat, k: nat)
    requires w > 0 && k * w + w <= |bytes|
    ensures w <= |bytes| && Tokens(bytes, w) == [WordHex(bytes[..w])] + Tokens(bytes[w..], w)
  {
    hide WordHex;
    Monotone(0, k, w);
  }

  /** The number a token spells. */
  function HexToken(t: string): nat {
    if AllHex(t) then HexNumber(t) else 0
  }

  /** Address of the k-th word from an address. */
  function WordAddress(from: nat, w: nat, k: nat): nat {
    from + k * w
  }

  /** The w bytes at an address, as far as memory goes. */
  function BytesAt(m: seq<byte>, at: nat, w: nat): seq<byte> {
    if at + w <= |m| then m[at..at + w] else []
  }

  lemma {:induction false} TokensCount(bytes: seq<byte>, w: nat, n: nat)
    requires w > 0 && |bytes| == n * w
    ensures |Tokens(bytes, w)| == n
    decreases n
  {
    if n > 0 {
      assert n * w == (n - 1) * w + w;
      Monotone(0, n - 1, w);
      TokensCount(bytes[w..], w, n - 1);
    }
  }

  lemma SameBytes(m: seq<byte>, bytes: seq<byte>, from: nat, at: nat, w: nat)
    requires at + w <= |bytes| && from + |bytes| <= |m|
    requires forall i :: 0 <= i < |bytes| ==> bytes[i] == m[from + i]
    ensures bytes[at..at + w] == BytesAt(m, from + at, w)
  {
  }

  lemma WordOfTokens(m: seq<byte>, bytes: seq<byte>, from: nat, w: nat, n: nat, k: nat)
    requires w > 0 && |bytes| == n * w && k < n && from + |bytes| <= |m|
    requires forall i :: 0 <= i < |bytes| ==> bytes[i] == m[from + i]
    ensures k < |Tokens(bytes, w)|
    ensures HexToken(Tokens(bytes, w)[k]) == LeValue(BytesAt(m, WordAddress(from, w, k), w))
  {
    hide Tokens, WordHex, LeValue, HexNumber, BytesAt;
    WordEnds(k, n, w);
    TokenAt(bytes, w, k);
    TokenValue(bytes[k * w..k * w + w]);
    SameBytes(m, bytes, from, k * w, w);
  }

  lemma {:induction false} WordsOfTokens(m: seq<byte>, bytes: seq<byte>, from: nat, w: nat, n: nat)
    requires w > 0 && |bytes| == n * w && from + |bytes| <= |m|
    requires forall i :: 0 <= i < |bytes| ==> bytes[i] == m[from + i]
    ensures |Tokens(bytes, w)| == n
    ensures forall k :: 0 <= k < n ==>
              HexToken(Tokens(bytes, w)[k]) == LeValue(BytesAt(m, WordAddress(from, w, k), w))
  {
    hide Tokens, HexToken, LeValue, BytesAt, WordAddress;
    TokensCount(bytes, w, n);
    forall k | 0 <= k < n
      ensures HexToken(Tokens(bytes, w)[k]) == LeValue(BytesAt(m, WordAddress(from, w, k), w))
    {
      WordOfTokens(m, bytes, from, w, n, k);
    }
  }

  lemma ShownWords(a: Request)
    requires Regular(a)
    ensures Extent(a) == WordCount(a.end - a.start, a.word, a.line) * a.word
  {
  }

  /** The words of the text are the words at From, From + word, From + 2 * word and so
      on, none skipped, each spelling the little-endian value of its bytes. */
  lemma WordsInOrder(host: seq<byte>, memSize: nat, r: Request, words: seq<string>)
    requires r.word > 0 && r.line > 0 && From(r) <= To(r, memSize)
    requires Shows(r, memSize, |host|) && words == TextTokens(TextOf(host, memSize, r))
    ensures |words| == WordCount(Length(r, memSize), r.word, r.line)
    ensures forall k :: 0 <= k < |words| ==>
              HexToken(words[k]) == LeValue(BytesAt(host, WordAddress(From(r), r.word, k), r.word))
    ensures WordAddress(From(r), r.word, |words|) == ShownEnd(r, memSize)
  {
    hide Fits, Extent, To, From, WordCount, TextTokens, Render, Tokens, HexToken, LeValue, BytesAt, Regular;
    RegularParts(Aligned(r, memSize));
    SaneParts(r, memSize);
    ShownWords(Aligned(r, memSize));
    var shown := Shown(host, memSize, r);
    RenderedTokens(shown, From(r), To(r, memSize), r.word, r.line);
    WordsOfTokens(host, shown, From(r), r.word, WordCount(Length(r, memSize), r.word, r.line));
  }

  /** They cover the range exactly when whole lines fill it; otherwise they cover the
      words of the range and exactly one more. */
  lemma Coverage(r: Request, memSize: nat)
    requires r.word > 0 && r.line > 0 && From(r) <= To(r, memSize) && Regular(Aligned(r, memSize))
    ensures ShownEnd(r, memSize) == To(r, memSize) <==> Length(r, memSize) % r.line == 0
    ensures Length(r, memSize) % r.line != 0 ==>
              To(r, memSize) < ShownEnd(r, memSize) &&
              ShownEnd(r, memSize) == To(r, memSize) - Length(r, memSize) % r.word + r.word
  {
    hide WordCount, From, To, LineCount;
    ShownLength(Length(r, memSize), r.word, r.line);
  }

  /** Reading the text gives the bytes shown. */
  lemma DumpRoundTrip(host: seq<byte>, memSize: nat, r: Request)
    requires Shows(r, memSize, |host|)
    ensures Unrender(TextOf(host, memSize, r)) == Shown(host, memSize, r)
  {
    hide Unrender, Render, Shown, Fits, From, To, Regular, Extent;
    var a := Aligned(r, memSize);
    RegularParts(a);
    SaneParts(r, memSize);
    ExtentRest(a);
    RoundTrip(Shown(host, memSize, r), From(r), To(r, memSize), r.word, r.line);
  }

  lemma ExtentRest(a: Request)
    requires Regular(a) && a.word > 0
    ensures Extent(a) % a.word == 0
  {
    LineMultiples(a, 0);
  }

  // ----- when a sane dump leaves guest memory -----

  /** A sane dump stays inside guest memory exactly when its range does and whole lines
      fill the range or the word after it still fits; and the loops read nothing outside
      exactly then, or when the range is empty. */
  lemma InsideExactly(r: Request, memSize: nat)
    requires r.word > 0 && r.line > 0 && From(r) <= To(r, memSize) && Sane(r, memSize)
    ensures Inside(r, memSize) <==>
              To(r, memSize) <= memSize &&
              (Length(r, memSize) % r.line == 0 ||
               To(r, memSize) - Length(r, memSize) % r.word + r.word <= memSize)
    ensures ReadsBelow(r, memSize, memSize) <==> Length(r, memSize) == 0 || Inside(r, memSize)
  {
    hide From, To, ShownEnd, Regular, ReadsBelow, Reach, OffsetsFit;
    Coverage(r, memSize);
    ReadsExactly(r, memSize, memSize);
  }

  /** Inside guest memory the rest of the host does not matter. */
  lemma GuestText(host: seq<byte>, memSize: nat, r: Request)
    requires 0 < r.word && 0 < r.line && memSize <= |host| && Inside(r, memSize)
    ensures LoopText(host, Aligned(r, memSize)) == TextOf(host[..memSize], memSize, r)
  {
    hide From, To, Regular, Fits, Extent, LoopText, Render;
    DumpIsSlice(host, memSize, r);
    assert Shown(host, memSize, r) == Shown(host[..memSize], memSize, r);
  }

  /** A dump inside guest memory is confined to it. */
  lemma InsideIsConfined(m: seq<byte>, r: Request)
    requires Sized(r) && Inside(r, |m|)
    ensures Confined(r, |m|) && ServedText(m, r) == TextOf(m, |m|, r)
  {
    hide From, To, Regular, Fits, Extent, LoopText, TextOf, ReadsBelow, Reach;
    ReadsExactly(r, |m|, |m|);
    assert m[..|m|] == m;
    GuestText(m, |m|, r);
  }

  // ----- the default sizes -----

  const PAGE: nat := 0x1000

  function DefaultRequest(start: nat, memSize: nat): Request {
    Request(start, memSize, 2, 16)
  }

  /** A start inside guest memory; mem_size is a signed 64-bit number. */
  predicate StartsIn(start: nat, memSize: nat) {
    start < memSize < SIGN64 && memSize % PAGE == 0
  }

  lemma DefaultRange(start: nat, memSize: nat)
    requires StartsIn(start, memSize)
    ensures Aligned(DefaultRequest(start, memSize), memSize) == Request(start - start % 2, memSize, 2, 16)
  {
  }

  lemma DefaultCounts(len: nat)
    requires len % 2 == 0
    ensures WordCount(len, 2, 16) * 2 == len + if len % 16 == 0 then 0 else 2
    ensures LineCount(len, 16) * 16 - 16 < len <= LineCount(len, 16) * 16
    ensures len == LineCount(len, 16) * 16 <==> len % 16 == 0
    ensures len <= U32 && len % 16 != 0 ==> len + 2 <= U32
  {
  }

  lemma RestIs(k: int, e: nat, d: nat)
    requires e < d && (d == 2 || d == 16)
    ensures (d * k + e) % d == e
  {
  }

  lemma RestOf16(start: nat, end: nat)
    requires start <= end && end % 16 == 0
    ensures (end - start) % 16 == 0 <==> start % 16 == 0
    ensures start % 2 == 0 ==> (end - start) % 2 == 0
  {
    var e, h, a, c := end / 16, start / 2, start / 16, start % 16;
    RestIs(8 * e - h, 0, 2);
    if c == 0 {
      RestIs(e - a, 0, 16);
    } else {
      RestIs(e - a - 1, 16 - c, 16);
    }
  }

  lemma DefaultSizes(start: nat, end: nat)
    requires start <= end < SIGN64
    ensures var a := Request(start, end, 2, 16);
            && Regular(a)
            && Extent(a) == WordCount(end - start, 2, 16) * 2
            && Rows(a) == LineCount(end - start, 16) && Base(a, Rows(a)) == Rows(a) * 16
  {
    hide WordCount, LineCount;
  }

  lemma FitsIn4G(len: nat, n: nat, rows: nat)
    requires rows * 16 - 16 < len <= rows * 16
    requires if len == rows * 16 then n == len else n == len + 2
    ensures rows < U32 && n < U32 + 2 && (n == rows * 16 || n < U32) && n <= U32 <==> len <= U32 && n <= U32
  {
  }

  /** For words of 2 and lines of 16 bytes. */
  lemma DefaultExtent(start: nat, end: nat)
    requires start <= end < SIGN64 && start % 2 == 0 && end % 16 == 0
    ensures var a := Request(start, end, 2, 16);
            && Regular(a)
            && Extent(a) == end - start + (if start % 16 == 0 then 0 else 2)
            && (Fits(a) <==> end - start <= U32)
  {
    hide WordCount, LineCount, Regular, Extent, Rows, Base;
    var a, len := Request(start, end, 2, 16), end - start;
    RestOf16(start, end);
    DefaultCounts(len);
    DefaultSizes(start, end);
    FitsIn4G(len, Extent(a), Rows(a));
  }

  lemma StepsApart(a: Request, len: nat)
    requires a.word == 2 && len > 0 && len % 2 == 0
    ensures Steps(0, len, 2) != [] && Steps(0, len, 2)[|Steps(0, len, 2)| - 1] == len - 2
    ensures Steps(0, len + 2, 2) != Steps(0, len, 2)
  {
    var n := len / 2;
    StepAt(0, n, 2, n - 1);
    StepAt(0, n + 1, 2, n);
  }

  /** With the default end, word and line sizes on a memory of whole pages, the loops
      print the words from the rounded start to the end of memory and no others if and
      only if that start is a multiple of 16 and at most 4 GiB are left; exactly then the
      dump stays inside memory. */
  lemma DefaultDump(start: nat, memSize: nat)
    requires StartsIn(start, memSize)
    ensures var r := DefaultRequest(start, memSize);
            var from := start - start % 2;
            && From(r) == from && To(r, memSize) == memSize
            && (Sane(r, memSize) <==> memSize - from <= U32)
            && (Inside(r, memSize) <==> from % 16 == 0 && memSize - from <= U32)
            && (Inside(r, memSize) ==> ShownEnd(r, memSize) == memSize)
            && (Offsets(Aligned(r, memSize), 0) == Steps(0, memSize - from, 2) <==> Inside(r, memSize))
  {
    hide Offsets, Steps, Regular, Extent, Fits, From, To;
    var r := DefaultRequest(start, memSize);
    var a := Aligned(r, memSize);
    DefaultRange(start, memSize);
    PageEnds(start, memSize);
    DefaultExtent(a.start, a.end);
    WordsThatDivide(a);
    OffsetsExactly(a);
    StepsApart(a, a.end - a.start);
  }

  lemma PageEnds(start: nat, memSize: nat)
    requires StartsIn(start, memSize)
    ensures memSize % 16 == 0 && (start - start % 2) % 2 == 0 && (memSize - (start - start % 2)) % 2 == 0
  {
    RestIs(0x100 * (memSize / PAGE), 0, 16);
    RestIs(start / 2, 0, 2);
    RestOf16(start - start % 2, memSize);
  }

  /** From any other start the last word printed is not guest memory: it is what the
      host holds behind it. */
  lemma PastTheEnd(host: seq<byte>, start: nat, memSize: nat, words: seq<string>)
    requires StartsIn(start, memSize) && memSize + 2 <= |host|
    requires (start - start % 2) % 16 != 0 && memSize - (start - start % 2) <= U32
    requires words == TextTokens(LoopText(host, Aligned(DefaultRequest(start, memSize), memSize)))
    ensures words != []
    ensures HexToken(words[|words| - 1]) == host[memSize] as int + 0x100 * host[memSize + 1] as int
  {
    hide Offsets, Steps, Regular, Extent, Fits, From, To, TextTokens, LoopText, TextOf, HexToken, LeValue, BytesAt;
    var r := DefaultRequest(start, memSize);
    var a := Aligned(r, memSize);
    DefaultRange(start, memSize);
    PageEnds(start, memSize);
    DefaultExtent(a.start, a.end);
    DumpIsSlice(host, memSize, r);
    WordsInOrder(host, memSize, r, words);
    assert WordAddress(From(r), 2, |words| - 1) == memSize;
    TwoBytes(host, memSize);
  }

  lemma TwoBytes(m: seq<byte>, at: nat)
    requires at + 2 <= |m|
    ensures LeValue(BytesAt(m, at, 2)) == m[at] as int + 0x100 * m[at + 1] as int
  {
    var b := m[at..at + 2];
    assert BytesAt(m, at, 2) == b && b[1..][1..] == [];
    assert LeValue(b[1..]) == m[at + 1];
  }

  /** For instance start 2 on a memory of one page: its dump is sane, is not inside, and
      ends with a word that is not guest memory. */
  lemma OneWordTooFar(host: seq<byte>, words: seq<string>)
    requires |host| >= PAGE + 2
    requires words == TextTokens(LoopText(host, Aligned(DefaultRequest(2, PAGE), PAGE)))
    ensures Sane(DefaultRequest(2, PAGE), PAGE) && !Inside(DefaultRequest(2, PAGE), PAGE)
    ensures words != [] && HexToken(words[|words| - 1]) == host[PAGE] as int + 0x100 * host[PAGE + 1] as int
  {
    hide TextTokens, LoopText, HexToken, Sane, Inside, Offsets, Steps, From, To, Aligned;
    PastTheEnd(host, 2, PAGE, words);
    DefaultDump(2, PAGE);
  }

  // ----- requests that are not sane -----

  lemma {:induction false} OffsetsRepeat(a: Request, line: nat, q: nat, word: nat)
    requires a.word > 0 && a.line * q == U32
    ensures LineOffsets(a, line + q, word) == LineOffsets(a, line, word)
    decreases a.line - word
  {
    SameOffset(a, line, q, word);
    hide Offset, Passed;
    if word < a.line {
      OffsetsRepeat(a, line, q, word + a.word);
    }
  }

  lemma SameOffset(a: Request, line: nat, q: nat, word: nat)
    requires a.line * q == U32
    ensures Offset(a, line + q, word) == Offset(a, line, word)
    ensures (line + q) * a.line % U32 == line * a.line % U32
  {
    assert a.line * (line + q) == a.line * line + U32;
    assert (line + q) * a.line == line * a.line + U32;
  }

  /** Past 4 GiB offsets wrap: with lines whose size divides 2^32 the dump starts over
      and repeats its lines, addresses included. */
  lemma LinesRepeat(host: seq<byte>, a: Request, line: nat, q: nat)
    requires a.word > 0 && a.line * q == U32
    ensures LoopLine(host, a, line + q) == LoopLine(host, a, line)
  {
    hide LineHead, LineOffsets, WordTexts, Terminated;
    SameOffset(a, line, q, 0);
    OffsetsRepeat(a, line, q, 0);
  }

  /** A reversed range, such as a start past the end of memory, gives lines of addresses
      without words. */
  lemma {:induction false} NoWords(a: Request, line: nat)
    requires Sized(a) && a.end < a.start <= U64 - U32
    ensures Offsets(a, line) == []
    decreases Lines(a) - line
  {
    hide Lines;
    if line < Lines(a) {
      NoWords(a, line + 1);
      assert Passed(a, Offset(a, line, 0));
    }
  }
}
