/** What a reader of a dump can tell from its text alone: the range it announces, the
    address of each line, and from these the address of every word. */
module DumpReading {
  import opened Text
  import opened Numbers
  import opened DumpText
  import opened DumpLoops
  import opened DumpRange
  import opened DumpBytes
  import opened Dump

  // ----- what is aligned and clamped -----

  /** The dump starts at the word that holds start. */
  lemma StartsAtWord(r: Request)
    requires r.word > 0
    ensures From(r) % r.word == 0 && From(r) <= r.start < From(r) + r.word
  {
    var q := r.start / r.word;
    assert From(r) == q * r.word;
    MultipleRest(q, r.word);
  }

  lemma Between(q: nat, p: nat, e: nat, w: nat)
    requires e < w && q * w + e <= p * w < q * w + e + w
    ensures p == if e == 0 then q else q + 1
  {
    OneLess(q + 1, w);
    OneLess(q + 2, w);
    Cancels(p, q + 2, w);
    if p < q {
      Monotone(p + 1, q, w);
      OneLess(p + 1, w);
    }
  }

  lemma Divided(x: nat, w: nat)
    requires w > 0
    ensures x == x / w * w + x % w
  {
  }

  lemma NextUp(end: nat, w: nat, c: nat)
    requires w > 0 && c % w == 0 && end <= c < end + w
    ensures c == if end % w == 0 then end else end - end % w + w
  {
    Divided(end, w);
    Divided(c, w);
    Between(end / w, c / w, end % w, w);
    OneLess(end / w + 1, w);
  }

  lemma RoundedIs(end: nat, w: nat, c: nat)
    requires 0 < w < U32 && end < U64 && c % w == 0 && end <= c < end + w
    ensures RoundedUp(end, w) == if c < U64 then c else c - U64
  {
    NextUp(end, w, c);
    Wraps(c);
  }

  lemma Wraps(c: nat)
    requires c < U64 + U32
    ensures c % U64 == if c < U64 then c else c - U64
  {
  }

  /** It ends at the first word boundary c from end on, or at the end of memory if that
      comes first. Boundaries from 2^63 on count as negative and are not cut, and 2^64
      wraps to 0. */
  lemma EndsAtWord(r: Request, memSize: nat, c: nat)
    requires 0 < r.word < U32 && r.end < U64 && c % r.word == 0 && r.end <= c < r.end + r.word
    ensures c < 0x8000_0000_0000_0000 ==> To(r, memSize) == if memSize < c then memSize else c
    ensures 0x8000_0000_0000_0000 <= c < U64 ==> To(r, memSize) == c
    ensures c >= U64 ==> To(r, memSize) == if memSize < c - U64 then memSize else c - U64
  {
    hide RoundedUp;
    RoundedIs(r.end, r.word, c);
  }

  /** A word of at most 2^31 bytes is printed with two digits a byte, a larger one not
      at all. */
  lemma WordDigits(host: seq<byte>, start: nat, o: nat, w: nat)
    ensures |WordText(host, start, o, w)| == if w <= 0x8000_0000 then 2 * w else 0
  {
    hide WordHex;
    WordHexLength(WordAt(host, start, o, w));
  }

  // ----- the lines of a text -----

  lemma WordTextIsHex(host: seq<byte>, start: nat, o: nat, w: nat)
    ensures AllHex(WordText(host, start, o, w))
  {
  }

  lemma {:induction false} WordTextsAreHex(host: seq<byte>, a: Request, os: seq<nat>)
    ensures AllWithout(WordTexts(host, a, os), ' ') && AllWithout(WordTexts(host, a, os), '\n')
  {
    hide WordText;
    if os != [] {
      WordTextsAreHex(host, a, os[1..]);
      WordTextIsHex(host, a.start, os[0], a.word);
    }
  }

  lemma LoopLineIsOne(host: seq<byte>, a: Request, line: nat)
    requires a.word > 0
    ensures Without(LoopLine(host, a, line), '\n')
  {
    hide LineHead, WordTexts, LineOffsets, Terminated, AllWithout;
    WordTextsAreHex(host, a, LineOffsets(a, line, 0));
    TerminatedHasNo(WordTexts(host, a, LineOffsets(a, line, 0)), ' ', '\n');
    LineHeadIsPlain((a.start + line * a.line % U32) % U64);
  }

  lemma {:induction false} LoopLineAt(host: seq<byte>, a: Request, line: nat)
    requires a.word > 0 && a.line > 0 && line <= Lines(a)
    ensures |LoopLines(host, a, line)| == Lines(a) - line && AllWithout(LoopLines(host, a, line), '\n')
    ensures forall k :: line <= k < Lines(a) ==> LoopLines(host, a, line)[k - line] == LoopLine(host, a, k)
    decreases Lines(a) - line
  {
    hide LoopLine, Lines, Without;
    if line < Lines(a) {
      LoopLineAt(host, a, line + 1);
      LoopLineIsOne(host, a, line);
      assert LoopLines(host, a, line) == [LoopLine(host, a, line)] + LoopLines(host, a, line + 1);
    }
  }

  /** The text is its header and its lines, each ended by a newline. */
  lemma TextLines(host: seq<byte>, a: Request)
    requires a.word > 0 && a.line > 0
    ensures var ls := Split(LoopText(host, a), '\n');
            && |ls| == Lines(a) + 2 && ls[0] == Header(a.start, a.end) && ls[|ls| - 1] == ""
            && forall k :: 0 <= k < Lines(a) ==> ls[k + 1] == LoopLine(host, a, k)
  {
    hide LoopLine, LoopLines, Header, Lines, Without;
    var head, lines := Header(a.start, a.end), LoopLines(host, a, 0);
    LoopLineAt(host, a, 0);
    HeaderIsOneLine(a.start, a.end);
    var all := [head] + lines;
    assert all[1..] == lines;
    assert LoopText(host, a) == Terminated(all, '\n');
    assert AllWithout(all, '\n');
    SplitOfTerminated(all, '\n');
    forall k | 0 <= k < Lines(a) ensures (all + [""])[k + 1] == LoopLine(host, a, k) {
      assert all[k + 1] == lines[k - 0];
    }
  }

  // ----- the range announced -----

  lemma HeaderParts(from: nat, to: nat)
    ensures Split(Header(from, to), '@') == ["mem dump: ", Decimal(from) + " -> ", Decimal(to)]
  {
    hide Decimal;
    var first, second := Decimal(from) + " -> ", Decimal(to);
    var fs := ["mem dump: ", first, second];
    assert fs[1..] == [first, second] && fs[1..][1..] == [second];
    assert Join([second], '@') == second;
    assert Join([first, second], '@') == first + ['@'] + second;
    assert Join(fs, '@') == "mem dump: " + ['@'] + (first + ['@'] + second);
    assert Header(from, to) == Join(fs, '@');
    SplitOfJoin(fs, '@');
  }

  /** Whatever the request, the first line names two numbers, each after an @: where the
      dump starts and where its range ends, in this order. */
  lemma AnnouncedRange(host: seq<byte>, memSize: nat, r: Request)
    requires r.word > 0 && r.line > 0
    ensures var ps := Split(Split(LoopText(host, Aligned(r, memSize)), '\n')[0], '@');
            && |ps| == 3 && ps[0] == "mem dump: "
            && LeadingNumber(ps[1]) == From(r) && ps[1][DigitRun(ps[1])..] == " -> "
            && LeadingNumber(ps[2]) == To(r, memSize) && DigitRun(ps[2]) == |ps[2]|
  {
    hide LoopText, Header, LeadingNumber, DigitRun, Decimal, From, To, LoopLine, Lines;
    var a := Aligned(r, memSize);
    TextLines(host, a);
    HeaderParts(a.start, a.end);
    NumberThen(a.start, " -> ");
    NumberThen(a.end, "");
    assert Decimal(a.end) + "" == Decimal(a.end);
    assert (Decimal(a.start) + " -> ")[|Decimal(a.start)|..] == " -> ";
  }

  // ----- the address of a line, and of a word -----

  /** The address that a line starts with. */
  function LineAddress(line: string): nat {
    var h := Find(line, '\t');
    if h >= 2 && line[..2] == "0x" && AllHex(line[2..h]) then HexNumber(line[2..h]) else 0
  }

  lemma AddressOfHead(at: nat, body: string)
    ensures LineAddress(LineHead(at) + "\t" + body) == at
  {
    hide Hex8, HexNumber, Find;
    var line := LineHead(at) + "\t" + body;
    LineHeadIsPlain(at);
    AfterTab(LineHead(at), body);
    LineHeadSpells(at);
    assert line[..2] == LineHead(at)[..2] && line[2..|LineHead(at)|] == LineHead(at)[2..];
  }

  lemma LineParts(host: seq<byte>, a: Request, k: nat)
    requires a.word > 0
    ensures LineAddress(LoopLine(host, a, k)) == (a.start + k * a.line % U32) % U64
    ensures LineTokens(LoopLine(host, a, k)) == WordTexts(host, a, LineOffsets(a, k, 0))
  {
    hide LineHead, LineAddress, WordTexts, LineOffsets, Terminated, AllWithout, Without;
    var at, ts := (a.start + k * a.line % U32) % U64, WordTexts(host, a, LineOffsets(a, k, 0));
    AddressOfHead(at, Terminated(ts, ' '));
    WordTextsAreHex(host, a, LineOffsets(a, k, 0));
    SplitOfTerminated(ts, ' ');
    LineHeadIsPlain(at);
    AfterTab(LineHead(at), Terminated(ts, ' '));
    assert (ts + [""])[..|ts|] == ts;
  }

  /** Line k of a text, after its header. */
  function TextLine(text: string, k: nat): string {
    var ls := Split(text, '\n');
    if k + 1 < |ls| then ls[k + 1] else ""
  }

  /** Whatever the request, line k starts with the address of its first word, in the
      widths of the source, and holds the words that the middle loop goes through. */
  lemma AnnouncedLines(host: seq<byte>, a: Request, k: nat)
    requires a.word > 0 && a.line > 0 && k < Lines(a)
    ensures var line := TextLine(LoopText(host, a), k);
            && LineAddress(line) == (a.start + k * a.line % U32) % U64
            && LineTokens(line) == WordTexts(host, a, LineOffsets(a, k, 0))
  {
    hide LoopText, LoopLine, Lines, LineAddress, LineTokens, WordTexts, LineOffsets;
    TextLines(host, a);
    LineParts(host, a, k);
  }

  lemma LineWords(host: seq<byte>, a: Request, k: nat)
    requires Regular(a) && 0 < a.word <= SIGN32 && Fits(a) && k < Rows(a) && a.start + Extent(a) <= |host|
    ensures Base(a, k) <= LineEnd(a, k) <= Extent(a)
    ensures WordTexts(host, a, LineOffsets(a, k, 0)) ==
              Tokens(host[a.start + Base(a, k)..a.start + LineEnd(a, k)], a.word)
  {
    hide Regular, Rows, Extent, Base, LineEnd, LineOffsets, Steps, Fits, Tokens, WordTexts;
    LineBounds(a, k);
    LineWhole(a, k);
    FitsRows(a);
    TextsOfSteps(host, a, Base(a, k), LineEnd(a, k));
  }

  lemma WordOfLine(host: seq<byte>, at: nat, upTo: nat, w: nat, j: nat)
    requires w > 0 && at <= upTo <= |host| && (upTo - at) % w == 0 && j < |Tokens(host[at..upTo], w)|
    ensures |Tokens(host[at..upTo], w)| * w == upTo - at
    ensures HexToken(Tokens(host[at..upTo], w)[j]) == LeValue(BytesAt(host, WordAddress(at, w, j), w))
  {
    hide Tokens, HexToken, LeValue, BytesAt;
    var bytes, n := host[at..upTo], (upTo - at) / w;
    assert |bytes| == n * w;
    TokensCount(bytes, w, n);
    WordOfTokens(host, bytes, at, w, n, j);
  }

  lemma LineRest0(a: Request, k: nat)
    requires Regular(a) && a.word > 0 && k < Rows(a)
    ensures (LineEnd(a, k) - Base(a, k)) % a.word == 0
  {
    hide Regular, Rows, Extent, Base, LineEnd, Multiple;
    LineBounds(a, k);
    LineMultiples(a, k);
    DifferenceOf(LineEnd(a, k), Base(a, k), a.word);
    MultipleRest((LineEnd(a, k) - Base(a, k)) / a.word, a.word);
  }

  /** In the text of a dump in which nothing wraps every word can be placed: line k starts
      with the address start + k * line, its j-th word is the one at that address plus
      j * word, and all lines but the last are full. */
  lemma EveryWordIsPlaced(host: seq<byte>, a: Request, k: nat, line: string, j: nat)
    requires Regular(a) && 0 < a.word <= SIGN32 && 0 < a.line && Fits(a)
    requires a.start + Extent(a) <= |host| && k < Rows(a)
    requires line == TextLine(LoopText(host, a), k) && j < |LineTokens(line)|
    ensures LineAddress(line) == a.start + k * a.line
    ensures HexToken(LineTokens(line)[j]) ==
              LeValue(BytesAt(host, WordAddress(LineAddress(line), a.word, j), a.word))
    ensures k + 1 < Rows(a) ==> |LineTokens(line)| * a.word == a.line
  {
    hide LoopText, LineAddress, LineTokens, Tokens, HexToken, LeValue, BytesAt, WordTexts, LineOffsets,
      Regular, Fits, Extent, Rows, LineEnd, Lines, WordAddress, TextLine;
    FitsRows(a);
    LinesAreRows(a);
    AnnouncedLines(host, a, k);
    HeadIs(a, k);
    LineWords(host, a, k);
    LineBounds(a, k);
    LineRest0(a, k);
    WordOfLine(host, a.start + Base(a, k), a.start + LineEnd(a, k), a.word, j);
  }
}
