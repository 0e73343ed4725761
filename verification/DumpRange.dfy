/** The offsets that the loops of a memory dump go through: those of the words of the
    range in order, if and only if nothing wraps around. */
module DumpRange {
  import opened Text
  import opened DumpText
  import opened DumpLoops

  /** How many words the loops print for a range of len bytes. */
  function WordCount(len: nat, w: nat, b: nat): nat
    requires w > 0 && b > 0
  {
    if len % b == 0 then len / w else len / w + 1
  }

  /** Whole words on a line and a range that is not reversed. */
  predicate Regular(a: Request) {
    Sized(a) && a.line % a.word == 0 && a.start <= a.end
  }

  /** Where the words of the range end, as an offset. */
  function Extent(a: Request): nat
    requires Regular(a)
  {
    WordCount(a.end - a.start, a.word, a.line) * a.word
  }

  /** How many lines the range takes. */
  function Rows(a: Request): nat
    requires Regular(a)
  {
    LineCount(a.end - a.start, a.line)
  }

  /** Where a line starts, as an offset. */
  function Base(a: Request, line: nat): nat {
    line * a.line
  }

  /** No offset wraps around: not that of a word printed, and not that of the word
      after the last, unless it would be on a new line. */
  predicate OffsetsFit(a: Request)
    requires Regular(a)
  {
    && Rows(a) < U32
    && Extent(a) < U32 + a.word
    && (Extent(a) == Base(a, Rows(a)) || (Extent(a) < U32 && a.start + Extent(a) < U64))
  }

  // ----- arithmetic of words and lines -----

  lemma WholeLines(len: nat, w: nat, b: nat)
    requires w > 0 && b > 0 && b % w == 0 && len % b == 0
    ensures WordCount(len, w, b) * w == len == LineCount(len, b) * b
  {
    var q := len / b;
    assert len == q * b;
    LinesInWords(q, b, w);
    MultipleRest(q * (b / w), w);
  }

  lemma Below(q: nat, p: nat, w: nat, x: nat)
    requires q * w <= x < p * w
    ensures (q + 1) * w <= p * w
  {
    if p <= q {
      Monotone(p, q, w);
    }
    Monotone(q + 1, p, w);
  }

  lemma LinesInWords(l: nat, b: nat, w: nat)
    requires w > 0 && b % w == 0
    ensures l * b == l * (b / w) * w
  {
    assert b == b / w * w;
  }

  lemma LastLine(len: nat, b: nat)
    requires b > 0 && len % b != 0
    ensures (LineCount(len, b) - 1) * b < len < LineCount(len, b) * b
  {
    var d := len / b;
    assert len == d * b + len % b && (d + 1) * b == d * b + b;
  }

  lemma RaggedLine(len: nat, w: nat, b: nat)
    requires w > 0 && b > 0 && b % w == 0 && len % b != 0
    ensures WordCount(len, w, b) * w == len - len % w + w
    ensures len < WordCount(len, w, b) * w <= LineCount(len, b) * b
    ensures (LineCount(len, b) - 1) * b < len
  {
    LastLine(len, b);
    LinesInWords(LineCount(len, b), b, w);
    hide LineCount;
    var q := len / w;
    assert len == q * w + len % w && (q + 1) * w == q * w + w;
    Below(q, LineCount(len, b) * (b / w), w, len);
  }

  /** The bytes shown: exactly the range when whole lines fill it, and otherwise
      the words of the range and one more. */
  lemma ShownLength(len: nat, w: nat, b: nat)
    requires w > 0 && b > 0 && b % w == 0
    ensures var n := WordCount(len, w, b) * w;
            && (len % b == 0 ==> n == len)
            && (len % b != 0 ==> n == len - len % w + w)
            && n <= LineCount(len, b) * b
            && (len % b != 0 ==> (LineCount(len, b) - 1) * b < n)
  {
    if len % b == 0 {
      WholeLines(len, w, b);
    } else {
      RaggedLine(len, w, b);
    }
  }

  /** The loop's own test, offset + start > end, stops it exactly after the words
      counted above. */
  lemma StopTest(len: nat, w: nat, b: nat, offset: nat)
    requires w > 0 && b > 0 && b % w == 0 && offset % w == 0
    requires offset < LineCount(len, b) * b
    ensures offset <= len <==> offset < WordCount(len, w, b) * w
  {
    ShownLength(len, w, b);
    var k, q := offset / w, len / w;
    assert offset == k * w && q * w <= len < (q + 1) * w;
    if len % b != 0 {
      if k <= q {
        Monotone(k, q, w);
        Monotone(k + 1, q + 1, w);
      } else {
        Monotone(q + 1, k, w);
      }
    }
  }

  predicate Multiple(x: nat, w: nat)
    requires w > 0
  {
    x % w == 0
  }

  lemma NextMultiple(x: nat, y: nat, w: nat)
    requires w > 0 && x % w == 0 && y % w == 0 && x < y
    ensures x + w <= y && (x + w) % w == 0
  {
    var i, j := x / w, y / w;
    assert x == i * w && y == j * w;
    if i >= j {
      Monotone(j, i, w);
    }
    Monotone(i + 1, j, w);
    assert x + w == (i + 1) * w;
    MultipleRest(i + 1, w);
  }

  lemma MultipleOfMultiple(q: nat, b: nat, w: nat)
    requires w > 0 && b % w == 0
    ensures q * b % w == 0
  {
    assert b == b / w * w;
    assert q * b == q * (b / w) * w;
    MultipleRest(q * (b / w), w);
  }

  /** Where the bytes of a line end, as an offset. */
  function LineEnd(a: Request, line: nat): nat
    requires Regular(a)
  {
    if Base(a, line + 1) < Extent(a) then Base(a, line + 1) else Extent(a)
  }

  /** All lines but the last are full, and the last ends where the words do. */
  lemma LineBounds(a: Request, line: nat)
    requires Regular(a) && line < Rows(a)
    ensures Base(a, line) < LineEnd(a, line) <= Extent(a) <= Base(a, Rows(a))
    ensures Base(a, line + 1) == Base(a, line) + a.line <= Base(a, Rows(a))
    ensures line + 1 < Rows(a) ==> LineEnd(a, line) == Base(a, line + 1)
    ensures line + 1 == Rows(a) ==> LineEnd(a, line) == Extent(a)
    ensures LineEnd(a, line) <= Base(a, line + 1) && Base(a, line) <= a.end - a.start
  {
    var w, b, n := a.word, a.line, Rows(a);
    LastBase(a);
    hide Rows, Extent, Regular;
    assert (line + 1) * b == line * b + b;
    Monotone(line + 1, n, b);
    Monotone(line, n - 1, b);
    if line + 1 < n {
      Monotone(line + 1, n - 1, b);
    }
  }

  lemma LastBase(a: Request)
    requires Regular(a) && Rows(a) > 0
    ensures (Rows(a) - 1) * a.line < Extent(a) <= Rows(a) * a.line && a.line > 0
    ensures (Rows(a) - 1) * a.line < a.end - a.start
  {
    var len, w, b := a.end - a.start, a.word, a.line;
    ShownLength(len, w, b);
    if len % b == 0 {
      WholeLines(len, w, b);
    } else {
      LastLine(len, b);
    }
    hide WordCount, LineCount;
    assert (Rows(a) - 1) * b == Rows(a) * b - b;
  }

  lemma LineMultiples(a: Request, line: nat)
    requires Regular(a)
    ensures Multiple(Base(a, line), a.word) && Multiple(LineEnd(a, line), a.word) && Multiple(Extent(a), a.word)
  {
    MultipleOfMultiple(line, a.line, a.word);
    MultipleOfMultiple(line + 1, a.line, a.word);
    MultipleRest(WordCount(a.end - a.start, a.word, a.line), a.word);
  }

  /** The loop's own test, on an offset that does not wrap, stops after the words of
      the range. */
  lemma StopTestAt(a: Request, offset: nat)
    requires Regular(a) && Multiple(offset, a.word) && offset < Base(a, Rows(a))
    ensures offset <= a.end - a.start <==> offset < Extent(a)
  {
    StopTest(a.end - a.start, a.word, a.line, offset);
  }

  // ----- which offsets the loops go through -----

  /** at, at + w and so on, as long as whole words end by upTo. */
  function Steps(at: nat, upTo: nat, w: nat): seq<nat>
    requires w > 0
    decreases upTo - at
  {
    if at + w > upTo then [] else [at] + Steps(at + w, upTo, w)
  }

  lemma {:induction false} StepsSplit(at: nat, mid: nat, upTo: nat, w: nat)
    requires w > 0 && at <= mid <= upTo && Multiple(at, w) && Multiple(mid, w)
    ensures Steps(at, upTo, w) == Steps(at, mid, w) + Steps(mid, upTo, w)
    decreases mid - at
  {
    if at < mid {
      NextMultiple(at, mid, w);
      StepsSplit(at + w, mid, upTo, w);
    }
  }

  lemma {:induction false} StepAt(at: nat, n: nat, w: nat, k: nat)
    requires w > 0 && k < n
    ensures |Steps(at, at + n * w, w)| == n && Steps(at, at + n * w, w)[k] == at + k * w
    decreases n
  {
    assert n * w == (n - 1) * w + w;
    Monotone(0, n - 1, w);
    assert at + n * w == (at + w) + (n - 1) * w;
    if k > 0 {
      assert k * w == (k - 1) * w + w;
      StepAt(at + w, n - 1, w, k - 1);
    } else if n > 1 {
      StepAt(at + w, n - 1, w, 0);
    }
  }

  /** What follows the words of the range on the last line: nothing, unless the test
      that should end the line is made on a wrapped offset. */
  function Tail(a: Request): seq<nat>
    requires Regular(a)
  {
    if Rows(a) == 0 || Extent(a) < Base(a, Rows(a) - 1) then []
    else LineOffsets(a, Rows(a) - 1, Extent(a) - Base(a, Rows(a) - 1))
  }

  lemma OffsetIs(a: Request, line: nat, word: nat)
    requires Base(a, line) + word < U32
    ensures Offset(a, line, word) == Base(a, line) + word
  {
  }

  lemma NotPassed(a: Request, offset: nat)
    requires a.start <= a.end < U64 && offset <= a.end - a.start
    ensures !Passed(a, offset)
  {
  }

  lemma StepInside(at: nat, upTo: nat, w: nat)
    requires w > 0 && at < upTo && Multiple(at, w) && Multiple(upTo, w)
    ensures at + w <= upTo && Multiple(at + w, w)
  {
    NextMultiple(at, upTo, w);
  }

  lemma RegularParts(a: Request)
    requires Regular(a)
    ensures 0 < a.word < U32 && 0 < a.line < U32 && a.start <= a.end < U64
  {
  }

  lemma DoesNotWrap(x: nat, m: nat)
    requires x < m
    ensures x % m == x
  {
  }

  lemma LinesAreRows(a: Request)
    requires Regular(a) && a.line > 0
    ensures Lines(a) == Rows(a) % U32 && (Rows(a) < U32 ==> Lines(a) == Rows(a))
  {
    hide Regular, LineCount;
    RegularParts(a);
    DoesNotWrap(a.end - a.start, U64);
    if Rows(a) < U32 {
      DoesNotWrap(Rows(a), U32);
    }
  }

  /** Whole words of a line still to come, from one word on. */
  ghost predicate OnLine(a: Request, line: nat, word: nat) {
    && Regular(a) && Extent(a) < U32 + a.word && line < Rows(a)
    && Multiple(Base(a, line) + word, a.word) && Base(a, line) + word <= LineEnd(a, line)
  }

  /** The word at an offset before the end of its line is printed there. */
  lemma WordIsPrinted(a: Request, line: nat, word: nat)
    requires a.word > 0 && OnLine(a, line, word) && Base(a, line) + word < LineEnd(a, line)
    ensures LineOffsets(a, line, word) == [Base(a, line) + word] + LineOffsets(a, line, word + a.word)
    ensures Base(a, line) + word + a.word <= LineEnd(a, line) && OnLine(a, line, word + a.word)
  {
    hide Regular, Rows, Extent, Base, LineEnd, Passed, Offset, Multiple;
    RegularParts(a);
    var at := Base(a, line) + word;
    LineBounds(a, line);
    LineMultiples(a, line);
    StepInside(at, LineEnd(a, line), a.word);
    StopTestAt(a, at);
    NotPassed(a, at);
    OffsetIs(a, line, word);
  }

  /** A line holds its words in order; whatever follows them comes after its end. */
  lemma {:induction false} LineInOrder(a: Request, line: nat, word: nat)
    requires a.word > 0 && OnLine(a, line, word)
    ensures LineOffsets(a, line, word) ==
              Steps(Base(a, line) + word, LineEnd(a, line), a.word) +
              LineOffsets(a, line, LineEnd(a, line) - Base(a, line))
    decreases LineEnd(a, line) - Base(a, line) - word
  {
    hide Regular, Rows, Extent, Base, LineEnd, LineOffsets, Multiple;
    if Base(a, line) + word < LineEnd(a, line) {
      WordIsPrinted(a, line, word);
      LineInOrder(a, line, word + a.word);
    }
  }

  lemma PastTheLine(a: Request, line: nat)
    requires a.word > 0
    ensures LineOffsets(a, line, a.line) == []
  {
  }

  lemma NextOffsets(a: Request, line: nat)
    requires Regular(a) && line < Rows(a) < U32
    ensures Offsets(a, line) == LineOffsets(a, line, 0) + Offsets(a, line + 1)
    ensures line + 1 == Rows(a) ==> Offsets(a, line + 1) == []
  {
    hide Regular, Rows, Lines, LineOffsets;
    RegularParts(a);
    LinesAreRows(a);
  }

  lemma LineStarts(a: Request, line: nat)
    requires Regular(a) && Extent(a) < U32 + a.word && line < Rows(a)
    ensures OnLine(a, line, 0) && Multiple(Base(a, line), a.word)
  {
    LineBounds(a, line);
    LineMultiples(a, line);
    hide Regular, Rows, Extent, Base, LineEnd, Multiple;
  }

  /** The offsets that the loops go through from a line on. */
  lemma {:induction false} InOrder(a: Request, line: nat)
    requires Regular(a) && Extent(a) < U32 + a.word && line < Rows(a) < U32
    ensures Offsets(a, line) == Steps(Base(a, line), Extent(a), a.word) + Tail(a)
    decreases Rows(a) - line
  {
    hide Regular, Rows, Extent, Base, LineEnd, LineOffsets, Multiple, Offsets, Steps, Tail, OnLine;
    RegularParts(a);
    LineBounds(a, line);
    LineStarts(a, line);
    LineInOrder(a, line, 0);
    NextOffsets(a, line);
    if line + 1 < Rows(a) {
      InOrder(a, line + 1);
      PastTheLine(a, line);
      LineBounds(a, line + 1);
      LineStarts(a, line + 1);
      StepsSplit(Base(a, line), Base(a, line + 1), Extent(a), a.word);
      Glue(Steps(Base(a, line), Base(a, line + 1), a.word), Steps(Base(a, line + 1), Extent(a), a.word), Tail(a));
    } else {
      TailIs(a);
    }
  }

  lemma Glue(p: seq<nat>, q: seq<nat>, t: seq<nat>)
    ensures (p + []) + (q + t) == (p + q) + t && t + [] == t
  {
  }

  lemma Ragged(a: Request)
    requires Regular(a) && Extent(a) < Base(a, Rows(a))
    ensures a.end - a.start < Extent(a) <= a.end - a.start + a.word
  {
    ShownLength(a.end - a.start, a.word, a.line);
    LineMultiples(a, 0);
    StopTestAt(a, Extent(a));
    hide WordCount, LineCount;
  }

  lemma PassedExactly(a: Request, at: nat)
    requires a.start <= a.end < U64 && a.word < U32 && at < U32 + a.word
    requires a.end - a.start < at <= a.end - a.start + a.word
    ensures Passed(a, at % U32) <==> at < U32 && a.start + at < U64
  {
    if at >= U32 {
      assert at % U32 == at - U32;
      NotPassed(a, at - U32);
    } else if a.start + at >= U64 {
      assert (a.start + at) % U64 == a.start + at - U64;
    }
  }

  lemma TailIs(a: Request)
    requires Regular(a) && Rows(a) > 0 && a.word > 0
    ensures Base(a, Rows(a) - 1) < Extent(a) <= Base(a, Rows(a)) == Base(a, Rows(a) - 1) + a.line
    ensures Tail(a) == LineOffsets(a, Rows(a) - 1, Extent(a) - Base(a, Rows(a) - 1))
  {
    LineBounds(a, Rows(a) - 1);
    hide Regular, Rows, Extent, Base, LineOffsets;
  }

  /** The test after the last word ends the line exactly when its offset does not wrap. */
  lemma TailExactly(a: Request)
    requires Regular(a) && Extent(a) < U32 + a.word && Rows(a) > 0
    ensures Tail(a) == [] <==>
              Extent(a) == Base(a, Rows(a)) || (Extent(a) < U32 && a.start + Extent(a) < U64)
  {
    hide Regular, Rows, Extent, Base, Offset, Passed, Tail;
    RegularParts(a);
    var line := Rows(a) - 1;
    TailIs(a);
    if Extent(a) == Base(a, Rows(a)) {
      PastTheLine(a, line);
    } else {
      Ragged(a);
      WrappedOffset(a, line, Extent(a));
      PassedExactly(a, Extent(a));
    }
  }

  lemma WrappedOffset(a: Request, line: nat, at: nat)
    requires Base(a, line) <= at
    ensures Offset(a, line, at - Base(a, line)) == at % U32
  {
  }

  /** A range of 2^32 lines or more is not shown: its words have offsets past 32 bits,
      or the count of lines wraps to none. */
  lemma TooManyRows(a: Request)
    requires Regular(a) && Extent(a) < U32 + a.word && Rows(a) >= U32
    ensures Lines(a) == 0 && Extent(a) >= a.word
  {
    RegularParts(a);
    LinesAreRows(a);
    LastBase(a);
    var n, w, b := WordCount(a.end - a.start, a.word, a.line), a.word, a.line;
    assert Extent(a) == n * w;
    WordsFillLines(b, w);
    hide Regular, Rows, Extent, WordCount, LineCount;
    FewWords(n, Rows(a), w, b);
  }

  lemma WordsFillLines(b: nat, w: nat)
    requires w > 0 && b > 0 && b % w == 0
    ensures w <= b
  {
  }

  lemma Wider(q: nat, w: nat, b: nat)
    requires w <= b
    ensures q * w <= q * b
  {
  }

  lemma OneLess(n: nat, w: nat)
    requires n > 0
    ensures (n - 1) * w == n * w - w
  {
  }

  lemma FewWords(n: nat, rows: nat, w: nat, b: nat)
    requires 0 < w <= b && rows >= U32 && (rows - 1) * b < n * w < U32 + w
    ensures rows == U32 && w <= n * w
  {
    Wider(rows - 1, w, b);
    Cancels(rows - 1, n, w);
    OneLess(n, w);
    Wider(n - 1, if w >= 2 then 2 else 1, w);
  }

  /** The loops print the words at start, start + w, and so on, up to the end of the
      range and one more if lines do not fill it, if and only if no offset wraps. */
  lemma OffsetsExactly(a: Request)
    requires Regular(a)
    ensures Offsets(a, 0) == Steps(0, Extent(a), a.word) <==> OffsetsFit(a)
  {
    hide Regular, Rows, Extent, Base, Tail, Lines, LineOffsets;
    RegularParts(a);
    LinesAreRows(a);
    BaseZero(a);
    if Extent(a) >= U32 + a.word {
      LastStep(a);
    } else if Rows(a) >= U32 {
      TooManyRows(a);
    } else if Rows(a) > 0 {
      InOrder(a, 0);
      TailExactly(a);
    }
  }

  lemma BaseZero(a: Request)
    requires Regular(a)
    ensures Base(a, 0) == 0 && (Rows(a) == 0 ==> Extent(a) == 0)
  {
    ShownLength(a.end - a.start, a.word, a.line);
  }

  lemma LastStep(a: Request)
    requires Regular(a) && Extent(a) >= a.word
    ensures var os := Steps(0, Extent(a), a.word);
            os != [] && os[|os| - 1] == Extent(a) - a.word
  {
    var n, w := WordCount(a.end - a.start, a.word, a.line), a.word;
    assert Extent(a) == n * w;
    hide WordCount;
    assert n != 0;
    assert (n - 1) * w == n * w - w;
    StepAt(0, n, w, n - 1);
  }

  lemma WordEnds(k: nat, n: nat, w: nat)
    requires k < n
    ensures k * w + w <= n * w
  {
    Monotone(k + 1, n, w);
    OneLess(k + 1, w);
  }
}
