/** The bytes that the loops of a memory dump read: those of the range in order if and
    only if no index wraps around, and how far they reach whatever wraps. */
module DumpBytes {
  import opened Text
  import opened DumpText
  import opened DumpLoops
  import opened DumpRange

  /** No offset wraps around, no byte index inside a word does, and no pointer does. */
  predicate Fits(a: Request)
    requires Regular(a)
  {
    OffsetsFit(a) && Extent(a) <= U32 && a.start + Extent(a) <= U64
  }

  function WordAddresses(start: nat, offset: nat, w: nat): (xs: seq<nat>)
    ensures |xs| == w && forall i :: 0 <= i < w ==> xs[i] == Address(start, offset, i)
  {
    seq(w, i requires 0 <= i => Address(start, offset, i))
  }

  /** Addresses of the bytes read for the words at some offsets, word by word and within a
      word in the order of its bytes. */
  function Addresses(start: nat, os: seq<nat>, w: nat): seq<nat> {
    if os == [] then [] else WordAddresses(start, os[0], w) + Addresses(start, os[1..], w)
  }

  function Interval(at: nat, upTo: nat): (xs: seq<nat>)
    requires at <= upTo
    ensures |xs| == upTo - at && forall i :: 0 <= i < |xs| ==> xs[i] == at + i
  {
    seq(upTo - at, i requires 0 <= i => at + i)
  }

  lemma PlainAddresses(start: nat, at: nat, w: nat)
    requires at + w <= U32 && start + at + w <= U64
    ensures WordAddresses(start, at, w) == Interval(start + at, start + at + w)
  {
  }

  lemma IntervalSplit(at: nat, mid: nat, upTo: nat)
    requires at <= mid <= upTo
    ensures Interval(at, upTo) == Interval(at, mid) + Interval(mid, upTo)
  {
  }

  lemma {:induction false} StepsAddresses(start: nat, at: nat, upTo: nat, w: nat)
    requires w > 0 && at <= upTo <= U32 && start + upTo <= U64 && Multiple(at, w) && Multiple(upTo, w)
    ensures Addresses(start, Steps(at, upTo, w), w) == Interval(start + at, start + upTo)
    decreases upTo - at
  {
    hide Multiple, WordAddresses, Interval;
    if at < upTo {
      StepInside(at, upTo, w);
      var rest := Steps(at + w, upTo, w);
      assert Steps(at, upTo, w) == [at] + rest && ([at] + rest)[1..] == rest;
      StepsAddresses(start, at + w, upTo, w);
      PlainAddresses(start, at, w);
      IntervalSplit(start + at, start + at + w, start + upTo);
    } else {
      assert Interval(start + at, start + upTo) == [];
    }
  }

  /** An address tells its index. */
  lemma AddressTells(start: nat, offset: nat, i: nat, k: nat)
    requires start < U64 && Address(start, offset, i) == start + k
    ensures ByteIndex(offset, i) == k && k < U32 && start + k < U64
  {
  }

  /** The first word of an interval starts it, does not wrap, and leaves its rest. */
  lemma FirstWord(start: nat, offset: nat, rest: seq<nat>, at: nat, upTo: nat, w: nat)
    requires w > 0 && start < U64 && offset < U32 && at <= upTo
    requires WordAddresses(start, offset, w) + rest == Interval(start + at, start + upTo)
    ensures offset == at && at + w <= upTo && at + w <= U32 && start + at + w <= U64
    ensures rest == Interval(start + at + w, start + upTo)
  {
    hide Address, ByteIndex;
    var all, word := Interval(start + at, start + upTo), WordAddresses(start, offset, w);
    assert |all| == w + |rest|;
    assert all[0] == word[0] && all[w - 1] == word[w - 1];
    AddressTells(start, offset, 0, at);
    AddressTells(start, offset, w - 1, at + w - 1);
    FirstIndex(offset);
    assert forall i :: 0 <= i < |rest| ==> rest[i] == all[w + i];
  }

  lemma FirstIndex(offset: nat)
    requires offset < U32
    ensures ByteIndex(offset, 0) == offset
  {
  }

  lemma {:induction false} AddressesSteps(start: nat, os: seq<nat>, at: nat, upTo: nat, w: nat)
    requires w > 0 && start < U64 && at <= upTo && (forall o :: o in os ==> o < U32)
    requires Addresses(start, os, w) == Interval(start + at, start + upTo)
    ensures os == Steps(at, upTo, w) && (at < upTo ==> upTo <= U32 && start + upTo <= U64)
    decreases |os|
  {
    hide WordAddresses, Interval;
    if os == [] {
      assert |Interval(start + at, start + upTo)| == 0;
    } else {
      assert os[0] in os && forall o :: o in os[1..] ==> o in os;
      FirstWord(start, os[0], Addresses(start, os[1..], w), at, upTo, w);
      AddressesSteps(start, os[1..], at + w, upTo, w);
      assert os == [os[0]] + os[1..];
    }
  }

  /** The bytes read are those at start, start + 1 and so on, up to the end of the range
      and one word more if lines do not fill it, if and only if nothing wraps. */
  lemma BytesExactly(a: Request)
    requires Regular(a) && a.word > 0 && a.line > 0
    ensures Addresses(a.start, Offsets(a, 0), a.word) == Interval(a.start, a.start + Extent(a)) <==> Fits(a)
  {
    hide Regular, Extent, OffsetsFit, Steps, Addresses, Interval, Multiple, Offsets;
    RegularParts(a);
    OffsetsExactly(a);
    LineMultiples(a, 0);
    if Fits(a) {
      ZeroMultiple(a.word);
      StepsAddresses(a.start, 0, Extent(a), a.word);
    } else if Addresses(a.start, Offsets(a, 0), a.word) == Interval(a.start, a.start + Extent(a)) {
      AddressesSteps(a.start, Offsets(a, 0), 0, Extent(a), a.word);
    }
  }

  lemma ZeroMultiple(w: nat)
    requires w > 0
    ensures Multiple(0, w)
  {
  }

  lemma MultipleAt(x: nat, w: nat)
    requires w > 0 && x % w == 0
    ensures Multiple(x, w)
  {
  }

  /** When words divide 2^32, an index can only wrap where an offset does. */
  lemma WordsThatDivide(a: Request)
    requires Regular(a) && a.word > 0 && U32 % a.word == 0
    ensures Fits(a) <==> OffsetsFit(a) && a.start + Extent(a) <= U64
  {
    hide Regular, Extent, Rows, Base, Multiple;
    LineMultiples(a, 0);
    if OffsetsFit(a) && Extent(a) > U32 {
      MultipleAt(U32, a.word);
      StepInside(U32, Extent(a), a.word);
    }
  }

  // ----- how far the reads reach -----

  /** One past the highest index read. */
  function Reach(a: Request): nat
    requires Regular(a) && a.line > 0
  {
    var end := if Rows(a) < U32 then Extent(a) else Base(a, Lines(a));
    if end < U32 then end else U32
  }

  lemma WordBelowEnd(start: nat, offset: nat, w: nat, end: nat)
    requires (offset + w <= end <= U32 || end == U32) && start + end <= U64
    ensures WordBelow(start, offset, w, start + end)
  {
  }

  lemma {:induction false} StepsMembers(at: nat, upTo: nat, w: nat, o: nat)
    requires w > 0 && o in Steps(at, upTo, w)
    ensures o + w <= upTo
    decreases upTo - at
  {
    if at + w <= upTo && o != at {
      StepsMembers(at + w, upTo, w, o);
    }
  }

  /** On a line that ends before 2^32, words end with the line. */
  lemma {:induction false} LineMembers(a: Request, line: nat, word: nat, o: nat)
    requires a.word > 0 && Multiple(a.line, a.word) && Base(a, line) + a.line < U32 && Multiple(word, a.word)
    requires o in LineOffsets(a, line, word)
    ensures o + a.word <= Base(a, line) + a.line && !Passed(a, o)
    decreases a.line - word
  {
    hide Base, Multiple, Passed, Offset;
    assert word < a.line;
    StepInside(word, a.line, a.word);
    OffsetIs(a, line, word);
    if o != Offset(a, line, word) {
      LineMembers(a, line, word + a.word, o);
    }
  }

  lemma LineMultiple(a: Request)
    requires Regular(a)
    ensures Multiple(a.line, a.word)
  {
  }

  lemma {:induction false} OffsetMembers(a: Request, line: nat, o: nat)
    requires a.word > 0 && a.line > 0 && Multiple(a.line, a.word) && Base(a, Lines(a)) < U32
    requires o in Offsets(a, line)
    ensures o + a.word <= Base(a, Lines(a)) && !Passed(a, o)
    decreases Lines(a) - line
  {
    hide Base, Multiple, Lines, LineOffsets, Passed;
    if o in LineOffsets(a, line, 0) {
      BaseUpTo(a, line, Lines(a));
      ZeroMultiple(a.word);
      LineMembers(a, line, 0, o);
    } else {
      OffsetMembers(a, line + 1, o);
    }
  }

  lemma BaseUpTo(a: Request, line: nat, lines: nat)
    requires line < lines
    ensures Base(a, line) + a.line <= Base(a, lines)
  {
    WordEnds(line, lines, a.line);
  }

  /** Nothing is read past the reach. */
  lemma ReachBounds(a: Request, o: nat)
    requires Regular(a) && a.word > 0 && a.line > 0 && o in Offsets(a, 0)
    requires Fits(a) || a.start + U32 <= U64
    ensures Reach(a) > 0 && WordBelow(a.start, o, a.word, a.start + Reach(a))
  {
    hide Regular, Extent, Rows, Base, Lines, Offsets, Steps, WordBelow, Multiple;
    if Reach(a) < U32 {
      if Rows(a) < U32 {
        ExtentBelow(a);
        OffsetsExactly(a);
        StepsMembers(0, Extent(a), a.word, o);
      } else {
        LineMultiple(a);
        OffsetMembers(a, 0, o);
      }
    }
    WordBelowEnd(a.start, o, a.word, Reach(a));
  }

  lemma ExtentBelow(a: Request)
    requires Regular(a) && Rows(a) < U32 && Extent(a) < U32 && (Fits(a) || a.start + U32 <= U64)
    ensures OffsetsFit(a)
  {
    hide Regular, Extent, Rows, Base;
  }

  /** A word of the range whose offset does not wrap is printed. */
  lemma {:induction false} IsOnLine(a: Request, line: nat, word: nat, j: nat)
    requires a.word > 0 && a.start <= a.end < U64 && word + j * a.word < a.line
    requires Base(a, line) + word + j * a.word < U32 && Base(a, line) + word + j * a.word <= a.end - a.start
    ensures Base(a, line) + word + j * a.word in LineOffsets(a, line, word)
    decreases j
  {
    hide Base, Passed, Offset;
    Monotone(0, j, a.word);
    OffsetIs(a, line, word);
    NotPassed(a, Base(a, line) + word);
    if j > 0 {
      OneLess(j, a.word);
      IsOnLine(a, line, word + a.word, j - 1);
    }
  }

  lemma {:induction false} IsPrinted(a: Request, from: nat, line: nat, o: nat)
    requires a.word > 0 && a.line > 0 && from <= line < Lines(a) && o in LineOffsets(a, line, 0)
    ensures o in Offsets(a, from)
    decreases line - from
  {
    hide Lines, LineOffsets;
    if from < line {
      IsPrinted(a, from + 1, line, o);
    }
  }

  lemma Quotient(x: nat, b: nat)
    requires b > 0
    ensures x / b * b <= x < x / b * b + b
  {
  }

  /** Where an offset lies: its line, and the word of the line. */
  lemma Place(a: Request, at: nat) returns (line: nat, j: nat)
    requires Regular(a) && a.word > 0 && a.line > 0 && Multiple(at, a.word)
    ensures j * a.word < a.line && Base(a, line) + j * a.word == at
  {
    hide Regular, Multiple;
    line := at / a.line;
    Quotient(at, a.line);
    j := (at - line * a.line) / a.word;
    LineMultiples(a, line);
    DifferenceOf(at, line * a.line, a.word);
  }

  lemma DifferenceOf(x: nat, y: nat, w: nat)
    requires w > 0 && y <= x && Multiple(x, w) && Multiple(y, w)
    ensures (x - y) / w * w == x - y
  {
    MultipleDifference(x, y, w);
  }

  lemma MultipleDifference(x: nat, y: nat, w: nat)
    requires w > 0 && y <= x && x % w == 0 && y % w == 0
    ensures (x - y) / w * w == x - y
  {
    var i, j := x / w, y / w;
    assert x == i * w && y == j * w;
    assert x - y == (i - j) * w;
    if i < j {
      Monotone(i + 1, j, w);
    }
    MultipleRest(if i >= j then i - j else 0, w);
  }

  lemma LineOf(a: Request, line: nat, at: nat, lines: nat)
    requires Base(a, line) <= at < Base(a, lines)
    ensures line < lines
  {
    if line >= lines {
      Monotone(lines, line, a.line);
    }
  }

  lemma WordInRange(a: Request, at: nat)
    requires Regular(a) && a.word > 0 && a.line > 0 && Multiple(at, a.word) && at < U32
    requires at <= a.end - a.start && at < Base(a, Lines(a))
    ensures at in Offsets(a, 0)
  {
    hide Regular, Base, Lines, LineOffsets, Offsets, Multiple;
    RegularParts(a);
    var line, j := Place(a, at);
    Monotone(0, j, a.word);
    LineOf(a, line, at, Lines(a));
    IsOnLine(a, line, 0, j);
    IsPrinted(a, 0, line, at);
  }

  /** The offset of the word that holds the byte before the reach. */
  lemma HighestWord(a: Request) returns (at: nat, i: nat)
    requires Regular(a) && a.word > 0 && a.line > 0 && Reach(a) > 0
    ensures i < a.word && at + i == Reach(a) - 1 && at in Offsets(a, 0)
  {
    hide Regular, Extent, Rows, Base, Lines, Offsets, Multiple;
    var w := a.word;
    at, i := FloorMultiple(Reach(a) - 1, w);
    RegularParts(a);
    LinesAreRows(a);
    if Rows(a) < U32 {
      ExtentInRows(a);
      StopTestAt(a, at);
    } else {
      ManyRows(a);
    }
    WordInRange(a, at);
  }

  lemma FloorMultiple(x: nat, w: nat) returns (at: nat, i: nat)
    requires w > 0
    ensures at + i == x && i < w && Multiple(at, w)
  {
    at, i := x / w * w, x % w;
    MultipleRest(x / w, w);
  }

  lemma ExtentInRows(a: Request)
    requires Regular(a)
    ensures Extent(a) <= Base(a, Rows(a))
  {
    ShownLength(a.end - a.start, a.word, a.line);
  }

  lemma ManyRows(a: Request)
    requires Regular(a) && Rows(a) >= U32
    ensures a.end - a.start >= U32
  {
    hide Rows, Extent, Regular;
    RegularParts(a);
    LastBase(a);
    Wider(Rows(a) - 1, 1, a.line);
  }

  lemma ByteBelow(start: nat, offset: nat, i: nat, w: nat, limit: nat)
    requires i < w && offset + i < U32 && start + offset + i < U64 && WordBelow(start, offset, w, limit)
    ensures start + offset + i < limit
  {
    assert Address(start, offset, i) == start + offset + i;
  }

  /** Without a reach nothing is read, and with one the first byte is. */
  lemma FirstByte(a: Request)
    requires Regular(a) && a.word > 0 && a.line > 0
    ensures Reach(a) == 0 ==> Offsets(a, 0) == []
    ensures Reach(a) > 0 ==> 0 in Offsets(a, 0)
  {
    hide Regular, Extent, Rows, Base, Lines, LineOffsets, Multiple;
    RegularParts(a);
    LinesAreRows(a);
    if Reach(a) == 0 {
      NoReach(a);
    } else {
      SomeReach(a);
      ZeroMultiple(a.word);
      WordInRange(a, 0);
    }
  }

  lemma NoReach(a: Request)
    requires Regular(a) && a.line > 0 && Reach(a) == 0
    ensures Lines(a) == 0
  {
    hide Regular, Extent, Rows, Lines;
    LinesAreRows(a);
    if Rows(a) < U32 && Rows(a) > 0 {
      LastBase(a);
      Monotone(0, Rows(a) - 1, a.line);
    } else if Lines(a) > 0 {
      Monotone(1, Lines(a), a.line);
    }
  }

  lemma SomeReach(a: Request)
    requires Regular(a) && a.line > 0 && Reach(a) > 0
    ensures Base(a, Lines(a)) > 0
  {
    hide Regular, Extent, Rows, Lines, Base;
    LinesAreRows(a);
    ExtentInRows(a);
  }

  /** Every byte read lies below a limit if and only if the reach does. A limit so high
      that addresses wrap below it is left to ranges that fit. */
  lemma ReachExactly(a: Request, limit: nat)
    requires Regular(a) && a.word > 0 && a.line > 0 && (Fits(a) || limit + U32 <= U64)
    ensures AllBelow(a, Offsets(a, 0), limit) <==> Reach(a) == 0 || a.start + Reach(a) <= limit
  {
    hide Regular, Offsets, Fits, WordBelow, Reach;
    FirstByte(a);
    if Reach(a) > 0 {
      if Fits(a) || a.start + U32 <= U64 {
        ReachOfPlain(a, limit);
      } else {
        HighStart(a, limit);
      }
    }
  }

  lemma HighStart(a: Request, limit: nat)
    requires Regular(a) && a.word > 0 && a.line > 0 && 0 in Offsets(a, 0) && limit <= a.start
    ensures !AllBelow(a, Offsets(a, 0), limit)
  {
    hide Regular, Offsets;
    RegularParts(a);
    assert Address(a.start, 0, 0) == a.start;
  }

  lemma ReachOfPlain(a: Request, limit: nat)
    requires Regular(a) && a.word > 0 && a.line > 0 && Reach(a) > 0 && (Fits(a) || a.start + U32 <= U64)
    ensures AllBelow(a, Offsets(a, 0), limit) <==> a.start + Reach(a) <= limit
  {
    hide Regular, Offsets, Fits, WordBelow, Reach;
    ReachIsSmall(a);
    if AllBelow(a, Offsets(a, 0), limit) {
      var at, i := HighestWord(a);
      ByteBelow(a.start, at, i, a.word, limit);
    } else {
      var o: nat :| o in Offsets(a, 0) && !WordBelow(a.start, o, a.word, limit);
      ReachBounds(a, o);
      Widen(a.start, o, a.word, a.start + Reach(a), limit);
    }
  }

  lemma ReachIsSmall(a: Request)
    requires Regular(a) && a.line > 0
    ensures Reach(a) <= U32 && (Fits(a) ==> a.start + Reach(a) <= U64)
  {
    hide Regular, Extent, Rows, Base, Lines;
  }

  lemma Widen(start: nat, o: nat, w: nat, limit: nat, limit': nat)
    requires WordBelow(start, o, w, limit) && !WordBelow(start, o, w, limit')
    ensures limit > limit'
  {
  }

  /** For a range that fits the reach is the end of its words. */
  lemma ReachOfFitting(a: Request)
    requires Regular(a) && a.line > 0 && Fits(a)
    ensures Reach(a) == Extent(a)
  {
    hide Regular, Extent, Rows, Base, Lines;
  }
}
