/** The text of a memory dump as a rendering of the bytes it shows, and the
    reading of such a text back into bytes. */
module DumpText {
  import opened Text

  // ----- rendering -----

  /** A word in hexadecimal: two digits a byte, last byte of memory first. */
  function WordHex(bs: seq<byte>): (s: string)
    ensures AllHex(s)
  {
    if bs == [] then "" else HexByte(bs[|bs| - 1]) + WordHex(bs[..|bs| - 1])
  }

  lemma {:induction false} WordHexLength(bs: seq<byte>)
    ensures |WordHex(bs)| == 2 * |bs|
  {
    hide HexByte;
    if bs != [] {
      WordHexLength(bs[..|bs| - 1]);
    }
  }

  /** Consecutive words of w bytes. */
  function Tokens(bytes: seq<byte>, w: nat): seq<string>
    requires w > 0
  {
    if |bytes| < w then [] else [WordHex(bytes[..w])] + Tokens(bytes[w..], w)
  }

  function LineHead(at: nat): string {
    "0x" + Hex8(at)
  }

  function LineText(bytes: seq<byte>, at: nat, w: nat): string
    requires w > 0
  {
    LineHead(at) + "\t" + Terminated(Tokens(bytes, w), ' ')
  }

  /** Lines of b bytes; the last may be shorter. */
  function LineTexts(bytes: seq<byte>, at: nat, w: nat, b: nat): seq<string>
    requires w > 0 && b > 0
  {
    if bytes == [] then []
    else if |bytes| <= b then [LineText(bytes, at, w)]
    else [LineText(bytes[..b], at, w)] + LineTexts(bytes[b..], at + b, w, b)
  }

  function Header(from: nat, to: nat): string {
    "mem dump: @" + Decimal(from) + " -> @" + Decimal(to)
  }

  /** The whole text for the bytes at from, announced as the range from..to. */
  function Render(bytes: seq<byte>, from: nat, to: nat, w: nat, b: nat): string
    requires w > 0 && b > 0
  {
    Header(from, to) + "\n" + Terminated(LineTexts(bytes, from, w, b), '\n')
  }

  // ----- reading back -----

  function WordBytes(s: string): seq<byte> {
    if |s| < 2 || !IsHex(s[0]) || !IsHex(s[1]) then []
    else WordBytes(s[2..]) + [16 * HexValue(s[0]) + HexValue(s[1])]
  }

  function TokenBytes(ts: seq<string>): seq<byte> {
    if ts == [] then [] else WordBytes(ts[0]) + TokenBytes(ts[1..])
  }

  /** The words after the tab, each ended by a blank. */
  function LineTokens(line: string): seq<string> {
    var k := Find(line, '\t');
    if k == |line| then []
    else
      var ts := Split(line[k + 1..], ' ');
      ts[..|ts| - 1]
  }

  function AllLineTokens(lines: seq<string>): seq<string> {
    if lines == [] then [] else LineTokens(lines[0]) + AllLineTokens(lines[1..])
  }

  /** The words of all lines after the header, each line ended by a newline. */
  function TextTokens(text: string): seq<string> {
    var lines := Split(text, '\n');
    if |lines| < 2 then [] else AllLineTokens(lines[1..|lines| - 1])
  }

  function Unrender(text: string): seq<byte> {
    TokenBytes(TextTokens(text))
  }

  lemma OneByteRead(h: string, rest: string)
    requires |h| == 2 && AllHex(h)
    ensures WordBytes(h + rest) == WordBytes(rest) + [16 * HexValue(h[0]) + HexValue(h[1])]
  {
  }

  lemma {:induction false} WordRoundTrip(bs: seq<byte>)
    ensures WordBytes(WordHex(bs)) == bs
  {
    if bs != [] {
      var init, last := bs[..|bs| - 1], bs[|bs| - 1];
      WordRoundTrip(init);
      OneByteRead(HexByte(last), WordHex(init));
      hide WordBytes, HexByte, HexValue;
      assert bs == init + [last];
    }
  }

  lemma {:induction false} TokensRoundTrip(bytes: seq<byte>, w: nat)
    requires w > 0 && |bytes| % w == 0
    ensures TokenBytes(Tokens(bytes, w)) == bytes
    decreases |bytes|
  {
    hide WordHex, WordBytes;
    if |bytes| >= w {
      DropOne(|bytes|, w);
      WordRoundTrip(bytes[..w]);
      TokensRoundTrip(bytes[w..], w);
      assert Tokens(bytes, w)[1..] == Tokens(bytes[w..], w);
      assert bytes == bytes[..w] + bytes[w..];
    }
  }

  lemma DropOne(n: nat, w: nat)
    requires 0 < w <= n && n % w == 0
    ensures (n - w) % w == 0
  {
    var q := n / w;
    assert n == q * w;
    assert n - w == (q - 1) * w;
    MultipleRest(q - 1, w);
  }

  lemma Monotone(a: int, b: int, w: nat)
    requires a <= b
    ensures a * w <= b * w
  {
  }

  lemma Cancels(a: int, b: int, w: nat)
    requires a * w < b * w
    ensures a < b
  {
  }

  lemma MultipleRest(q: nat, w: nat)
    requires w > 0
    ensures q * w % w == 0 && q * w / w == q
  {
    var d := q * w / w;
    assert q * w == d * w + q * w % w && (d + 1) * w == d * w + w && (q + 1) * w == q * w + w;
    Cancels(d, q + 1, w);
    Cancels(q, d + 1, w);
  }

  lemma {:induction false} TerminatedHasNo(fs: seq<string>, d: char, e: char)
    requires d != e && AllWithout(fs, e)
    ensures Without(Terminated(fs, d), e)
    decreases |fs|
  {
    if fs != [] {
      TerminatedHasNo(fs[1..], d, e);
    }
  }

  lemma {:induction false} TokensAreHex(bytes: seq<byte>, w: nat)
    requires w > 0
    ensures AllWithout(Tokens(bytes, w), ' ') && AllWithout(Tokens(bytes, w), '\n')
    decreases |bytes|
  {
    if |bytes| >= w {
      TokensAreHex(bytes[w..], w);
    }
  }

  lemma AfterTab(head: string, body: string)
    requires Without(head, '\t')
    ensures Find(head + "\t" + body, '\t') == |head|
    ensures (head + "\t" + body)[|head| + 1..] == body
  {
    var line := head + "\t" + body;
    assert line[..|head|] == head;
    FindUnique(line, '\t', |head|);
  }

  lemma LineHeadIsPlain(at: nat)
    ensures Without(LineHead(at), '\t') && Without(LineHead(at), '\n')
  {
  }

  /** Each line starts with its address. */
  lemma LineHeadSpells(at: nat)
    ensures LineHead(at)[..2] == "0x" && AllHex(LineHead(at)[2..])
    ensures HexNumber(LineHead(at)[2..]) == at
  {
    Hex8Spells(at);
    assert LineHead(at)[2..] == Hex8(at);
  }

  lemma LineRoundTrip(bytes: seq<byte>, at: nat, w: nat)
    requires w > 0
    ensures LineTokens(LineText(bytes, at, w)) == Tokens(bytes, w)
    ensures Without(LineText(bytes, at, w), '\n')
  {
    hide Tokens, Terminated, LineHead, AllWithout;
    var head, ts := LineHead(at), Tokens(bytes, w);
    var body := Terminated(ts, ' ');
    TokensAreHex(bytes, w);
    TerminatedHasNo(ts, ' ', '\n');
    SplitOfTerminated(ts, ' ');
    LineHeadIsPlain(at);
    AfterTab(head, body);
    assert (ts + [""])[..|ts|] == ts;
  }

  lemma {:induction false} TokensSplit(a: seq<byte>, b: seq<byte>, w: nat)
    requires w > 0 && |a| % w == 0
    ensures Tokens(a + b, w) == Tokens(a, w) + Tokens(b, w)
    decreases |a|
  {
    hide WordHex;
    if a == [] {
      assert a + b == b;
    } else {
      assert |a| >= w;
      DropOne(|a|, w);
      TokensSplit(a[w..], b, w);
      assert (a + b)[..w] == a[..w] && (a + b)[w..] == a[w..] + b;
    }
  }

  lemma {:induction false} LinesRoundTrip(bytes: seq<byte>, at: nat, w: nat, b: nat)
    requires w > 0 && b > 0 && b % w == 0
    ensures AllLineTokens(LineTexts(bytes, at, w, b)) == Tokens(bytes, w)
    ensures AllWithout(LineTexts(bytes, at, w, b), '\n')
    decreases |bytes|
  {
    hide LineText, LineTokens, Without, WordHex;
    if bytes != [] {
      if |bytes| <= b {
        LineRoundTrip(bytes, at, w);
        var line := LineText(bytes, at, w);
        assert LineTexts(bytes, at, w, b) == [line] && [line][1..] == [];
      } else {
        var line, rest := LineText(bytes[..b], at, w), LineTexts(bytes[b..], at + b, w, b);
        LineRoundTrip(bytes[..b], at, w);
        LinesRoundTrip(bytes[b..], at + b, w, b);
        TokensSplit(bytes[..b], bytes[b..], w);
        assert LineTexts(bytes, at, w, b) == [line] + rest && ([line] + rest)[1..] == rest;
        assert bytes == bytes[..b] + bytes[b..];
      }
    }
  }

  lemma HeaderIsOneLine(from: nat, to: nat)
    ensures Without(Header(from, to), '\n')
  {
  }

  /** The words in a rendered text are those of the bytes, none skipped or repeated. */
  lemma RenderedTokens(bytes: seq<byte>, from: nat, to: nat, w: nat, b: nat)
    requires w > 0 && b > 0 && b % w == 0
    ensures TextTokens(Render(bytes, from, to, w, b)) == Tokens(bytes, w)
  {
    hide LineTexts, AllLineTokens, Header, Without;
    var head, lines := Header(from, to), LineTexts(bytes, from, w, b);
    LinesRoundTrip(bytes, from, w, b);
    HeaderIsOneLine(from, to);
    var all := [head] + lines;
    assert all[1..] == lines;
    assert Render(bytes, from, to, w, b) == Terminated(all, '\n');
    assert AllWithout(all, '\n');
    SplitOfTerminated(all, '\n');
    assert (all + [""])[1..|all|] == lines;
  }

  /** Reading a rendered text gives back the bytes it was made from. */
  lemma RoundTrip(bytes: seq<byte>, from: nat, to: nat, w: nat, b: nat)
    requires w > 0 && b > 0 && b % w == 0 && |bytes| % w == 0
    ensures Unrender(Render(bytes, from, to, w, b)) == bytes
  {
    RenderedTokens(bytes, from, to, w, b);
    TokensRoundTrip(bytes, w);
  }

  // ----- what a token's number means -----

  /** Little-endian value. */
  function LeValue(bs: seq<byte>): nat {
    if bs == [] then 0 else bs[0] as int + 256 * LeValue(bs[1..])
  }

  lemma {:induction false} LowByteLast(bs: seq<byte>)
    requires bs != []
    ensures WordHex(bs) == WordHex(bs[1..]) + HexByte(bs[0])
    decreases |bs|
  {
    hide HexByte;
    if |bs| == 1 {
      assert bs[1..] == [] && bs[..0] == [];
    } else {
      var init, tail := bs[..|bs| - 1], bs[1..];
      LowByteLast(init);
      assert tail[..|tail| - 1] == init[1..];
      var high, middle, low := HexByte(bs[|bs| - 1]), WordHex(init[1..]), HexByte(bs[0]);
      assert WordHex(bs) == high + (middle + low);
      assert WordHex(tail) == high + middle;
    }
  }

  /** The number a token spells is the little-endian value of its word. */
  lemma {:induction false} TokenValue(bs: seq<byte>)
    ensures HexNumber(WordHex(bs)) == LeValue(bs)
    decreases |bs|
  {
    if bs != [] {
      TokenValue(bs[1..]);
      LowByteLast(bs);
      var s := WordHex(bs);
      var n := |s|;
      assert s[..n - 1][..n - 2] == WordHex(bs[1..]);
      assert s[n - 2] == HexByte(bs[0])[0] && s[n - 1] == HexByte(bs[0])[1];
    }
  }
}
