/** Decimal and hexadecimal spellings, and text cut at a separator. Strings
    stand for C strings without their terminating NUL. */
module Text {

  const U32: int := 0x1_0000_0000
  const U64: int := 0x1_0000_0000_0000_0000

  type byte = x: int | 0 <= x < 256

  // ----- decimal -----

  predicate IsDigit(c: char) {
    '0' <= c <= '9'
  }

  predicate AllDigits(s: string) {
    forall i :: 0 <= i < |s| ==> IsDigit(s[i])
  }

  /** The number a string of digits spells; the empty string spells 0. */
  function Value(s: string): nat
    requires AllDigits(s)
  {
    if s == "" then 0
    else 10 * Value(s[..|s| - 1]) + (s[|s| - 1] as int - '0' as int)
  }

  function DigitChar(d: nat): (c: char)
    requires d < 10
    ensures IsDigit(c) && c as int - '0' as int == d
  {
    ('0' as int + d) as char
  }

  /** What printf writes for %lu. */
  function Decimal(n: nat): (s: string)
    ensures s != "" && AllDigits(s)
  {
    if n < 10 then [DigitChar(n)] else Decimal(n / 10) + [DigitChar(n % 10)]
  }

  lemma {:induction false} DecimalSpells(n: nat)
    ensures Value(Decimal(n)) == n
  {
    if n < 10 {
      assert Decimal(n)[..0] == "";
    } else {
      DecimalSpells(n / 10);
      assert Decimal(n)[..|Decimal(n)| - 1] == Decimal(n / 10);
    }
  }

  /** A leading zero does not count. */
  lemma {:induction false} LeadingZero(s: string)
    requires AllDigits(s)
    ensures AllDigits("0" + s) && Value("0" + s) == Value(s)
    decreases |s|
  {
    var z := "0" + s;
    if s == "" {
      assert z[..0] == "";
    } else {
      assert z[..|z| - 1] == "0" + s[..|s| - 1];
      LeadingZero(s[..|s| - 1]);
    }
  }

  /** And printf writes none. */
  lemma {:induction false} NoLeadingZero(n: nat)
    ensures Decimal(n)[0] == '0' <==> n == 0
    ensures n == 0 ==> Decimal(n) == "0"
  {
    if n >= 10 {
      NoLeadingZero(n / 10);
    }
  }

  // ----- hexadecimal -----

  predicate IsHex(c: char) {
    '0' <= c <= '9' || 'a' <= c <= 'f'
  }

  function HexChar(d: nat): (c: char)
    requires d < 16
    ensures IsHex(c) && HexValue(c) == d
  {
    if d < 10 then ('0' as int + d) as char else ('a' as int + d - 10) as char
  }

  function HexValue(c: char): (d: nat)
    requires IsHex(c)
    ensures d < 16
  {
    if c <= '9' then c as int - '0' as int else c as int - 'a' as int + 10
  }

  predicate AllHex(s: string) {
    forall i :: 0 <= i < |s| ==> IsHex(s[i])
  }

  /** What printf writes for %lx. */
  function Hex(n: nat): (s: string)
    ensures s != "" && AllHex(s)
  {
    if n < 16 then [HexChar(n)] else Hex(n / 16) + [HexChar(n % 16)]
  }

  /** The number a string of hexadecimal digits spells. */
  function HexNumber(s: string): nat
    requires AllHex(s)
  {
    if s == "" then 0 else 16 * HexNumber(s[..|s| - 1]) + HexValue(s[|s| - 1])
  }

  function Zeros(n: nat): (s: string)
    ensures |s| == n && forall i :: 0 <= i < n ==> s[i] == '0'
  {
    seq(n, i => '0')
  }

  /** What printf writes for %08lx. */
  function Hex8(n: nat): (s: string)
    ensures |s| >= 8 && AllHex(s)
  {
    if |Hex(n)| >= 8 then Hex(n) else Zeros(8 - |Hex(n)|) + Hex(n)
  }

  lemma {:induction false} HexSpells(n: nat)
    ensures HexNumber(Hex(n)) == n
  {
    if n < 16 {
      assert Hex(n)[..0] == "";
    } else {
      HexSpells(n / 16);
      assert Hex(n)[..|Hex(n)| - 1] == Hex(n / 16);
    }
  }

  lemma {:induction false} LeadingZeros(k: nat, s: string)
    requires AllHex(s)
    ensures AllHex(Zeros(k) + s)
    ensures HexNumber(Zeros(k) + s) == HexNumber(s)
    decreases k + |s|
  {
    var z := Zeros(k) + s;
    if s != "" {
      assert z[..|z| - 1] == Zeros(k) + s[..|s| - 1];
      LeadingZeros(k, s[..|s| - 1]);
    } else if k > 0 {
      assert z[..|z| - 1] == Zeros(k - 1) + s;
      LeadingZeros(k - 1, s);
    } else {
      assert z == s;
    }
  }

  lemma Hex8Spells(n: nat)
    ensures HexNumber(Hex8(n)) == n
  {
    HexSpells(n);
    if |Hex(n)| < 8 {
      LeadingZeros(8 - |Hex(n)|, Hex(n));
    }
  }

  lemma {:induction false} HexLength(n: nat, k: nat, bound: nat)
    requires k > 0 && bound == Power16(k) && n < bound
    ensures |Hex(n)| <= k
    decreases k
  {
    if n >= 16 {
      HexLength(n / 16, k - 1, Power16(k - 1));
    }
  }

  function Power16(k: nat): (p: nat)
    ensures p >= 1
  {
    if k == 0 then 1 else 16 * Power16(k - 1)
  }

  /** Addresses below 4 GiB take exactly eight digits. */
  lemma EightDigits(n: nat)
    requires n < U32
    ensures |Hex8(n)| == 8
  {
    assert Power16(8) == U32 by {
      assert Power16(4) == 0x1_0000;
    }
    HexLength(n, 8, U32);
  }

  /** What printf writes for %02hx of a byte. */
  function HexByte(x: byte): (s: string)
    ensures |s| == 2 && AllHex(s) && 16 * HexValue(s[0]) + HexValue(s[1]) == x
  {
    [HexChar(x / 16), HexChar(x % 16)]
  }

  // ----- cutting at a separator -----

  /** Position of the first d in s, or |s|. */
  function Find(s: string, d: char): (k: nat)
    ensures k <= |s|
    ensures forall i :: 0 <= i < k ==> s[i] != d
    ensures k < |s| ==> s[k] == d
  {
    if s == "" || s[0] == d then 0 else 1 + Find(s[1..], d)
  }

  function Split(s: string, d: char): (fs: seq<string>)
    ensures |fs| >= 1
    decreases |s|
  {
    var k := Find(s, d);
    if k == |s| then [s] else [s[..k]] + Split(s[k + 1..], d)
  }

  function Join(fs: seq<string>, d: char): string
    requires |fs| >= 1
  {
    if |fs| == 1 then fs[0] else fs[0] + [d] + Join(fs[1..], d)
  }

  predicate Without(f: string, d: char) {
    forall i :: 0 <= i < |f| ==> f[i] != d
  }

  predicate AllWithout(fs: seq<string>, d: char) {
    forall k :: 0 <= k < |fs| ==> Without(fs[k], d)
  }

  lemma FindUnique(s: string, d: char, k: nat)
    requires k <= |s| && Without(s[..k], d) && (k < |s| ==> s[k] == d)
    ensures Find(s, d) == k
  {
  }

  /** Cutting what was joined gives the pieces back. */
  lemma {:induction false} SplitOfJoin(fs: seq<string>, d: char)
    requires |fs| >= 1 && AllWithout(fs, d)
    ensures Split(Join(fs, d), d) == fs
    decreases |fs|
  {
    var s := Join(fs, d);
    var k := |fs[0]|;
    assert s[..k] == fs[0];
    FindUnique(s, d, k);
    if |fs| > 1 {
      assert s[k + 1..] == Join(fs[1..], d);
      SplitOfJoin(fs[1..], d);
    }
  }

  /** Joining what was cut gives the text back, and no piece holds the separator. */
  lemma {:induction false} JoinOfSplit(s: string, d: char)
    ensures Join(Split(s, d), d) == s && AllWithout(Split(s, d), d)
    decreases |s|
  {
    var k := Find(s, d);
    assert Without(s[..k], d);
    if k < |s| {
      var rest := Split(s[k + 1..], d);
      JoinOfSplit(s[k + 1..], d);
      hide Without;
      assert s == s[..k] + [d] + s[k + 1..];
      assert Split(s, d) == [s[..k]] + rest;
      assert ([s[..k]] + rest)[1..] == rest;
    } else {
      assert s[..k] == s;
    }
  }

  /** Records that each end in d, one after the other. */
  function Terminated(fs: seq<string>, d: char): string {
    if fs == [] then "" else fs[0] + [d] + Terminated(fs[1..], d)
  }

  lemma {:induction false} TerminatedIsJoin(fs: seq<string>, d: char)
    ensures Terminated(fs, d) == Join(fs + [""], d)
    decreases |fs|
  {
    if fs != [] {
      assert (fs + [""])[1..] == fs[1..] + [""];
      TerminatedIsJoin(fs[1..], d);
    }
  }

  /** Terminated records can be told apart again. */
  lemma SplitOfTerminated(fs: seq<string>, d: char)
    requires AllWithout(fs, d)
    ensures Split(Terminated(fs, d), d) == fs + [""]
  {
    TerminatedIsJoin(fs, d);
    SplitOfJoin(fs + [""], d);
  }
}
