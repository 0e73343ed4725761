/** Number conversion of src/core/core.c: the digit check and the use of strtoul. */
module Numbers {
  import opened Text

  /** The first n characters, or all if there are fewer, are digits. */
  predicate DigitsUpTo(s: string, n: nat) {
    forall i :: 0 <= i < n && i < |s| ==> IsDigit(s[i])
  }

  /** mini_kvm_is_uint. */
  method IsUint(s: string, n: nat) returns (r: bool)
    ensures r <==> DigitsUpTo(s, n)
  {
    if |s| == 0 || n == 0 {
      return true;
    }
    var index := 0;
    while index < |s| && index < n
      invariant index <= |s| && index <= n
      invariant forall i :: 0 <= i < index ==> IsDigit(s[i])
    {
      if !IsDigit(s[index]) {
        return false;
      }
      index := index + 1;
    }
    return true;
  }

  // ----- strtoul(s, _, 10) of the C library, which is not told about n -----

  predicate IsSpace(c: char) {
    c == ' ' || '\t' <= c <= '\r'
  }

  function SkipSpace(s: string): string {
    if s != "" && IsSpace(s[0]) then SkipSpace(s[1..]) else s
  }

  /** Length of the longest prefix of digits. */
  function DigitRun(s: string): (d: nat)
    ensures d <= |s| && AllDigits(s[..d])
    ensures d < |s| ==> !IsDigit(s[d])
  {
    if s == "" || !IsDigit(s[0]) then 0
    else
      var d := DigitRun(s[1..]);
      assert s[..d + 1] == [s[0]] + s[1..][..d];
      d + 1
  }

  /** range tells whether errno is set to ERANGE; the value then saturates. */
  datatype Converted = Converted(value: nat, range: bool)

  function Strtoul(s: string): (r: Converted)
    ensures r.value < U64
  {
    var t := SkipSpace(s);
    var negative := t != "" && t[0] == '-';
    var u := if t != "" && (t[0] == '-' || t[0] == '+') then t[1..] else t;
    var v := Value(u[..DigitRun(u)]);
    if v >= U64 then Converted(U64 - 1, true)
    else if negative then Converted((U64 - v) % U64, false)
    else Converted(v, false)
  }

  /** What strtoul should give for a string of digits. */
  function Saturated(digits: string): Converted
    requires AllDigits(digits)
  {
    if Value(digits) >= U64 then Converted(U64 - 1, true) else Converted(Value(digits), false)
  }

  /** Although it is not told n, strtoul reads exactly the n checked digits when
      what follows them is not a digit and, if there are none, is a character
      that cannot start a number. */
  lemma StrtoulStopsAt(s: string, n: nat)
    requires n <= |s| && DigitsUpTo(s, n)
    requires n < |s| ==> !IsDigit(s[n])
    requires n == 0 && s != "" ==> !IsSpace(s[0]) && s[0] != '-' && s[0] != '+'
    ensures AllDigits(s[..n]) && Strtoul(s) == Saturated(s[..n])
  {
  }

  /** The number that a text starts with. */
  function LeadingNumber(s: string): nat {
    Value(s[..DigitRun(s)])
  }

  lemma {:induction false} RunOfDigits(d: string, t: string)
    requires AllDigits(d) && (t == "" || !IsDigit(t[0]))
    ensures DigitRun(d + t) == |d|
  {
    if d == "" {
      assert d + t == t;
    } else {
      assert (d + t)[1..] == d[1..] + t;
      RunOfDigits(d[1..], t);
    }
  }

  lemma NumberThen(n: nat, t: string)
    requires t == "" || !IsDigit(t[0])
    ensures DigitRun(Decimal(n) + t) == |Decimal(n)|
    ensures LeadingNumber(Decimal(n) + t) == n
  {
    hide Decimal, Value, DigitRun;
    RunOfDigits(Decimal(n), t);
    assert (Decimal(n) + t)[..|Decimal(n)|] == Decimal(n);
    DecimalSpells(n);
  }

  /** Space, tab, newline, vertical tab, form feed and carriage return do not count. */
  lemma StrtoulSkipsSpace(c: char, s: string)
    requires c == ' ' || c == '\t' || c == '\n' || c == 11 as char || c == 12 as char || c == '\r'
    ensures Strtoul([c] + s) == Strtoul(s)
  {
    assert ([c] + s)[1..] == s;
  }

  lemma StrtoulOf(c: char, u: string)
    requires c == '+' || c == '-'
    ensures var v := LeadingNumber(u);
            Strtoul([c] + u) == if v >= U64 then Converted(U64 - 1, true)
                                else if c == '-' && v > 0 then Converted(U64 - v, false)
                                else Converted(v, false)
  {
    assert ([c] + u)[1..] == u;
  }

  /** What strtoul gives for a signed number: a minus negates in 64 bits. */
  lemma StrtoulSigned(n: nat, t: string)
    requires n < U64 && (t == "" || !IsDigit(t[0]))
    ensures Strtoul("+" + (Decimal(n) + t)) == Converted(n, false)
    ensures Strtoul("-" + (Decimal(n) + t)).value == (if n == 0 then 0 else U64 - n)
  {
    hide Strtoul, LeadingNumber, Decimal;
    NumberThen(n, t);
    StrtoulOf('+', Decimal(n) + t);
    StrtoulOf('-', Decimal(n) + t);
  }

  /** mini_kvm_to_uint with errno clear on entry; dst is written through a pointer. */
  method ToUint(s: string, n: nat, before: nat) returns (ret: int, dst: nat)
    ensures !DigitsUpTo(s, n) ==> ret == -1 && dst == before
    ensures DigitsUpTo(s, n) ==> dst == Strtoul(s).value && ret == if Strtoul(s).range then -1 else 0
  {
    var ok := IsUint(s, n);
    if !ok {
      return -1, before;
    }
    var r := Strtoul(s);
    dst := r.value;
    ret := if r.range then -1 else 0;
  }
}
