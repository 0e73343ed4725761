/** The --mem argument of src/commands/run.c: digits with an optional unit. */
module MemSize {
  import opened Text
  import opened Numbers
  import opened Errors

  const PAGE_SIZE := 0x1000

  /** aligned_to_pages, in 64-bit arithmetic. */
  function AlignedToPages(size: nat): nat {
    if size % PAGE_SIZE == 0 then size
    else (size - size % PAGE_SIZE + PAGE_SIZE) % U64
  }

  /** How many bytes the unit stands for. */
  function Unit(arg: string): (u: nat)
    ensures 1 <= u <= 0x4000_0000
  {
    if arg == "" then 1
    else match arg[|arg| - 1]
      case 'K' => 0x400
      case 'M' => 0x10_0000
      case 'G' => 0x4000_0000
      case _ => 1
  }

  function Digits(arg: string): string {
    if Unit(arg) == 1 then arg else arg[..|arg| - 1]
  }

  /** Digits, then at most one unit letter, and not the empty string. */
  predicate WellFormed(arg: string) {
    arg != "" && AllDigits(Digits(arg))
  }

  /** The number of bytes asked for. */
  function Requested(arg: string): nat
    requires WellFormed(arg)
  {
    Value(Digits(arg)) * Unit(arg)
  }

  /** The size that 64-bit arithmetic gives: the conversion saturates, then the
      shift and the alignment wrap around. */
  function Granted(arg: string): nat
    requires WellFormed(arg)
  {
    AlignedToPages(Saturated(Digits(arg)).value * Unit(arg) % U64)
  }

  /** parse_mem; mem is written through a pointer and stays on rejection. */
  method ParseMem(arg: string, before: nat) returns (ret: int, mem: nat)
    ensures ret == SUCCESS || ret == -1 || ret == ARGS_FAILED
    ensures ret == SUCCESS <==> WellFormed(arg)
    ensures mem == if WellFormed(arg) then Granted(arg) else before
  {
    mem := before;
    if |arg| == 0 {
      return -1, mem;
    }
    var scale := 1;
    match arg[|arg| - 1] {
      case 'K' => scale := 0x400;
      case 'M' => scale := 0x10_0000;
      case 'G' => scale := 0x4000_0000;
      case _ =>
        var digit := IsUint(arg[|arg| - 1..], 1);
        if !digit {
          assert !IsDigit(Digits(arg)[|arg| - 1]);
          return ARGS_FAILED, mem;
        }
    }
    var offset := if scale != 1 then 1 else 0;
    var n := |arg| - offset;
    assert Digits(arg) == arg[..n];
    assert DigitsUpTo(arg, n) <==> AllDigits(arg[..n]) by {
      assert forall i :: 0 <= i < n ==> arg[..n][i] == arg[i];
    }
    var ok := IsUint(arg, n);
    if !ok {
      return -1, mem;
    }
    StrtoulStopsAt(arg, n);
    var _, value := ToUint(arg, n, mem);
    mem := value * scale % U64;
    mem := AlignedToPages(mem);
    ret := SUCCESS;
  }

  ghost predicate LeastPageMultiple(size: nat, n: nat) {
    size % PAGE_SIZE == 0 && size >= n && forall q: nat :: q % PAGE_SIZE == 0 && q >= n ==> size <= q
  }

  lemma RoundingUp(n: nat)
    ensures LeastPageMultiple(if n % PAGE_SIZE == 0 then n else n - n % PAGE_SIZE + PAGE_SIZE, n)
  {
  }

  /** The arithmetic of parse_mem for a value v and a unit u. */
  function GrantedFor(v: nat, u: nat): nat {
    AlignedToPages((if v >= U64 then U64 - 1 else v) * u % U64)
  }

  lemma AlignedIsPages(size: nat)
    requires size < U64
    ensures AlignedToPages(size) % PAGE_SIZE == 0 && AlignedToPages(size) < U64
  {
  }

  lemma GrantedForIsPages(v: nat, u: nat)
    ensures GrantedFor(v, u) % PAGE_SIZE == 0 && GrantedFor(v, u) < U64
  {
    hide AlignedToPages;
    AlignedIsPages((if v >= U64 then U64 - 1 else v) * u % U64);
  }

  lemma GrantedForFits(v: nat, u: nat)
    requires u == 1 || u == 0x400 || u == 0x10_0000 || u == 0x4000_0000
    requires v * u <= U64 - PAGE_SIZE
    ensures LeastPageMultiple(GrantedFor(v, u), v * u)
  {
    assert v < U64;
    assert v * u % U64 == v * u;
    RoundingUp(v * u);
  }

  lemma TooLarge(size: nat, n: nat)
    requires size % PAGE_SIZE == 0 && size < U64 && n > U64 - PAGE_SIZE
    ensures !LeastPageMultiple(size, n)
  {
  }

  lemma GrantedIs(arg: string)
    requires WellFormed(arg)
    ensures Granted(arg) == GrantedFor(Value(Digits(arg)), Unit(arg))
  {
    hide AlignedToPages, Value, Digits, Unit;
  }

  /** The size granted is the one requested, rounded up to whole pages, exactly
      when that fits in 64 bits; whatever happens it is a whole number of pages. */
  lemma GrantedIsRequested(arg: string)
    requires WellFormed(arg)
    ensures Granted(arg) % PAGE_SIZE == 0 && Granted(arg) < U64
    ensures LeastPageMultiple(Granted(arg), Requested(arg)) <==> Requested(arg) <= U64 - PAGE_SIZE
  {
    hide AlignedToPages, GrantedFor, Granted, LeastPageMultiple, Value, Digits;
    var v, u := Value(Digits(arg)), Unit(arg);
    GrantedIs(arg);
    GrantedForIsPages(v, u);
    if v * u <= U64 - PAGE_SIZE {
      GrantedForFits(v, u);
    } else {
      TooLarge(Granted(arg), v * u);
    }
  }

  lemma UnitOf(n: nat)
    ensures WellFormed(Decimal(n)) && Digits(Decimal(n)) == Decimal(n) && Unit(Decimal(n)) == 1
    ensures WellFormed(Decimal(n) + "K") && Digits(Decimal(n) + "K") == Decimal(n)
    ensures WellFormed(Decimal(n) + "M") && Digits(Decimal(n) + "M") == Decimal(n)
    ensures WellFormed(Decimal(n) + "G") && Digits(Decimal(n) + "G") == Decimal(n)
  {
    hide Decimal;
    assert IsDigit(Decimal(n)[|Decimal(n)| - 1]);
    assert (Decimal(n) + "K")[..|Decimal(n)|] == Decimal(n);
    assert (Decimal(n) + "M")[..|Decimal(n)|] == Decimal(n);
    assert (Decimal(n) + "G")[..|Decimal(n)|] == Decimal(n);
  }

  lemma GrantedOf(arg: string, n: nat)
    requires WellFormed(arg) && Digits(arg) == Decimal(n) && n * Unit(arg) <= U64 - PAGE_SIZE
    ensures LeastPageMultiple(Granted(arg), n * Unit(arg))
  {
    hide Granted, GrantedFor, Decimal, Digits, Value, LeastPageMultiple;
    DecimalSpells(n);
    GrantedIs(arg);
    GrantedForFits(n, Unit(arg));
  }

  /** A number alone is bytes, and K, M and G stand for 2^10, 2^20 and 2^30 of them: the
      size granted is the least number of whole pages that holds as much. */
  lemma UnitsAreBinary(n: nat)
    ensures WellFormed(Decimal(n)) && WellFormed(Decimal(n) + "K")
    ensures WellFormed(Decimal(n) + "M") && WellFormed(Decimal(n) + "G")
    ensures n <= U64 - 4096 ==> LeastPageMultiple(Granted(Decimal(n)), n)
    ensures n * 1024 <= U64 - 4096 ==> LeastPageMultiple(Granted(Decimal(n) + "K"), n * 1024)
    ensures n * 1024 * 1024 <= U64 - 4096 ==> LeastPageMultiple(Granted(Decimal(n) + "M"), n * 1024 * 1024)
    ensures n * 1024 * 1024 * 1024 <= U64 - 4096 ==>
              LeastPageMultiple(Granted(Decimal(n) + "G"), n * 1024 * 1024 * 1024)
  {
    hide Granted, Decimal, Digits, LeastPageMultiple;
    UnitOf(n);
    var k, m, g := Decimal(n) + "K", Decimal(n) + "M", Decimal(n) + "G";
    if n <= U64 - 4096 {
      GrantedOf(Decimal(n), n);
    }
    if n * 1024 <= U64 - 4096 {
      GrantedOf(k, n);
    }
    if n * 1024 * 1024 <= U64 - 4096 {
      GrantedOf(m, n);
    }
    if n * 1024 * 1024 * 1024 <= U64 - 4096 {
      GrantedOf(g, n);
    }
  }

  lemma UniqueRest(x: nat, q: nat, rest: nat, d: nat)
    requires 0 < d && x == d * q + rest && rest < d
    ensures x % d == rest
  {
    var p := x / d;
    assert x == d * p + x % d;
    assert d * (p + 1) == d * p + d && d * (q + 1) == d * q + d;
    assert p < q ==> d * (p + 1) <= d * q;
    assert q < p ==> d * (q + 1) <= d * p;
  }

  lemma Wrapped(n: nat)
    ensures n * 0x10_0000 % U64 == n % 0x1000_0000_0000 * 0x10_0000
  {
    var q, r := n / 0x1000_0000_0000, n % 0x1000_0000_0000;
    assert n == 0x1000_0000_0000 * q + r;
    UniqueRest(n * 0x10_0000, q, r * 0x10_0000, U64);
  }

  lemma WholePages(k: nat)
    ensures AlignedToPages(k * 0x10_0000) == k * 0x10_0000
  {
    UniqueRest(k * 0x10_0000, k * 0x100, 0, PAGE_SIZE);
  }

  lemma MegaWraps(n: nat)
    requires n < U64
    ensures GrantedFor(n, 0x10_0000) == n % 0x1000_0000_0000 * 0x10_0000
  {
    hide AlignedToPages;
    Wrapped(n);
    WholePages(n % 0x1000_0000_0000);
  }

  /** What the saturated value gives in K and in M. */
  lemma Saturates(v: nat)
    requires v >= U64
    ensures GrantedFor(v, 0x400) == 0 && GrantedFor(v, 0x10_0000) != 0
  {
    UniqueRest((U64 - 1) * 0x400, 0x3ff, U64 - 0x400, U64);
    UniqueRest((U64 - 1) * 0x10_0000, 0xf_ffff, U64 - 0x10_0000, U64);
  }

  lemma SameProduct(n: nat)
    requires 1024 * n < U64
    ensures GrantedFor(n, 0x10_0000) == GrantedFor(1024 * n, 0x400)
  {
    hide AlignedToPages;
    assert n * 0x10_0000 == 1024 * n * 0x400;
  }

  lemma MegaAgainstKiloFor(n: nat)
    ensures GrantedFor(n, 0x10_0000) == GrantedFor(1024 * n, 0x400) <==>
              1024 * n < U64 || (n < U64 && n % 0x1000_0000_0000 == 0)
  {
    hide GrantedFor;
    if 1024 * n < U64 {
      SameProduct(n);
    } else {
      Saturates(1024 * n);
      if n < U64 {
        MegaWraps(n);
      } else {
        Saturates(n);
      }
    }
  }

  /** The same amount spelled in M and in K gives the same size exactly when the
      longer spelling still fits in 64 bits, or the size wraps to 0 both ways. */
  lemma MegaAgainstKilo(n: nat)
    ensures WellFormed(Decimal(n) + "M") && WellFormed(Decimal(1024 * n) + "K")
    ensures Granted(Decimal(n) + "M") == Granted(Decimal(1024 * n) + "K") <==>
              1024 * n < U64 || (n < U64 && n % 0x1000_0000_0000 == 0)
  {
    hide GrantedFor, Granted, Value, Decimal;
    var m, k := Decimal(n) + "M", Decimal(1024 * n) + "K";
    assert Digits(m) == Decimal(n) && Digits(k) == Decimal(1024 * n);
    DecimalSpells(n);
    DecimalSpells(1024 * n);
    GrantedIs(m);
    GrantedIs(k);
    MegaAgainstKiloFor(n);
  }
}
