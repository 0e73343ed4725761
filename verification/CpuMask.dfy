/** The CPU list of src/core/core.c, turned into a mask that the status server
    tests bit by bit. */
module CpuMask {
  import opened Errors
  import opened IntLists
  import opened Vectors

  /** 1 << k. The source shifts an int, which C defines for k up to 30. */
  function Bit(k: nat): bv64
    requires k < 64
  {
    Shifted(k as bv6)
  }

  function Shifted(k: bv6): bv64 {
    1 << k
  }

  /** The server's test for vCPU k. */
  predicate Has(mask: bv64, k: nat)
    requires k < 64
  {
    And(mask, Bit(k)) != 0
  }

  function And(a: bv64, b: bv64): bv64 {
    a & b
  }

  function Or(a: bv64, b: bv64): bv64 {
    a | b
  }

  predicate AllSmall(vs: seq<nat>) {
    forall i :: 0 <= i < |vs| ==> vs[i] <= 30
  }

  function WithAll(mask: bv64, vs: seq<nat>): bv64
    requires AllSmall(vs)
  {
    if vs == [] then mask else Or(WithAll(mask, vs[..|vs| - 1]), Bit(vs[|vs| - 1]))
  }

  lemma CountIsExact(k: nat)
    requires k < 64
    ensures (k as bv6) as int == k
  {
  }

  lemma ShiftsApart(j: bv6, k: bv6)
    requires j != k
    ensures And(Shifted(j), Shifted(k)) == 0
  {
  }

  lemma BitsApart(j: nat, k: nat)
    requires j < 64 && k < 64 && j != k
    ensures And(Bit(j), Bit(k)) == 0
  {
    hide Shifted, And;
    CountIsExact(j);
    CountIsExact(k);
    ShiftsApart(j as bv6, k as bv6);
  }

  lemma BitIsSet(k: nat)
    requires k < 64
    ensures Bit(k) != 0
  {
  }

  /** 2^k by doubling, which does not overflow below 64. */
  function PowerOf2(k: nat): bv64 {
    if k == 0 then 1 else Twice(PowerOf2(k - 1))
  }

  function Twice(x: bv64): bv64 {
    x + x
  }

  /** Doubling x does not overflow. */
  predicate Small(x: bv64) {
    x < 0x8000_0000_0000_0000
  }

  lemma NextBit(k: bv6)
    requires k < 63
    ensures Shifted(k + 1) == Twice(Shifted(k)) && Small(Shifted(k))
  {
  }

  lemma NextCount(k: nat)
    requires k < 63
    ensures (k as bv6) + 1 == (k + 1) as bv6 && (k as bv6) < 63
  {
    CountIsExact(k);
    CountIsExact(k + 1);
  }

  lemma BitDoubles(k: nat)
    requires k < 63
    ensures Bit(k + 1) == Twice(Bit(k)) && Small(Bit(k))
  {
    hide Shifted, Twice, Small;
    NextCount(k);
    NextBit(k as bv6);
  }

  /** Bit k is the number 2^k. */
  lemma {:induction false} BitIsPower(k: nat)
    requires k < 64
    ensures Bit(k) == PowerOf2(k) && (k < 63 ==> Small(PowerOf2(k)))
  {
    hide Bit, Twice, Small;
    if k < 63 {
      BitDoubles(k);
    }
    if k == 0 {
      FirstBit();
    } else {
      BitIsPower(k - 1);
      BitDoubles(k - 1);
    }
  }

  lemma FirstBit()
    ensures Bit(0) == 1
  {
  }

  // Bitwise laws, on their own so that no shift is in sight.

  lemma AndSkips(m: bv64, a: bv64, b: bv64)
    requires And(a, b) == 0
    ensures And(Or(m, a), b) == And(m, b)
  {
  }

  lemma AndFinds(m: bv64, b: bv64)
    ensures And(Or(m, b), b) == b
  {
  }

  lemma OrCommutes(a: bv64, b: bv64)
    ensures Or(a, b) == Or(b, a)
  {
  }

  lemma OrAssociates(a: bv64, b: bv64, c: bv64)
    ensures Or(a, Or(b, c)) == Or(Or(a, b), c)
  {
  }

  lemma OrSelf(a: bv64)
    ensures Or(a, a) == a
  {
  }

  lemma OneBit(mask: bv64, j: nat, k: nat)
    requires j < 64 && k < 64
    ensures Has(Or(mask, Bit(j)), k) <==> Has(mask, k) || j == k
  {
    hide Bit, Or, And;
    if j == k {
      BitIsSet(k);
      AndFinds(mask, Bit(k));
    } else {
      BitsApart(j, k);
      AndSkips(mask, Bit(j), Bit(k));
    }
  }

  /** A bit is set exactly when it was set before or is in the list. */
  lemma {:induction false} MaskIsMembership(mask: bv64, vs: seq<nat>, k: nat)
    requires AllSmall(vs) && k < 64
    ensures Has(WithAll(mask, vs), k) <==> Has(mask, k) || k in vs
  {
    hide Bit, Has, Or;
    if vs != [] {
      var init, last := vs[..|vs| - 1], vs[|vs| - 1];
      MaskIsMembership(mask, init, k);
      OneBit(WithAll(mask, init), last, k);
      assert vs == init + [last];
    }
  }

  lemma {:induction false} Absorbs(mask: bv64, vs: seq<nat>, k: nat)
    requires AllSmall(vs) && k in vs
    ensures Or(WithAll(mask, vs), Bit(k)) == WithAll(mask, vs)
  {
    hide Bit, Or;
    var init, last := vs[..|vs| - 1], vs[|vs| - 1];
    assert vs == init + [last];
    var m, a, b := WithAll(mask, init), Bit(last), Bit(k);
    if k == last {
      OrSelf(a);
      OrAssociates(m, a, a);
    } else {
      Absorbs(mask, init, k);
      OrCommutes(a, b);
      OrAssociates(m, a, b);
      OrAssociates(m, b, a);
    }
  }

  lemma {:induction false} StartIsCovered(mask: bv64, vs: seq<nat>)
    requires AllSmall(vs)
    ensures Or(mask, WithAll(mask, vs)) == WithAll(mask, vs)
  {
    hide Bit, Or;
    if vs == [] {
      OrSelf(mask);
    } else {
      StartIsCovered(mask, vs[..|vs| - 1]);
      OrAssociates(mask, WithAll(mask, vs[..|vs| - 1]), Bit(vs[|vs| - 1]));
    }
  }

  lemma {:induction false} Covers(mask: bv64, vs: seq<nat>, ws: seq<nat>)
    requires AllSmall(vs) && AllSmall(ws)
    requires forall w :: w in ws ==> w in vs
    ensures Or(WithAll(mask, ws), WithAll(mask, vs)) == WithAll(mask, vs)
    decreases |ws|
  {
    hide Bit, Or;
    if ws == [] {
      StartIsCovered(mask, vs);
    } else {
      var init, last := ws[..|ws| - 1], ws[|ws| - 1];
      Covers(mask, vs, init);
      Absorbs(mask, vs, last);
      var m, a, v := WithAll(mask, init), Bit(last), WithAll(mask, vs);
      OrCommutes(a, v);
      OrAssociates(m, a, v);
    }
  }

  /** Order and repetition do not matter: lists with the same members give the
      same mask. */
  lemma OrderAndDuplicates(mask: bv64, vs: seq<nat>, ws: seq<nat>)
    requires AllSmall(vs) && AllSmall(ws)
    requires forall k :: k in vs <==> k in ws
    ensures WithAll(mask, vs) == WithAll(mask, ws)
  {
    hide WithAll, Or;
    Covers(mask, vs, ws);
    Covers(mask, ws, vs);
    OrCommutes(WithAll(mask, vs), WithAll(mask, ws));
  }

  /** A list sets exactly its own bits. */
  lemma ListSetsItsBits(mask: bv64, vs: seq<nat>)
    requires AllSmall(vs)
    ensures forall k :: 0 <= k < 64 ==> (Has(WithAll(mask, vs), k) <==> Has(mask, k) || k in vs)
  {
    hide Bit, Has, WithAll;
    forall k | 0 <= k < 64 ensures Has(WithAll(mask, vs), k) <==> Has(mask, k) || k in vs {
      MaskIsMembership(mask, vs, k);
    }
  }

  /** mini_kvm_parse_cpu_list; the mask is updated through a pointer. */
  method ParseCpuList(raw: string, before: bv64) returns (ret: int, mask: bv64)
    requires Accepts(raw) ==> AllSmall(Values(raw))
    ensures ret == if Accepts(raw) then SUCCESS else INTERNAL_ERROR
    ensures mask == if Accepts(raw) then WithAll(before, Values(raw)) else before
    ensures Accepts(raw) ==>
              forall k :: 0 <= k < 64 ==> (Has(mask, k) <==> Has(before, k) || k in Values(raw))
  {
    hide Bit, Has, Or, Accepts, Values;
    mask := before;
    if |raw| == 0 {
      EmptyText();
      return SUCCESS, mask;
    }
    var parsed, list := ParseIntList(raw);
    if parsed != SUCCESS {
      return INTERNAL_ERROR, mask;
    }
    mask := SetBits(list, before);
    ListSetsItsBits(before, Values(raw));
    ret := SUCCESS;
  }

  method SetBits(list: Vec<nat>, before: bv64) returns (mask: bv64)
    requires list.Valid() && AllSmall(list.View().items)
    ensures mask == WithAll(before, list.View().items)
  {
    hide Bit, Or;
    mask := before;
    ghost var vs := list.View().items;
    for i := 0 to list.len
      invariant mask == WithAll(before, vs[..i])
    {
      assert vs[..i + 1][..i] == vs[..i];
      mask := Or(mask, Bit(list.tab[i]));
    }
    assert vs[..|vs|] == vs;
  }
}
