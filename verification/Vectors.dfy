/** The growable vector of src/core/containers.c, one generic class for the
    macro's two instances. */
module Vectors {

  /** What a vector holds, how much room it has, and how many elements its
      resizes have copied since it was created. */
  datatype VecValue<T> = VecValue(items: seq<T>, capacity: nat, copied: nat)

  function EmptyVec<T>(): VecValue<T> {
    VecValue([], 1, 0)
  }

  function Resized<T>(v: VecValue<T>, capacity: nat): VecValue<T> {
    if capacity <= v.capacity then v
    else VecValue(v.items, capacity, v.copied + |v.items|)
  }

  /** The length grows first, so a resize copies one slot more than was filled. */
  function Appended<T>(v: VecValue<T>, x: T): VecValue<T> {
    if |v.items| + 1 < v.capacity then v.(items := v.items + [x])
    else VecValue(v.items + [x], 2 * v.capacity, v.copied + |v.items| + 1)
  }

  function Popped<T>(v: VecValue<T>): VecValue<T>
    requires v.items != []
  {
    v.(items := v.items[..|v.items| - 1])
  }

  lemma ResizedItems<T>(v: VecValue<T>, capacity: nat)
    requires capacity > v.capacity
    ensures Resized(v, capacity) == VecValue(v.items, capacity, v.copied + |v.items|)
  {
  }

  lemma AppendedItems<T>(v: VecValue<T>, x: T)
    ensures Appended(v, x).items == v.items + [x]
  {
  }

  class Vec<T(0)> {
    var tab: array<T>
    var len: nat
    var capacity: nat
    ghost var copied: nat

    /** Shape holds even between the early length increment and the resize. */
    ghost predicate Shape()
      reads this
    {
      tab.Length == capacity && len <= capacity
    }

    ghost predicate Valid()
      reads this
    {
      Shape() && len < capacity
    }

    ghost function View(): VecValue<T>
      requires Shape()
      reads this, tab
    {
      VecValue(tab[..len], capacity, copied)
    }

    constructor ()
      ensures Valid() && fresh(tab)
      ensures View() == EmptyVec()
    {
      capacity := 1;
      len := 0;
      tab := new T[1];
      copied := 0;
    }

    method Resize(newCapacity: nat) returns (ret: int)
      requires Shape()
      modifies this
      ensures Shape() && (tab == old(tab) || fresh(tab))
      ensures View() == Resized(old(View()), newCapacity)
      ensures ret == if newCapacity <= old(capacity) then -1 else 0
      ensures len == old(len)
    {
      if newCapacity <= capacity {
        return -1;
      }
      var before := tab;
      capacity := newCapacity;
      tab := new T[newCapacity];
      for i := 0 to len
        invariant fresh(tab) && tab.Length == newCapacity
        invariant capacity == newCapacity && len == old(len) && copied == old(copied)
        invariant before[..] == old(tab[..])
        invariant tab[..i] == before[..i]
        modifies tab
      {
        tab[i] := before[i];
      }
      copied := copied + len;
      return 0;
    }

    method Append(value: T)
      requires Valid()
      modifies this, tab
      ensures Valid() && (tab == old(tab) || fresh(tab))
      ensures View() == Appended(old(View()), value)
    {
      ghost var items := tab[..len];
      len := len + 1;
      assert tab[..len][..len - 1] == items;
      if len >= capacity {
        ghost var longer := tab[..len];
        var _ := Resize(2 * capacity);
        assert tab[..len] == longer;
      }
      tab[len - 1] := value;
      assert tab[..len] == items + [value];
    }

    method Pop()
      requires Valid() && len > 0
      modifies this
      ensures Valid() && tab == old(tab)
      ensures View() == Popped(old(View()))
    {
      len := len - 1;
      assert tab[..len] == tab[..len + 1][..len];
    }
  }

  // ----- whole runs of operations -----

  datatype Op<T> = Resize(capacity: nat) | Append(value: T) | Pop

  datatype Ops<T> = New | Then(before: Ops<T>, op: Op<T>)

  /** The plain sequence a run of operations describes. */
  function Items<T>(ops: Ops<T>): seq<T> {
    match ops
    case New => []
    case Then(b, Resize(_)) => Items(b)
    case Then(b, Append(x)) => Items(b) + [x]
    case Then(b, Pop) => if Items(b) == [] then [] else Items(b)[..|Items(b)| - 1]
  }

  /** Pop is called on non-empty vectors only. */
  predicate Legal<T>(ops: Ops<T>) {
    match ops
    case New => true
    case Then(b, op) => Legal(b) && (op.Pop? ==> Items(b) != [])
  }

  /** The vector that results, by the operations' own value functions. */
  function Outcome<T>(ops: Ops<T>): (v: VecValue<T>)
    requires Legal(ops)
    ensures v.items == Items(ops)
    ensures |v.items| < v.capacity
  {
    match ops
    case New => EmptyVec()
    case Then(b, Resize(c)) => Resized(Outcome(b), c)
    case Then(b, Append(x)) => Appended(Outcome(b), x)
    case Then(b, Pop) => Popped(Outcome(b))
  }

  /** The class itself, driven through any legal run, holds the plain sequence. */
  method Replay<T(0)>(ops: Ops<T>) returns (vec: Vec<T>)
    requires Legal(ops)
    ensures fresh(vec) && fresh(vec.tab) && vec.Valid()
    ensures vec.View() == Outcome(ops)
    ensures vec.View().items == Items(ops)
  {
    match ops
    case New =>
      vec := new Vec();
    case Then(b, op) =>
      vec := Replay(b);
      match op {
        case Resize(c) => var _ := vec.Resize(c);
        case Append(x) => vec.Append(x);
        case Pop => vec.Pop();
      }
  }

  predicate NoResize<T>(ops: Ops<T>) {
    ops.Then? ==> !ops.op.Resize? && NoResize(ops.before)
  }

  function Appends<T>(ops: Ops<T>): nat {
    match ops
    case New => 0
    case Then(b, op) => Appends(b) + if op.Append? then 1 else 0
  }

  function Pow2(k: nat): (p: nat)
    ensures p >= 1
  {
    if k == 0 then 1 else 2 * Pow2(k - 1)
  }

  /** Doubling keeps the copying linear: over any run of appends and pops the
      capacity is a power of two, the resizes have copied exactly capacity - 1
      elements, and that is fewer than two per append. */
  lemma {:induction false} AmortisedGrowth<T>(ops: Ops<T>) returns (k: nat)
    requires Legal(ops) && NoResize(ops)
    ensures Outcome(ops).capacity == Pow2(k)
    ensures Outcome(ops).copied == Outcome(ops).capacity - 1
    ensures |Items(ops)| <= Appends(ops)
    ensures Outcome(ops).copied > 0 ==> Outcome(ops).capacity <= 2 * Appends(ops)
    ensures Appends(ops) >= 1 ==> Outcome(ops).copied < 2 * Appends(ops)
    decreases ops
  {
    match ops
    case New =>
      k := 0;
    case Then(b, op) =>
      k := AmortisedGrowth(b);
      if op.Append? && |Items(b)| + 1 >= Outcome(b).capacity {
        k := k + 1;
      }
  }
}
