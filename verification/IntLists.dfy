/** The comma-separated list parser of src/core/core.c and the grammar it accepts. */
module IntLists {
  import opened Text
  import opened Numbers
  import opened Vectors
  import opened Errors

  // ----- the grammar, stated on the fields of the whole text -----

  predicate GoodField(f: string) {
    AllDigits(f) && Value(f) < U64
  }

  /** The empty text, or fields of digits between commas, the last not empty. */
  predicate Accepts(s: string) {
    s == "" || GoodFields(Split(s, ','))
  }

  predicate GoodFields(fs: seq<string>) {
    (forall k :: 0 <= k < |fs| ==> GoodField(fs[k])) && fs != [] && fs[|fs| - 1] != ""
  }

  /** The numbers of the fields in order; an empty field counts as 0. */
  function Values(s: string): seq<nat>
    requires Accepts(s)
  {
    if s == "" then [] else FieldValues(Split(s, ','))
  }

  function FieldValue(f: string): nat {
    if AllDigits(f) then Value(f) else 0
  }

  function FieldValues(fs: seq<string>): (vs: seq<nat>)
    ensures |vs| == |fs| && forall k :: 0 <= k < |fs| ==> vs[k] == FieldValue(fs[k])
  {
    seq(|fs|, k requires 0 <= k < |fs| => FieldValue(fs[k]))
  }

  /** The grammar read as productions: accepted texts are exactly the joins of
      good fields, and the fields are the only ones that join to the text. */
  lemma GrammarIsJoin(s: string, fs: seq<string>)
    requires fs != [] && s != "" && AllWithout(fs, ',') && s == Join(fs, ',')
    ensures Accepts(s) <==> GoodFields(fs)
    ensures Accepts(s) ==> Values(s) == FieldValues(fs)
  {
    SplitOfJoin(fs, ',');
  }

  ghost predicate IsJoinOf(s: string, fs: seq<string>) {
    fs != [] && AllWithout(fs, ',') && s == Join(fs, ',')
  }

  /** A text is accepted if and only if it is empty or some good fields join to it. */
  lemma Grammar(s: string)
    ensures Accepts(s) <==> s == "" || exists fs :: IsJoinOf(s, fs) && GoodFields(fs)
  {
    hide GoodFields;
    if s != "" {
      JoinOfSplit(s, ',');
      assert IsJoinOf(s, Split(s, ','));
      forall fs | IsJoinOf(s, fs) ensures Accepts(s) <==> GoodFields(fs) {
        GrammarIsJoin(s, fs);
      }
    }
  }

  lemma DigitsHoldNoComma(f: string)
    requires AllDigits(f)
    ensures Without(f, ',')
  {
  }

  // ----- the loop -----

  lemma GoodFieldsCons(f: string, rest: seq<string>)
    requires rest != []
    ensures GoodFields([f] + rest) <==> GoodField(f) && GoodFields(rest)
    ensures FieldValues([f] + rest) == [FieldValue(f)] + FieldValues(rest)
  {
    var fs := [f] + rest;
    assert fs[|fs| - 1] == rest[|rest| - 1];
    if GoodFields(fs) {
      assert GoodField(fs[0]);
      forall j | 0 <= j < |rest| ensures GoodField(rest[j]) {
        assert GoodField(fs[j + 1]);
      }
    } else if GoodField(f) && GoodFields(rest) {
      forall j | 0 <= j < |fs| ensures GoodField(fs[j]) {
        assert j > 0 ==> GoodField(rest[j - 1]);
      }
    }
  }

  /** The text that is left, when no comma is left. */
  lemma LastField(t: string)
    requires t != "" && Find(t, ',') == |t|
    ensures Accepts(t) <==> GoodField(t)
    ensures Accepts(t) ==> Values(t) == [FieldValue(t)]
  {
  }

  /** The text that is left, when a field and a comma come first. */
  lemma FirstField(t: string, k: nat)
    requires k == Find(t, ',') < |t|
    ensures Accepts(t) <==> GoodField(t[..k]) && k + 1 < |t| && Accepts(t[k + 1..])
    ensures Accepts(t) ==> Values(t) == [FieldValue(t[..k])] + Values(t[k + 1..])
  {
    hide GoodField, FieldValue;
    var f, u := t[..k], t[k + 1..];
    var rest := Split(u, ',');
    assert Split(t, ',') == [f] + rest;
    GoodFieldsCons(f, rest);
    assert u == "" ==> rest == [""];
  }

  /** The digits before the first character that is not one decide the field:
      they are the whole field exactly when a comma or the end follows. */
  lemma RunAgainstField(t: string)
    ensures var d, k := DigitRun(t), Find(t, ',');
            d <= k && (d == k <==> AllDigits(t[..k]))
  {
  }

  /** Inner rescanning loop: the offset stops one past the digits, or at the end. */
  method Scan(raw: string, index: nat) returns (offset: nat)
    requires index < |raw|
    ensures var d := DigitRun(raw[index..]);
            offset == if index + d == |raw| then d else d + 1
    ensures 1 <= offset && index + offset <= |raw|
  {
    ghost var t := raw[index..];
    ghost var d := DigitRun(t);
    offset := 1;
    while index + offset < |raw|
      invariant 1 <= offset && index + offset <= |raw|
      invariant offset <= d + 1 && (offset == d + 1 ==> index + d < |raw|)
    {
      assert forall i :: 0 <= i < d ==> t[i] == t[..d][i];
      var ok := IsUint(raw[index..], offset);
      if !ok {
        break;
      }
      assert IsDigit(t[offset - 1]);
      offset := offset + 1;
    }
  }

  /** The field at the head of t is good, and ends the text or has text after its comma. */
  predicate HeadOk(t: string) {
    var k := Find(t, ',');
    GoodField(t[..k]) && k + 1 != |t|
  }

  /** The run is made of digits and stops at the end or at another character. */
  lemma RunEnds(t: string)
    ensures var d := DigitRun(t);
            d <= |t| && DigitsUpTo(t, d) && (d < |t| ==> !IsDigit(t[d]))
  {
    var d := DigitRun(t);
    assert forall i :: 0 <= i < d ==> t[i] == t[..d][i];
  }

  /** What the conversion gives for the field that the scan delimited. */
  lemma ConversionOfField(t: string, offset: nat, ret: int, current: nat)
    requires t != "" && offset == (if DigitRun(t) == |t| then |t| else DigitRun(t) + 1)
    requires offset < |t| ==> t[offset - 1] == ','
    requires var n := offset - (if offset < |t| then 1 else 0);
             if DigitsUpTo(t, n)
             then current == Strtoul(t).value && ret == (if Strtoul(t).range then -1 else 0)
             else ret == -1
    ensures ret == SUCCESS <==> HeadOk(t)
    ensures ret == SUCCESS ==>
              var k := Find(t, ',');
              current == FieldValue(t[..k]) && offset == if k == |t| then k else k + 1
  {
    hide Strtoul, Value, DigitRun, Find, AllDigits;
    var d, k := DigitRun(t), Find(t, ',');
    RunAgainstField(t);
    RunEnds(t);
    if d == |t| || d + 1 < |t| {
      StrtoulStopsAt(t, d);
      assert d == k;
    } else {
      assert !IsDigit(t[d]);
    }
  }

  /** One turn of the outer loop: delimit a field, check what ends it, convert it. */
  method ParseField(raw: string, index: nat) returns (ret: int, current: nat, offset: nat)
    requires index < |raw|
    ensures ret == SUCCESS || ret == ARGS_FAILED || ret == -1
    ensures 1 <= offset && index + offset <= |raw|
    ensures ret == SUCCESS <==> HeadOk(raw[index..])
    ensures ret == SUCCESS ==>
              var t := raw[index..];
              var k := Find(t, ',');
              current == FieldValue(t[..k]) && offset == if k == |t| then k else k + 1
  {
    ghost var t := raw[index..];
    current := 0;
    offset := Scan(raw, index);
    assert raw[index + offset - 1] == t[offset - 1];
    if index + offset < |raw| && raw[index + offset - 1] != ',' {
      RunAgainstField(t);
      ret := ARGS_FAILED;
      return;
    }
    ret, current := ToUint(raw[index..], offset - (if |raw| - (index + offset) > 0 then 1 else 0), current);
    ConversionOfField(t, offset, ret, current);
  }

  /** What is left to parse decides, and done is what has been read. */
  ghost predicate Remaining(raw: string, index: nat, done: seq<nat>)
    requires index <= |raw|
  {
    (Accepts(raw) <==> Accepts(raw[index..])) &&
    (Accepts(raw) ==> Values(raw) == done + Values(raw[index..]))
  }

  lemma NothingDone(raw: string)
    ensures Remaining(raw, 0, [])
  {
  }

  lemma AllDone(raw: string, done: seq<nat>)
    requires Remaining(raw, |raw|, done)
    ensures Accepts(raw) && Values(raw) == done
  {
  }

  lemma EmptyText()
    ensures Accepts("") && Values("") == []
  {
  }

  lemma OneBadField(raw: string, index: nat, done: seq<nat>)
    requires index < |raw| && Remaining(raw, index, done) && !HeadOk(raw[index..])
    ensures !Accepts(raw)
  {
    hide Accepts, Values, GoodField, FieldValue;
    var t := raw[index..];
    var k := Find(t, ',');
    if k == |t| {
      LastField(t);
      assert t[..k] == t;
    } else {
      FirstField(t, k);
    }
  }

  lemma OneFieldDone(raw: string, index: nat, done: seq<nat>)
    requires index < |raw| && Remaining(raw, index, done) && HeadOk(raw[index..])
    ensures var k := Find(raw[index..], ',');
            var next := if index + k == |raw| then |raw| else index + k + 1;
            Remaining(raw, next, done + [FieldValue(raw[index..][..k])])
  {
    hide Accepts, Values, GoodField, FieldValue;
    var t := raw[index..];
    var k := Find(t, ',');
    if k == |t| {
      LastField(t);
      EmptyText();
      assert t[..k] == t;
      assert raw[|raw|..] == "";
    } else {
      FirstField(t, k);
      assert raw[index + k + 1..] == t[k + 1..];
      EmptyText();
      if Accepts(raw) {
        AppendThen(done, FieldValue(t[..k]), Values(t[k + 1..]));
      }
    }
  }

  lemma AppendThen(a: seq<nat>, x: nat, b: seq<nat>)
    ensures (a + [x]) + b == a + ([x] + b)
  {
  }

  /** mini_kvm_parse_int_list: succeeds exactly on the grammar and returns the
      field values in order. */
  method ParseIntList(raw: string) returns (ret: int, list: Vec<nat>)
    ensures fresh(list) && fresh(list.tab) && list.Valid()
    ensures ret == SUCCESS || ret == ARGS_FAILED || ret == -1
    ensures ret == SUCCESS <==> Accepts(raw)
    ensures ret == SUCCESS ==> list.View().items == Values(raw)
  {
    hide Accepts, Values, Remaining, HeadOk, FieldValue, Resized, Appended;
    ret := SUCCESS;
    list := new Vec();
    var _ := list.Resize(4);
    assert list.View() == VecValue([], 4, 0) by { ResizedItems<nat>(EmptyVec(), 4); }
    var index := 0;
    ghost var done: seq<nat> := [];
    NothingDone(raw);
    while index < |raw|
      invariant index <= |raw|
      invariant fresh(list) && fresh(list.tab) && list.Valid() && ret == SUCCESS
      invariant list.View().items == done
      invariant Remaining(raw, index, done)
    {
      label turn:
      var current, offset;
      ret, current, offset := ParseField(raw, index);
      if ret != SUCCESS {
        OneBadField(raw, index, done);
        return;
      }
      OneFieldDone(raw, index, done);
      list.Append(current);
      AppendedItems(old@turn(list.View()), current);
      done := done + [current];
      index := index + offset;
    }
    AllDone(raw, done);
  }

  // ----- printing -----

  predicate AllU64(vs: seq<nat>) {
    forall k :: 0 <= k < |vs| ==> vs[k] < U64
  }

  function Spellings(vs: seq<nat>): (fs: seq<string>)
    ensures |fs| == |vs| && forall k :: 0 <= k < |vs| ==> fs[k] == Decimal(vs[k])
  {
    seq(|vs|, k requires 0 <= k < |vs| => Decimal(vs[k]))
  }

  function PrintList(vs: seq<nat>): string {
    if vs == [] then "" else Join(Spellings(vs), ',')
  }

  /** Printing any 64-bit numbers and parsing the text returns them. */
  lemma RoundTrip(vs: seq<nat>)
    requires AllU64(vs)
    ensures Accepts(PrintList(vs)) && Values(PrintList(vs)) == vs
  {
    if vs != [] {
      var fs := Spellings(vs);
      forall k | 0 <= k < |fs| ensures GoodField(fs[k]) && FieldValue(fs[k]) == vs[k] && Without(fs[k], ',') {
        DecimalSpells(vs[k]);
        DigitsHoldNoComma(fs[k]);
      }
      assert Join(fs, ',') != "" by { assert fs[0] != ""; }
      GrammarIsJoin(Join(fs, ','), fs);
    }
  }

  /** Leading zeros and empty inner fields aside, reparsing the print of what was
      parsed changes nothing: the printed form is canonical. */
  lemma Reprint(s: string)
    requires Accepts(s)
    ensures AllU64(Values(s))
    ensures Accepts(PrintList(Values(s))) && Values(PrintList(Values(s))) == Values(s)
  {
    RoundTrip(Values(s));
  }
}
