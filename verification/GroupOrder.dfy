/** The order in which sibling groups are rendered: position by position, by number where both values
    of a numeric attribute parse as one, and by text otherwise. */
module GroupOrder {
  import opened Options
  import opened Events
  import opened Extractor

  // ----- text -------------------------------------------------------------------------------------

  /** `std::string` comparison. */
  predicate TextLess(x: string, y: string) {
    y != [] && (x == [] || x[0] < y[0] || (x[0] == y[0] && TextLess(x[1..], y[1..])))
  }

  lemma {:induction false} TextOrder(x: string, y: string)
    ensures !(TextLess(x, y) && TextLess(y, x))
    ensures x == y || TextLess(x, y) || TextLess(y, x)
    ensures x == y ==> !TextLess(x, y)
  {
    if x != [] && y != [] {
      TextOrder(x[1..], y[1..]);
      assert x == [x[0]] + x[1..] && y == [y[0]] + y[1..];
    }
  }

  lemma {:induction false} TextTransitive(x: string, y: string, z: string)
    requires TextLess(x, y) && TextLess(y, z)
    ensures TextLess(x, z)
  {
    if x != [] && x[0] == y[0] == z[0] { TextTransitive(x[1..], y[1..], z[1..]); }
  }

  // ----- numbers ----------------------------------------------------------------------------------

  predicate IsDigit(c: char) {
    '0' <= c <= '9'
  }

  predicate IsSpace(c: char) {
    c == ' ' || '\t' <= c <= '\r'
  }

  function SkipSpace(s: string): string {
    if s != [] && IsSpace(s[0]) then SkipSpace(s[1..]) else s
  }

  /** The longest prefix of digits. */
  function DigitRun(s: string): (r: string)
    ensures forall i | 0 <= i < |r| :: IsDigit(r[i])
  {
    if s != [] && IsDigit(s[0]) then [s[0]] + DigitRun(s[1..]) else []
  }

  /** `strtoull` in base 10: None when the end pointer does not move, else the number, saturated, and
      negated after a minus sign. */
  function Strtoull(s: string): Option<nat> {
    var t := SkipSpace(s);
    var signed := t != [] && (t[0] == '+' || t[0] == '-');
    var digits := DigitRun(if signed then t[1..] else t);
    if digits == [] then None
    else if Spelled(digits) >= TWO_64 then Some(TWO_64 - 1)
    else if signed && t[0] == '-' && Spelled(digits) > 0 then Some(TWO_64 - Spelled(digits))
    else Some(Spelled(digits))
  }

  lemma {:induction false} AllDigits(s: string)
    requires forall i | 0 <= i < |s| :: IsDigit(s[i])
    ensures DigitRun(s) == s
  {
    if s != [] {
      AllDigits(s[1..]);
      assert s == [s[0]] + s[1..];
    }
  }

  lemma PlainStart(s: string)
    requires s != [] && '0' <= s[0] <= '9'
    ensures SkipSpace(s) == s && s[0] != '+' && s[0] != '-'
  {
  }

  lemma DigitsParse(s: string)
    requires s != [] && forall i | 0 <= i < |s| :: '0' <= s[i] <= '9'
    requires Spelled(s) < TWO_64
    ensures Strtoull(s) == Some(Spelled(s))
  {
    PlainStart(s);
    AllDigits(s);
  }

  lemma DecimalParses(n: nat)
    requires n < TWO_64
    ensures Strtoull(Decimal(n)) == Some(n)
  {
    SpelledDecimal(n);
    DigitsParse(Decimal(n));
  }

  // ----- one position -------------------------------------------------------------------------------

  /** The attribute's type is one the comparison takes for numeric.  Pseudo attributes and timestamps are not. */
  predicate ComparesNumbers(g: GroupAttribute) {
    g.id.Plain? && TypeOf(g.id.attr) in {U1, U4, U8}
  }

  predicate ValueLess(g: GroupAttribute, x: string, y: string) {
    if ComparesNumbers(g) && Strtoull(x).Some? && Strtoull(y).Some? then Strtoull(x).value < Strtoull(y).value
    else TextLess(x, y)
  }

  /** The values a group can have at a position. */
  ghost predicate Holdable(g: GroupAttribute, v: string) {
    ComparesNumbers(g) ==>
      v == "" || (if g.id.attr == NodeKind then v in NODE_KIND_TEXT else IsDecimal(v))
  }

  ghost predicate IsDecimal(v: string) {
    exists n: nat :: n < TWO_64 && v == Decimal(n)
  }

  lemma BucketIsSmaller(g: GroupAttribute, n: nat)
    requires g.isBucket && n < TWO_64
    ensures IsDecimal(Decimal(Bucket(g, n)))
  {
    assert Bucket(g, n) + n % g.bucketScale == n;
  }

  lemma NumbersAreHoldable(g: GroupAttribute, c: Context)
    requires ComparesNumbers(g) && g.id.attr in c.event.attrs && g.id.attr != NodeKind
    ensures GetValue(g, c).Some? && IsDecimal(GetValue(g, c).value)
  {
    if g.isBucket { BucketIsSmaller(g, Num(c.event, g.id.attr)); }
  }

  /** The value of an event is one of them. */
  lemma ValuesAreHoldable(g: GroupAttribute, c: Context)
    requires GetValue(g, c).Some?
    ensures Holdable(g, GetValue(g, c).value)
  {
    if ComparesNumbers(g) && g.id.attr in c.event.attrs && g.id.attr != NodeKind { NumbersAreHoldable(g, c); }
  }

  lemma ParsesAsNumber(g: GroupAttribute, v: string)
    requires ComparesNumbers(g) && Holdable(g, v) && Strtoull(v).Some?
    ensures v != "" && v == Decimal(Strtoull(v).value) && Strtoull(v).value < TWO_64
  {
    NamesDoNotParse();
    var n: nat :| n < TWO_64 && v == Decimal(n);
    DecimalParses(n);
  }

  lemma NamesDoNotParse()
    ensures Strtoull("").None? && forall v | v in NODE_KIND_TEXT :: Strtoull(v).None?
  {
  }

  lemma DoesNotParse(g: GroupAttribute, v: string)
    requires ComparesNumbers(g) && Holdable(g, v) && Strtoull(v).None?
    ensures v == "" || g.id.attr == NodeKind
  {
    if v != "" && g.id.attr != NodeKind {
      var n: nat :| n < TWO_64 && v == Decimal(n);
      DecimalParses(n);
    }
  }

  lemma ValueOrder(g: GroupAttribute, x: string, y: string)
    requires Holdable(g, x) && Holdable(g, y)
    ensures !(ValueLess(g, x, y) && ValueLess(g, y, x))
    ensures x == y <==> !ValueLess(g, x, y) && !ValueLess(g, y, x)
  {
    TextOrder(x, y);
    TextOrder(y, x);
    if ComparesNumbers(g) && Strtoull(x).Some? && Strtoull(y).Some? {
      ParsesAsNumber(g, x);
      ParsesAsNumber(g, y);
    }
  }

  lemma ValueTransitive(g: GroupAttribute, x: string, y: string, z: string)
    requires Holdable(g, x) && Holdable(g, y) && Holdable(g, z)
    requires ValueLess(g, x, y) && ValueLess(g, y, z)
    ensures ValueLess(g, x, z)
  {
    if ComparesNumbers(g) {
      if g.id.attr == NodeKind {
        NamesDoNotParse();
        TextTransitive(x, y, z);
      } else {
        if Strtoull(x).None? { DoesNotParse(g, x); }
        if Strtoull(y).None? { DoesNotParse(g, y); }
        if Strtoull(z).None? { DoesNotParse(g, z); }
        NamesDoNotParse();
      }
    } else {
      TextTransitive(x, y, z);
    }
  }

  // ----- tuples -------------------------------------------------------------------------------------

  /** The order of two tuples from position `i` on: that of the first position where they differ. */
  predicate TupleLessFrom(attrs: seq<GroupAttribute>, a: seq<string>, b: seq<string>, i: nat)
    requires |b| == |a|
    decreases |a| - i
  {
    if i >= |a| || i >= |attrs| then false
    else if a[i] != b[i] then ValueLess(attrs[i], a[i], b[i])
    else TupleLessFrom(attrs, a, b, i + 1)
  }

  predicate TupleLess(attrs: seq<GroupAttribute>, a: seq<string>, b: seq<string>)
    requires |b| == |a|
  {
    TupleLessFrom(attrs, a, b, 0)
  }

  /** The comparison passed to the sort. */
  method Before(attrs: seq<GroupAttribute>, a: seq<string>, b: seq<string>) returns (less: bool)
    requires |b| == |a|
    ensures less == TupleLess(attrs, a, b)
  {
    var i := 0;
    while i < |a| && i < |attrs|
      invariant 0 <= i <= |a|
      invariant TupleLess(attrs, a, b) == TupleLessFrom(attrs, a, b, i)
    {
      if a[i] != b[i] {
        if ComparesNumbers(attrs[i]) {
          var x, y := Strtoull(a[i]), Strtoull(b[i]);
          if x.Some? && y.Some? { return x.value < y.value; }
        }
        return TextLess(a[i], b[i]);
      }
      i := i + 1;
    }
    return false;
  }

  /** The tuples a group can have. */
  ghost predicate HoldableTuple(attrs: seq<GroupAttribute>, a: seq<string>) {
    |a| == |attrs| && forall i | 0 <= i < |a| :: Holdable(attrs[i], a[i])
  }

  lemma TuplesAreHoldable(attrs: seq<GroupAttribute>, c: Context)
    requires Values(attrs, c).Some?
    ensures HoldableTuple(attrs, Values(attrs, c).value)
  {
    forall i | 0 <= i < |attrs| ensures Holdable(attrs[i], Values(attrs, c).value[i]) {
      ValuesAreHoldable(attrs[i], c);
    }
  }

  lemma {:induction false} TupleOrderFrom(attrs: seq<GroupAttribute>, a: seq<string>, b: seq<string>, i: nat)
    requires HoldableTuple(attrs, a) && HoldableTuple(attrs, b) && i <= |a|
    ensures !(TupleLessFrom(attrs, a, b, i) && TupleLessFrom(attrs, b, a, i))
    ensures a[i..] == b[i..] <==> !TupleLessFrom(attrs, a, b, i) && !TupleLessFrom(attrs, b, a, i)
    decreases |a| - i
  {
    if i < |a| {
      assert a[i..] == [a[i]] + a[i + 1..] && b[i..] == [b[i]] + b[i + 1..];
      if a[i] == b[i] { TupleOrderFrom(attrs, a, b, i + 1); }
      else { ValueOrder(attrs[i], a[i], b[i]); assert a[i..][0] != b[i..][0]; }
    }
  }

  /** The comparison is asymmetric, and tells any two different tuples apart ... */
  lemma TupleOrder(attrs: seq<GroupAttribute>, a: seq<string>, b: seq<string>)
    requires HoldableTuple(attrs, a) && HoldableTuple(attrs, b)
    ensures !(TupleLess(attrs, a, b) && TupleLess(attrs, b, a))
    ensures a == b <==> !TupleLess(attrs, a, b) && !TupleLess(attrs, b, a)
  {
    TupleOrderFrom(attrs, a, b, 0);
    assert a[0..] == a && b[0..] == b;
  }

  lemma {:induction false} TupleTransitiveFrom(attrs: seq<GroupAttribute>, a: seq<string>, b: seq<string>,
                                               c: seq<string>, i: nat)
    requires HoldableTuple(attrs, a) && HoldableTuple(attrs, b) && HoldableTuple(attrs, c)
    requires TupleLessFrom(attrs, a, b, i) && TupleLessFrom(attrs, b, c, i)
    ensures TupleLessFrom(attrs, a, c, i)
    decreases |a| - i
  {
    if a[i] == b[i] == c[i] {
      TupleTransitiveFrom(attrs, a, b, c, i + 1);
    } else if a[i] != b[i] && b[i] != c[i] {
      ValueTransitive(attrs[i], a[i], b[i], c[i]);
      ValueOrder(attrs[i], a[i], b[i]);
    }
  }

  /** ... and is transitive: it is the strict total order that sorting asks for. */
  lemma TupleTransitive(attrs: seq<GroupAttribute>, a: seq<string>, b: seq<string>, c: seq<string>)
    requires HoldableTuple(attrs, a) && HoldableTuple(attrs, b) && HoldableTuple(attrs, c)
    requires TupleLess(attrs, a, b) && TupleLess(attrs, b, c)
    ensures TupleLess(attrs, a, c)
  {
    TupleTransitiveFrom(attrs, a, b, c, 0);
  }

  /** On texts that no group can have it is not an order: it has a cycle. */
  lemma CycleOnOtherText(g: GroupAttribute)
    requires ComparesNumbers(g)
    ensures ValueLess(g, "3", " 20") && ValueLess(g, " 20", "!") && ValueLess(g, "!", "3")
  {
    assert " 20"[1..] == "20" && "20"[1..] == "0" && "0"[1..] == "" && "3"[1..] == "";
    assert SkipSpace(" 20") == "20";
    assert DigitRun("0") == "0";
    assert DigitRun("20") == "20";
    assert DigitRun("3") == "3";
    assert "20"[..1] == "2" && "2"[..0] == "" && "3"[..0] == "";
    assert Spelled("2") == 2;
  }
}
