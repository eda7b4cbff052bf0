/** What the values that events are grouped by mean: which number a bucket is, which bit a flag, which of two
    values comes first, and which events belong to a group. */
module GroupValues {
  import opened Options
  import opened Events
  import opened Extractor
  import opened GroupOrder
  import opened GroupTree
  import opened GroupBy

  // ----- numbers and buckets ------------------------------------------------------------------------

  predicate IsDigits(s: string) {
    forall i | 0 <= i < |s| :: '0' <= s[i] <= '9'
  }

  predicate Times(count: nat, size: nat, n: nat) {
    n == count * size
  }

  /** The bucket of a number is the multiple of the size that the number has reached. */
  ghost predicate IsBucketOf(bucket: nat, size: nat, n: nat) {
    bucket <= n < bucket + size && exists count: nat :: Times(count, size, bucket)
  }

  lemma BucketIsMultiple(g: GroupAttribute, n: nat)
    requires g.isBucket
    ensures IsBucketOf(Bucket(g, n), g.bucketScale, n)
  {
    assert n / g.bucketScale * g.bucketScale + n % g.bucketScale == n;
    assert Times(n / g.bucketScale, g.bucketScale, Bucket(g, n));
  }

  /** An attribute that is assigned and numeric is shown as its number or, in buckets, as its bucket. */
  lemma NumbersAreShown(g: GroupAttribute, c: Context)
    requires g.id.Plain? && g.id.attr in c.event.attrs && IsNumeric(g.id.attr) && g.id.attr != NodeKind
    ensures var v := GetValue(g, c);
            && v.Some? && v.value != "" && IsDigits(v.value)
            && if g.isBucket then IsBucketOf(Spelled(v.value), g.bucketScale, Num(c.event, g.id.attr))
               else Spelled(v.value) == Num(c.event, g.id.attr)
  {
    var n := Num(c.event, g.id.attr);
    SpelledDecimal(n);
    if g.isBucket {
      BucketIsMultiple(g, n);
      SpelledDecimal(Bucket(g, n));
    }
  }

  /** Numbers are shown without leading zeros. */
  lemma {:induction false} NoLeadingZero(n: nat)
    ensures Decimal(n)[0] == '0' <==> n == 0
    ensures n == 0 ==> Decimal(n) == "0"
  {
    if n >= 10 { NoLeadingZero(n / 10); }
  }

  lemma TimesGrows(p: nat, q: nat, size: nat)
    requires p < q
    ensures p * size + size <= q * size
    decreases q
  {
    assert q * size == (q - 1) * size + size;
    if p < q - 1 { TimesGrows(p, q - 1, size); }
  }

  lemma MultiplesApart(a: nat, b: nat, size: nat)
    requires (exists count: nat :: Times(count, size, a)) && (exists count: nat :: Times(count, size, b)) && a < b
    ensures a + size <= b
  {
    var p: nat :| Times(p, size, a);
    var q: nat :| Times(q, size, b);
    if p < q { TimesGrows(p, q, size); } else if q < p { TimesGrows(q, p, size); }
  }

  /** Two events fall into one group of buckets if and only if one bucket holds both numbers. */
  lemma OneBucket(g: GroupAttribute, c: Context, d: Context)
    requires g.isBucket && g.id.attr in c.event.attrs && g.id.attr in d.event.attrs && g.id.attr != NodeKind
    ensures GetValue(g, c) == GetValue(g, d) <==>
            exists b: nat :: IsBucketOf(b, g.bucketScale, Num(c.event, g.id.attr))
                             && IsBucketOf(b, g.bucketScale, Num(d.event, g.id.attr))
  {
    var m, n := Num(c.event, g.id.attr), Num(d.event, g.id.attr);
    BucketIsMultiple(g, m);
    BucketIsMultiple(g, n);
    if GetValue(g, c) == GetValue(g, d) {
      DecimalInjective(Bucket(g, m), Bucket(g, n));
    }
    if b: nat :| IsBucketOf(b, g.bucketScale, m) && IsBucketOf(b, g.bucketScale, n) {
      BucketIsOne(b, Bucket(g, m), g.bucketScale, m);
      BucketIsOne(b, Bucket(g, n), g.bucketScale, n);
    }
  }

  lemma BucketIsOne(a: nat, b: nat, size: nat, n: nat)
    requires IsBucketOf(a, size, n) && IsBucketOf(b, size, n)
    ensures a == b
  {
    if a < b { MultiplesApart(a, b, size); }
    if b < a { MultiplesApart(b, a, size); }
  }

  // ----- flags, kinds and names ---------------------------------------------------------------------

  function BitValue(e: Event, bit: nat, value: nat): nat
    requires SearchFlags in e.attrs
  {
    if HasFlag(e, bit) then value else 0
  }

  lemma ByteOfBits(n: nat)
    requires n < 256
    ensures n == n % 2 + n / 2 % 2 * 2 + n / 4 % 2 * 4 + n / 8 % 2 * 8 + n / 16 % 2 * 16 + n / 32 % 2 * 32
                 + n / 64 % 2 * 64 + n / 128 % 2 * 128
  {
    assert n / 4 == n / 2 / 2 && n / 8 == n / 4 / 2 && n / 16 == n / 8 / 2;
    assert n / 32 == n / 16 / 2 && n / 64 == n / 32 / 2 && n / 128 == n / 64 / 2;
  }

  lemma Powers()
    ensures Power2(0) == 1 && Power2(1) == 2 && Power2(2) == 4 && Power2(3) == 8
    ensures Power2(4) == 16 && Power2(5) == 32 && Power2(6) == 64 && Power2(7) == 128
  {
    assert Power2(4) == 16;
  }

  lemma BitIs(e: Event, bit: nat, value: nat)
    requires SearchFlags in e.attrs && Power2(bit) == value
    ensures BitValue(e, bit, value) == Num(e, SearchFlags) / value % 2 * value
  {
  }

  /** The flags of an event are the bits of its SearchFlags, from the lowest on. */
  lemma FlagsAreBits(e: Event)
    requires SearchFlags in e.attrs
    ensures Num(e, SearchFlags) ==
            BitValue(e, 0, 1) + BitValue(e, 1, 2) + BitValue(e, 2, 4) + BitValue(e, 3, 8)
            + BitValue(e, 4, 16) + BitValue(e, 5, 32) + BitValue(e, 6, 64) + BitValue(e, 7, 128)
  {
    Powers();
    ByteOfBits(Num(e, SearchFlags));
    BitIs(e, 0, 1);
    BitIs(e, 1, 2);
    BitIs(e, 2, 4);
    BitIs(e, 3, 8);
    BitIs(e, 4, 16);
    BitIs(e, 5, 32);
    BitIs(e, 6, 64);
    BitIs(e, 7, 128);
  }

  /** A flag is shown as such, and as nothing where the event has no flags. */
  lemma FlagsAreShown(g: GroupAttribute, c: Context)
    requires g.id.SearchFlag?
    ensures GetValue(g, c) == Some(if SearchFlags !in c.event.attrs then ""
                                   else if HasFlag(c.event, g.id.bit) then "true" else "false")
  {
  }

  /** The kinds of a node; an index payload belongs to a leaf. */
  lemma KindsAreShown(g: GroupAttribute, c: Context)
    requires g.id == Plain(NodeKind)
    ensures NodeKind in c.event.attrs ==>
              GetValue(g, c) == match Num(c.event, NodeKind)
                                case 0 => Some("branch") case 1 => Some("leaf") case 2 => Some("blob") case _ => None
    ensures NodeKind !in c.event.attrs ==> GetValue(g, c) == Some(if c.event.kind.IndexPayload? then "leaf" else "")
  {
  }

  predicate IsSlash(c: char) {
    c == '/' || c == '\\'
  }

  /** The name of an input file is what follows the last separator of its path. */
  lemma {:induction false} BaseNameIsLast(path: string)
    ensures var name := BaseName(path);
            && |name| <= |path| && path[|path| - |name|..] == name
            && (forall i | 0 <= i < |name| :: !IsSlash(name[i]))
            && (|name| < |path| ==> IsSlash(path[|path| - |name| - 1]))
  {
    if path != [] && !IsSlash(path[|path| - 1]) {
      var front := path[..|path| - 1];
      BaseNameIsLast(front);
      var name, k := BaseName(front), |front| - |BaseName(front)|;
      assert path[k..] == front[k..] + [path[|path| - 1]];
      assert BaseName(path) == name + [path[|path| - 1]];
    } else {
      assert BaseName(path) == [];
    }
  }

  /** Files that nothing is known of are told apart by their numbers. */
  lemma UnknownFilesDiffer(m: Meta, i: nat, j: nat)
    requires i !in m.paths && j !in m.paths && FilePath(m, i) == FilePath(m, j)
    ensures i == j
  {
    var head, a, b := "path" + " not available (", Decimal(i), Decimal(j);
    assert FilePath(m, i) == head + a + ")" && FilePath(m, j) == head + b + ")";
    assert (head + a + ")")[|head|..|head + a|] == a && (head + b + ")")[|head|..|head + b|] == b;
    DecimalInjective(i, j);
  }

  // ----- which comes first --------------------------------------------------------------------------

  /** Two texts agree so far, and then one ends or has the smaller character. */
  ghost predicate FirstAt(x: string, y: string, k: nat) {
    k <= |x| && k < |y| && x[..k] == y[..k] && (k == |x| || x[k] < y[k])
  }

  lemma {:induction false} TextLessMeans(x: string, y: string)
    ensures TextLess(x, y) <==> exists k: nat :: FirstAt(x, y, k)
  {
    if x != [] && y != [] {
      TextLessMeans(x[1..], y[1..]);
      if x[0] == y[0] {
        if k: nat :| FirstAt(x[1..], y[1..], k) {
          assert x[..k + 1] == [x[0]] + x[1..][..k] && y[..k + 1] == [y[0]] + y[1..][..k];
          assert FirstAt(x, y, k + 1);
        }
        if k: nat :| FirstAt(x, y, k) {
          assert k > 0;
          assert x[1..][..k - 1] == x[..k][1..] && y[1..][..k - 1] == y[..k][1..];
          assert FirstAt(x[1..], y[1..], k - 1);
        }
      } else {
        if x[0] < y[0] { assert FirstAt(x, y, 0); }
        if k: nat :| FirstAt(x, y, k) { if k > 0 { assert x[..k][0] == y[..k][0]; } }
      }
    } else if y != [] {
      assert FirstAt(x, y, 0);
    }
  }

  /** The values of numeric attributes come in the order of the numbers they spell. */
  lemma NumbersInOrder(g: GroupAttribute, c: Context, d: Context)
    requires g.id.Plain? && g.id.attr != NodeKind && g.id.attr in c.event.attrs && g.id.attr in d.event.attrs
    requires TypeOf(g.id.attr) == U1 || TypeOf(g.id.attr) == U4 || TypeOf(g.id.attr) == U8
    ensures var x, y := GetValue(g, c), GetValue(g, d);
            && x.Some? && y.Some? && IsDigits(x.value) && IsDigits(y.value)
            && (ValueLess(g, x.value, y.value) <==> Spelled(x.value) < Spelled(y.value))
  {
    NumbersAreShown(g, c);
    NumbersAreShown(g, d);
    DigitsParse(GetValue(g, c).value);
    DigitsParse(GetValue(g, d).value);
  }

  /** An event without the attribute comes before all that have it. */
  lemma NothingComesFirst(g: GroupAttribute, c: Context)
    requires GetValue(g, c).Some? && GetValue(g, c).value != ""
    ensures ValueLess(g, "", GetValue(g, c).value) && !ValueLess(g, GetValue(g, c).value, "")
  {
    NamesDoNotParse();
  }

  /** Values that are not numbers come in the order of their texts. */
  lemma TextsInOrder(g: GroupAttribute, x: string, y: string)
    requires !g.id.Plain? || TypeOf(g.id.attr) == Str || TypeOf(g.id.attr) == Bool || TypeOf(g.id.attr) == Timestamp
    ensures ValueLess(g, x, y) <==> exists k: nat :: FirstAt(x, y, k)
  {
    TextLessMeans(x, y);
  }

  // ----- which events belong to a group -------------------------------------------------------------

  lemma {:induction false} GroupedDeep(keys: KeyFn, a: Arrival, bottom: nat, level: nat, n: nat)
    requires level + n <= bottom && level + n <= a.depth
    requires forall i | level <= i < level + n :: keys(i, a.context).Some?
    ensures |GroupsOf(keys, a, bottom, level)| >= n
    decreases n
  {
    if n > 0 { GroupedDeep(keys, a, bottom, level + 1, n - 1); }
  }

  predicate HasValues(keys: KeyFn, c: Context, level: nat, values: seq<string>) {
    keys(level, c).Some? && keys(level, c).value.values == values
  }

  lemma BelongsByKey(keys: KeyFn, a: Arrival, bottom: nat, p: GroupPath)
    ensures ValuesAlong(p) <= ValuesAlong(GroupsOf(keys, a, bottom, 0)) <==>
            && |p| <= bottom && |p| <= a.depth
            && forall level | 0 <= level < |p| :: HasValues(keys, a.context, level, p[level].values)
  {
    var q := GroupsOf(keys, a, bottom, 0);
    forall i | 0 <= i < |q| ensures keys(i, a.context) == Some(q[i]) { GroupsOfAt(keys, a, bottom, 0, i); }
    if ValuesAlong(p) <= ValuesAlong(q) {
      forall level | 0 <= level < |p| ensures HasValues(keys, a.context, level, p[level].values) {
        assert ValuesAlong(p)[level] == ValuesAlong(q)[level];
      }
    }
    if |p| <= bottom && |p| <= a.depth
      && forall level | 0 <= level < |p| :: HasValues(keys, a.context, level, p[level].values) {
      forall i | 0 <= i < |p| ensures keys(i, a.context).Some? {
        assert HasValues(keys, a.context, i, p[i].values);
      }
      GroupedDeep(keys, a, bottom, 0, |p|);
      forall i | 0 <= i < |p| ensures ValuesAlong(p)[i] == ValuesAlong(q)[i] {
        assert HasValues(keys, a.context, i, p[i].values);
      }
    }
  }

  lemma KeysShowValues(h: HashFn, hier: Hierarchy, level: nat, c: Context, values: seq<string>)
    ensures HasValues(Keys(h, hier), c, level, values) <==> level < |hier| && Values(hier[level], c) == Some(values)
  {
  }

  /** An event belongs to groups of such values exactly if it is grouped that deep and has those values at
      every level. */
  lemma BelongsByValue(h: HashFn, hier: Hierarchy, a: Arrival, p: GroupPath)
    ensures ValuesAlong(p) <= ValuesAlong(GroupsOf(Keys(h, hier), a, |hier|, 0)) <==>
            && |p| <= |hier| && |p| <= a.depth
            && forall level | 0 <= level < |p| :: Values(hier[level], a.context) == Some(p[level].values)
  {
    BelongsByKey(Keys(h, hier), a, |hier|, p);
    forall level | 0 <= level < |p|
      ensures HasValues(Keys(h, hier), a.context, level, p[level].values) <==>
              level < |hier| && Values(hier[level], a.context) == Some(p[level].values)
    {
      KeysShowValues(h, hier, level, a.context, p[level].values);
    }
  }

  /** A text shows a number, or the bucket of it. */
  ghost predicate ShowsNumber(g: GroupAttribute, v: string, n: nat) {
    v != "" && IsDigits(v) && if g.isBucket then IsBucketOf(Spelled(v), g.bucketScale, n) else Spelled(v) == n
  }

  lemma ValuesShowNumbers(attrs: seq<GroupAttribute>, c: Context, k: nat)
    requires Values(attrs, c).Some? && k < |attrs|
    requires var id := attrs[k].id; id.Plain? && id.attr in c.event.attrs && IsNumeric(id.attr) && id.attr != NodeKind
    ensures ShowsNumber(attrs[k], Values(attrs, c).value[k], Num(c.event, attrs[k].id.attr))
  {
    NumbersAreShown(attrs[k], c);
  }

  lemma GroupHasValues(h: HashFn, hier: Hierarchy, a: Arrival, p: GroupPath, level: nat)
    requires p <= GroupsOf(Keys(h, hier), a, |hier|, 0) && level < |p|
    ensures level < |hier| && Values(hier[level], a.context) == Some(p[level].values)
  {
    GroupsOfAt(Keys(h, hier), a, |hier|, 0, level);
    KeysShowValues(h, hier, level, a.context, p[level].values);
  }

  /** What a group shows for a numeric attribute is the number, or the bucket, of each of its events. */
  lemma GroupsShowNumbers(h: HashFn, hier: Hierarchy, a: Arrival, p: GroupPath, level: nat, k: nat)
    requires p <= GroupsOf(Keys(h, hier), a, |hier|, 0) && level < |p|
    requires level < |hier| && k < |hier[level]| && k < |p[level].values|
    requires var id := hier[level][k].id;
             id.Plain? && id.attr in a.context.event.attrs && IsNumeric(id.attr) && id.attr != NodeKind
    ensures ShowsNumber(hier[level][k], p[level].values[k], Num(a.context.event, hier[level][k].id.attr))
  {
    GroupHasValues(h, hier, a, p, level);
    ValuesShowNumbers(hier[level], a.context, k);
  }
}
