/** What single conditions of the filter mean, comparison by comparison. */
module FilterMeaning {
  import opened FilterTerms

  predicate IsRangeComparison(c: Comparison) {
    c !in {Wildcard, Except}
  }

  /** The number passes the one condition of comparing it with the range. */
  ghost predicate PassesRange(c: Comparison, first: nat, last: nat, value: nat)
    requires IsRange(Range(first, last, c))
  {
    NumberPasses([Range(first, last, c)], value)
  }

  /** The number passes the one condition of comparing it with `n`. */
  ghost predicate Compares(c: Comparison, n: nat, value: nat)
    requires IsRangeComparison(c)
  {
    PassesRange(c, n, n, value)
  }

  lemma OneRange(r: Range, value: nat)
    requires IsRange(r)
    ensures NumberPasses([r], value) <==> RangeRule(r, value).hit != RangeRule(r, value).deny
  {
    var rs: Ranges := [r];
    assert (set s | s in rs :: RangeRule(s, value)) == {RangeRule(r, value)};
  }

  lemma RangeIs(c: Comparison, first: nat, last: nat, value: nat)
    requires IsRange(Range(first, last, c))
    ensures PassesRange(c, first, last, value) <==>
            RangeRule(Range(first, last, c), value).hit != RangeRule(Range(first, last, c), value).deny
  {
    OneRange(Range(first, last, c), value);
  }

  /** Exactly one of less, equal and greater holds, in the order of the numbers ... */
  lemma NumbersCompare(n: nat, value: nat)
    ensures Compares(LessThan, n, value) <==> value < n
    ensures Compares(Equal, n, value) <==> value == n
    ensures Compares(GreaterThan, n, value) <==> n < value
  {
    RangeIs(LessThan, n, n, value);
    RangeIs(Equal, n, n, value);
    RangeIs(GreaterThan, n, n, value);
  }

  /** ... and the other comparisons are made of these. */
  lemma OtherComparisons(n: nat, value: nat)
    ensures Compares(LessThanOrEqual, n, value) <==> Compares(LessThan, n, value) || Compares(Equal, n, value)
    ensures Compares(GreaterThanOrEqual, n, value) <==> Compares(GreaterThan, n, value) || Compares(Equal, n, value)
    ensures Compares(NotEqual, n, value) <==> !Compares(Equal, n, value)
  {
    NumbersCompare(n, value);
    RangeIs(LessThanOrEqual, n, n, value);
    RangeIs(GreaterThanOrEqual, n, n, value);
    RangeIs(NotEqual, n, n, value);
  }

  /** A range holds what lies between its ends ... */
  lemma InRange(first: nat, last: nat, value: nat)
    requires first <= last
    ensures PassesRange(ElementOf, first, last, value) <==>
            Compares(GreaterThanOrEqual, first, value) && Compares(LessThanOrEqual, last, value)
    ensures PassesRange(Default, first, last, value) <==> PassesRange(ElementOf, first, last, value)
    ensures PassesRange(NotElementOf, first, last, value) <==> !PassesRange(ElementOf, first, last, value)
  {
    RangeIs(GreaterThanOrEqual, first, first, value);
    RangeIs(LessThanOrEqual, last, last, value);
    RangeIs(ElementOf, first, last, value);
    RangeIs(Default, first, last, value);
    RangeIs(NotElementOf, first, last, value);
  }

  /** ... less is less than all of it, greater is greater than all of it, and the or-equal forms take in just
      the end that they start from. */
  lemma BesideRange(first: nat, last: nat, value: nat)
    requires first <= last
    ensures PassesRange(LessThan, first, last, value) <==> Compares(LessThan, first, value)
    ensures PassesRange(GreaterThan, first, last, value) <==> Compares(GreaterThan, last, value)
    ensures PassesRange(LessThanOrEqual, first, last, value) <==> Compares(LessThanOrEqual, first, value)
    ensures PassesRange(GreaterThanOrEqual, first, last, value) <==> Compares(GreaterThanOrEqual, last, value)
  {
    NumbersCompare(first, value);
    NumbersCompare(last, value);
    OtherComparisons(first, value);
    OtherComparisons(last, value);
    RangeIs(LessThan, first, last, value);
    RangeIs(GreaterThan, first, last, value);
    RangeIs(LessThanOrEqual, first, last, value);
    RangeIs(GreaterThanOrEqual, first, last, value);
  }

  ghost predicate ComparesText(ops: TextOps, c: Comparison, text: string, value: string)
    requires IsTextComparison(c)
  {
    TextPasses(ops, [Pattern(text, c)], value)
  }

  lemma OnePattern(ops: TextOps, p: Pattern, value: string)
    requires IsTextComparison(p.comparison)
    ensures TextPasses(ops, [p], value) <==> TextRule(ops, p, value).hit != TextRule(ops, p, value).deny
  {
    var ps: Patterns := [p];
    assert (set q | q in ps :: TextRule(ops, q, value)) == {TextRule(ops, p, value)};
  }

  lemma TextIs(ops: TextOps, c: Comparison, text: string, value: string)
    requires IsTextComparison(c)
    ensures ComparesText(ops, c, text, value) <==>
            TextRule(ops, Pattern(text, c), value).hit != TextRule(ops, Pattern(text, c), value).deny
  {
    OnePattern(ops, Pattern(text, c), value);
  }

  /** The same for texts, in the order that the comparison without regard to case gives them ... */
  lemma TextsCompare(ops: TextOps, text: string, value: string)
    ensures ComparesText(ops, LessThan, text, value) <==> ops.compare(value, text) < 0
    ensures ComparesText(ops, Equal, text, value) <==> ops.compare(value, text) == 0
    ensures ComparesText(ops, GreaterThan, text, value) <==> ops.compare(value, text) > 0
    ensures ComparesText(ops, LessThanOrEqual, text, value) <==> !ComparesText(ops, GreaterThan, text, value)
    ensures ComparesText(ops, GreaterThanOrEqual, text, value) <==> !ComparesText(ops, LessThan, text, value)
    ensures ComparesText(ops, NotEqual, text, value) <==> !ComparesText(ops, Equal, text, value)
  {
    TextIs(ops, LessThan, text, value);
    TextIs(ops, Equal, text, value);
    TextIs(ops, GreaterThan, text, value);
    TextIs(ops, LessThanOrEqual, text, value);
    TextIs(ops, GreaterThanOrEqual, text, value);
    TextIs(ops, NotEqual, text, value);
  }

  /** ... and a pattern without a comparison is a wildcard. */
  lemma WildcardsMatch(ops: TextOps, text: string, value: string)
    ensures ComparesText(ops, Wildcard, text, value) <==> ops.wild(value, text)
    ensures ComparesText(ops, Default, text, value) <==> ComparesText(ops, Wildcard, text, value)
  {
    TextIs(ops, Wildcard, text, value);
    TextIs(ops, Default, text, value);
  }

  /** Whether a condition denies rather than allows. */
  predicate Denies(c: Comparison) {
    c == NotEqual || c == NotElementOf
  }

  /** Several conditions: every denial has to be met, and if there are others, one of those. */
  lemma ConditionsCombine(ranges: Ranges, value: nat)
    ensures NumberPasses(ranges, value) <==>
            && ranges != []
            && (forall r | r in ranges && Denies(r.comparison) :: NumberPasses([r], value))
            && ((exists r | r in ranges :: !Denies(r.comparison)) ==>
                exists r | r in ranges :: !Denies(r.comparison) && NumberPasses([r], value))
  {
    var rules := set r | r in ranges :: RangeRule(r, value);
    forall r | r in ranges
      ensures NumberPasses([r], value) <==> RangeRule(r, value).hit != RangeRule(r, value).deny
      ensures RangeRule(r, value).deny <==> Denies(r.comparison)
      ensures RangeRule(r, value) in rules
    {
      OneRange(r, value);
    }
    if ranges != [] { assert ranges[0] in ranges; }
  }

  lemma PatternsCombine(ops: TextOps, patterns: Patterns, value: string)
    ensures TextPasses(ops, patterns, value) <==>
            && patterns != []
            && (forall p | p in patterns && Denies(p.comparison) :: TextPasses(ops, [p], value))
            && ((exists p | p in patterns :: !Denies(p.comparison)) ==>
                exists p | p in patterns :: !Denies(p.comparison) && TextPasses(ops, [p], value))
  {
    var rules := set p | p in patterns :: TextRule(ops, p, value);
    forall p | p in patterns
      ensures TextPasses(ops, [p], value) <==> TextRule(ops, p, value).hit != TextRule(ops, p, value).deny
      ensures TextRule(ops, p, value).deny <==> Denies(p.comparison)
      ensures TextRule(ops, p, value) in rules
    {
      OnePattern(ops, p, value);
    }
    if patterns != [] { assert patterns[0] in patterns; }
  }
}
