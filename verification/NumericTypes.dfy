/** Numeric types as sets of numbers: promotion, and the tests of what a cast preserves.  Numbers are
    counted in units of 10^-32, the finest that a decimal type can hold. */
module NumericTypes {
  import opened IntegerFolding

  function Pow10(n: nat): (p: nat)
    ensures p > 0
  {
    if n == 0 then 1 else 10 * Pow10(n - 1)
  }

  lemma {:induction false} Pow10Add(m: nat, n: nat)
    ensures Pow10(m + n) == Pow10(m) * Pow10(n)
  {
    if m > 0 {
      Pow10Add(m - 1, n);
      assert 10 * (Pow10(m - 1) * Pow10(n)) == 10 * Pow10(m - 1) * Pow10(n);
    }
  }

  lemma {:induction false} Pow10Grows(m: nat, n: nat)
    requires m <= n
    ensures Pow10(m) <= Pow10(n)
    ensures m < n ==> 10 * Pow10(m) <= Pow10(n)
    decreases n - m
  {
    if m < n { Pow10Grows(m, n - 1); }
  }

  const MAX_DECIMAL_LEADING: nat := 32
  const MAX_DECIMAL_PRECISION: nat := 32

  /** A decimal type of known length, as `makeDecimalType` accepts it. */
  datatype RawNumeric = Boolean | Integer(t: IntType) | DecimalType(digits: nat, precision: nat, decimalSigned: bool)

  type Numeric = n: RawNumeric | n.DecimalType? ==> IsDecimal(n.digits, n.precision)
    witness Boolean

  predicate IsDecimal(digits: nat, precision: nat) {
    precision <= digits && precision <= MAX_DECIMAL_PRECISION && digits - precision <= MAX_DECIMAL_LEADING
  }

  function SignedOf(n: Numeric): bool {
    match n
    case Boolean => false
    case Integer(t) => t.signed
    case DecimalType(_, _, signed) => signed
  }

  /** `CIntTypeInfo::getDigits` */
  function IntDigits(size: nat): (digits: nat)
    requires 1 <= size <= 8
    ensures 3 <= digits <= 20
  {
    [3, 5, 8, 10, 13, 15, 17, 20][size - 1]
  }

  function DigitsOf(n: Numeric): nat {
    match n
    case Boolean => 1
    case Integer(t) => IntDigits(t.size)
    case DecimalType(digits, _, _) => digits
  }

  function PrecisionOf(n: Numeric): nat {
    if n.DecimalType? then n.precision else 0
  }

  // ----- the numbers of a type --------------------------------------------------------------------

  const SCALE: nat := 32

  ghost predicate InDecimal(digits: nat, precision: nat, signed: bool, x: int)
    requires IsDecimal(digits, precision)
  {
    x % Pow10(SCALE - precision) == 0 && 0 - Pow10(digits - precision + SCALE) < x < Pow10(digits - precision + SCALE)
      && (signed || x >= 0)
  }

  ghost predicate Holds(n: Numeric, x: int) {
    match n
    case Boolean => x == 0 || x == Pow10(SCALE)
    case Integer(t) => exists v :: InType(t, v) && x == v * Pow10(SCALE)
    case DecimalType(digits, precision, signed) => InDecimal(digits, precision, signed, x)
  }

  ghost predicate HoldsAll(after: Numeric, before: Numeric) {
    forall x :: Holds(before, x) ==> Holds(after, x)
  }

  // ----- integers ---------------------------------------------------------------------------------

  function PromotedIntSize(size: nat): nat
    requires 1 <= size <= 8
  {
    [1, 2, 4, 4, 8, 8, 8, 8][size - 1]
  }

  /** `getPromotedIntegerSize` for two integers. */
  function PromotedInteger(l: IntType, r: IntType): IntType {
    if l.signed != r.signed then
      if l.signed then
        if l.size <= r.size then
          var size := PromotedIntSize(r.size);
          IntType(if size == r.size && size != 8 then size + size else size, true)
        else l
      else
        IntType(if l.size < r.size then r.size
                else if l.size != PromotedIntSize(l.size) then PromotedIntSize(l.size)
                else if l.size != 8 then l.size + l.size
                else l.size, true)
    else IntType(if l.size < r.size then r.size else l.size, l.signed)
  }

  predicate IntIncludes(after: IntType, before: IntType) {
    if before.signed then after.signed && before.size <= after.size
    else if after.signed then before.size < after.size else before.size <= after.size
  }

  lemma {:induction false} Pow256Strict(m: nat, n: nat)
    requires m < n
    ensures 256 * Pow256(m) <= Pow256(n)
  {
    Pow256Grows(m + 1, n);
  }

  /** Which integer types are part of which. */
  lemma IntInclusion(after: IntType, before: IntType)
    ensures (forall v :: InType(before, v) ==> InType(after, v)) <==> IntIncludes(after, before)
  {
    if before.size <= after.size { Pow256Grows(before.size, after.size); Pow256Grows(before.size - 1, after.size - 1); }
    else { Pow256Strict(after.size, before.size); }
    if before.size < after.size { Pow256Strict(before.size, after.size); }
    var top := if before.signed then Half(before.size) - 1 else Pow256(before.size) - 1;
    assert InType(before, top) && (before.signed ==> InType(before, -1));
  }

  lemma IntegerHolds(t: IntType, v: int)
    ensures Holds(Integer(t), v * Pow10(SCALE)) <==> InType(t, v)
  {
    forall w | w * Pow10(SCALE) == v * Pow10(SCALE) ensures w == v {
      assert (w - v) * Pow10(SCALE) == 0;
      SmallMultiple(w - v, Pow10(SCALE));
    }
  }

  lemma IntegersHoldAll(after: IntType, before: IntType)
    ensures HoldsAll(Integer(after), Integer(before)) <==> IntIncludes(after, before)
  {
    IntInclusion(after, before);
    forall v ensures Holds(Integer(after), v * Pow10(SCALE)) <==> InType(after, v) { IntegerHolds(after, v); }
    forall v ensures Holds(Integer(before), v * Pow10(SCALE)) <==> InType(before, v) { IntegerHolds(before, v); }
    if IntIncludes(after, before) {
      forall x | Holds(Integer(before), x) ensures Holds(Integer(after), x) {
        var v :| InType(before, v) && x == v * Pow10(SCALE);
      }
    } else {
      var v :| InType(before, v) && !InType(after, v);
      assert Holds(Integer(before), v * Pow10(SCALE)) && !Holds(Integer(after), v * Pow10(SCALE));
    }
  }

  /** The promoted type does not depend on the order of the operands, and holds the numbers of both,
      except for an eight-byte unsigned and a signed type. */
  lemma IntegerPromotion(l: IntType, r: IntType)
    ensures PromotedInteger(l, r) == PromotedInteger(r, l) && IsPromoted(PromotedInteger(l, r), l, r)
    ensures HoldsAll(Integer(PromotedInteger(l, r)), Integer(l))
            && HoldsAll(Integer(PromotedInteger(l, r)), Integer(r)) <==>
            !(l.signed && !r.signed && r.size == 8) && !(r.signed && !l.signed && l.size == 8)
  {
    IntegersHoldAll(PromotedInteger(l, r), l);
    IntegersHoldAll(PromotedInteger(l, r), r);
  }

  /** One of two sizes, as large as both. */
  predicate IsLarger(size: nat, a: nat, b: nat) {
    (size == a || size == b) && size >= a && size >= b
  }

  predicate IsPowerSize(size: nat) {
    size == 1 || size == 2 || size == 4 || size == 8
  }

  /** Enough for an unsigned and a smaller or equal signed type: the least of 1, 2, 4 and 8 bytes that is more
      than the unsigned type has, or 8 if that has 8. */
  ghost predicate IsNextSize(size: nat, unsignedSize: nat) {
    && IsPowerSize(size) && (unsignedSize < size || unsignedSize == size == 8)
    && forall z: nat | IsPowerSize(z) :: unsignedSize < z ==> size <= z
  }

  /** The promoted type of two integer types, told without saying how it is computed. */
  ghost predicate IsPromoted(p: IntType, l: IntType, r: IntType) {
    if l.signed == r.signed then (p == l || p == r) && IsLarger(p.size, l.size, r.size)
    else
      var u, s := if l.signed then r else l, if l.signed then l else r;
      if s.size > u.size then p == s else p.signed && IsNextSize(p.size, u.size)
  }

  lemma PromotedIs(l: IntType, r: IntType)
    ensures IsPromoted(PromotedInteger(l, r), l, r)
  {
    if l.signed != r.signed { NextSize(if l.signed then r.size else l.size); }
  }

  lemma NextSize(size: nat)
    requires 1 <= size <= 8
    ensures IsNextSize(if size != PromotedIntSize(size) then PromotedIntSize(size)
                       else if size != 8 then size + size else size, size)
  {
  }

  /** There is only one such type. */
  lemma OnePromoted(p: IntType, q: IntType, l: IntType, r: IntType)
    requires IsPromoted(p, l, r) && IsPromoted(q, l, r)
    ensures p == q
  {
  }

  /** An unsigned type of two, four, five or six bytes and a signed type that does not hold it make a type of
      four or eight bytes, where a smaller one would do. */
  predicate Oversized(l: IntType, r: IntType) {
    l.signed != r.signed
    && var u, s := if l.signed then r else l, if l.signed then l else r; s.size <= u.size && u.size in {2, 4, 5, 6}
  }

  ghost predicate HoldsBoth(t: IntType, l: IntType, r: IntType) {
    HoldsAll(Integer(t), Integer(l)) && HoldsAll(Integer(t), Integer(r))
  }

  lemma LargeEnough(l: IntType, r: IntType, t: IntType)
    requires HoldsBoth(t, l, r) && !Oversized(l, r)
    ensures PromotedInteger(l, r).size <= t.size
  {
    IntegersHoldAll(t, l);
    IntegersHoldAll(t, r);
  }

  /** Otherwise the promoted type is the smallest that holds the numbers of both. */
  lemma PromotedIsLeast(l: IntType, r: IntType)
    ensures (forall t: IntType | HoldsBoth(t, l, r) :: PromotedInteger(l, r).size <= t.size) <==> !Oversized(l, r)
  {
    if Oversized(l, r) {
      var t := IntType(1 + if l.signed then r.size else l.size, true);
      IntegersHoldAll(t, l);
      IntegersHoldAll(t, r);
      assert HoldsBoth(t, l, r) && PromotedInteger(l, r).size > t.size;
    } else {
      forall t: IntType | HoldsBoth(t, l, r) ensures PromotedInteger(l, r).size <= t.size { LargeEnough(l, r, t); }
    }
  }

  // ----- decimals ---------------------------------------------------------------------------------

  function LeadOf(n: Numeric): nat {
    if n.DecimalType? then n.digits - n.precision else DigitsOf(n)
  }

  /** `getPromotedDecimal`, of which one operand is a decimal. */
  function PromotedDecimal(l: Numeric, r: Numeric): Numeric {
    var lead := if LeadOf(l) < LeadOf(r) then LeadOf(r) else LeadOf(l);
    var precision := if PrecisionOf(l) < PrecisionOf(r) then PrecisionOf(r) else PrecisionOf(l);
    DecimalType(lead + precision, precision, SignedOf(l) || SignedOf(r))
  }

  /** The promoted type of two different types.  `getPromotedIntegerSize` leaves a truth value to the
      other type. */
  function Promoted(l: Numeric, r: Numeric): Numeric {
    if l == r then l
    else if l.DecimalType? || r.DecimalType? then PromotedDecimal(l, r)
    else if l.Boolean? then r
    else if r.Boolean? then l
    else Integer(PromotedInteger(l.t, r.t))
  }

  /** `getNumericType` */
  function NumericType(n: Numeric): Numeric {
    if n.Boolean? then Integer(IntType(1, true)) else n
  }

  /** `getPromotedAddSubType`: one more leading digit, if there can be one. */
  function PromotedAddSub(l: Numeric, r: Numeric): Numeric {
    var p := Promoted(NumericType(l), NumericType(r));
    if p.DecimalType? && p.digits - p.precision < MAX_DECIMAL_LEADING then
      DecimalType(p.digits + 1, p.precision, p.decimalSigned) else p
  }

  /** Every number of an integer type has at most as many digits as `getDigits` says. */
  lemma IntFitsDigits(t: IntType, v: int)
    requires InType(t, v)
    ensures 0 - Pow10(IntDigits(t.size)) < v < Pow10(IntDigits(t.size))
  {
    IntLimits(t.size);
  }

  /** The largest numbers of the integer types. */
  lemma IntLimits(size: nat)
    requires 1 <= size <= 8
    ensures Pow256(size) < Pow10(IntDigits(size)) && Pow10(IntDigits(size) - 1) < Pow256(size)
    ensures if size in {3, 5, 8} then Half(size) < Pow10(IntDigits(size) - 1)
            else Half(size) > Pow10(IntDigits(size) - 1)
  {
    UnsignedLimits(size);
    SignedLimits(size);
  }

  lemma UnsignedLimits(size: nat)
    requires 1 <= size <= 8
    ensures Pow256(size) < Pow10(IntDigits(size)) && Pow10(IntDigits(size) - 1) < Pow256(size)
  {
    if size <= 4 { SmallLimits(size); } else if size <= 6 { MiddleLimits(size); } else { LargeLimits(size); }
  }

  lemma SmallLimits(size: nat)
    requires 1 <= size <= 4
    ensures Pow256(size) < Pow10(IntDigits(size)) && Pow10(IntDigits(size) - 1) < Pow256(size)
  {
    assert Pow10(2) < Pow256(1) < Pow10(3) && Pow10(4) < Pow256(2) < Pow10(5);
    assert Pow10(7) < Pow256(3) < Pow10(8) && Pow10(9) < Pow256(4) < Pow10(10);
  }

  lemma MiddleLimits(size: nat)
    requires 5 <= size <= 6
    ensures Pow256(size) < Pow10(IntDigits(size)) && Pow10(IntDigits(size) - 1) < Pow256(size)
  {
    assert Pow10(12) < Pow256(5) < Pow10(13) && Pow10(14) < Pow256(6) < Pow10(15);
  }

  lemma LargeLimits(size: nat)
    requires 7 <= size <= 8
    ensures Pow256(size) < Pow10(IntDigits(size)) && Pow10(IntDigits(size) - 1) < Pow256(size)
  {
    assert Pow10(5) == 100_000 && Pow10(10) == 10_000_000_000 && Pow10(15) == 1_000_000_000_000_000;
    assert Pow256(3) == 0x100_0000 && Pow256(6) == 0x1_0000_0000_0000;
    assert Pow10(16) < Pow256(7) < Pow10(17) && Pow10(19) < Pow256(8) < Pow10(20);
  }

  lemma SignedLimits(size: nat)
    requires 1 <= size <= 8
    ensures if size in {3, 5, 8} then Half(size) < Pow10(IntDigits(size) - 1)
            else Half(size) > Pow10(IntDigits(size) - 1)
  {
    assert Half(1) > Pow10(2) && Half(2) > Pow10(4) && Half(3) < Pow10(7) && Half(4) > Pow10(9);
    assert Half(5) < Pow10(12) && Half(6) > Pow10(14) && Half(7) > Pow10(16) && Half(8) < Pow10(19);
  }

  lemma MultipleOf(x: int, m: int) returns (k: int)
    requires m > 0 && x % m == 0
    ensures x == k * m
  {
    k := x / m;
  }

  lemma IsMultiple(k: int, m: int)
    requires m > 0
    ensures (k * m) % m == 0
  {
    DivModUnique(k * m, m, k, 0);
  }

  lemma CoarserIsFiner(x: int, p: nat, q: nat)
    requires p <= q <= SCALE && x % Pow10(SCALE - p) == 0
    ensures x % Pow10(SCALE - q) == 0
  {
    Pow10Add(q - p, SCALE - q);
    MultipleOfFactor(x, Pow10(q - p), Pow10(SCALE - q), Pow10(SCALE - p));
  }

  lemma MultipleOfFactor(x: int, a: int, b: int, m: int)
    requires a > 0 && b > 0 && m == a * b && x % m == 0
    ensures x % b == 0
  {
    assert m > 0;
    var k := MultipleOf(x, m);
    assert k * (a * b) == (k * a) * b;
    IsMultiple(k * a, b);
  }

  lemma MultiplesAdd(x: int, y: int, m: int)
    requires m > 0 && x % m == 0 && y % m == 0
    ensures (x + y) % m == 0
  {
    var j := MultipleOf(x, m);
    var k := MultipleOf(y, m);
    assert (j + k) * m == j * m + k * m;
    IsMultiple(j + k, m);
  }

  lemma SumInDecimal(d: nat, p: nat, s: bool, x: int, y: int)
    requires IsDecimal(d, p) && d - p < MAX_DECIMAL_LEADING && InDecimal(d, p, s, x) && InDecimal(d, p, s, y)
    ensures InDecimal(d + 1, p, s, x + y)
  {
    MultiplesAdd(x, y, Pow10(SCALE - p));
    Pow10Grows(d - p + SCALE, d + 1 - p + SCALE);
  }

  /** A type's numbers are those of a decimal type with its leading digits, precision and sign, or fewer. */
  lemma HoldsLikeDecimal(n: Numeric, x: int)
    requires Holds(n, x)
    ensures InDecimal(LeadOf(n) + PrecisionOf(n), PrecisionOf(n), SignedOf(n), x)
  {
    match n
    case DecimalType(_, _, _) =>
    case Boolean => BooleanScaled(x);
    case Integer(t) => IntegerScaled(t, x);
  }

  lemma IntegerScaled(t: IntType, x: int)
    requires Holds(Integer(t), x)
    ensures InDecimal(IntDigits(t.size), 0, t.signed, x)
  {
    var v :| InType(t, v) && x == v * Pow10(SCALE);
    IntFitsDigits(t, v);
    ScaledInteger(v, IntDigits(t.size), t.signed, x);
  }

  lemma BooleanScaled(x: int)
    requires x == 0 || x == Pow10(SCALE)
    ensures InDecimal(1, 0, false, x)
  {
    ScaledInteger(if x == 0 then 0 else 1, 1, false, x);
  }

  lemma ScaledInteger(v: int, digits: nat, signed: bool, x: int)
    requires digits <= MAX_DECIMAL_LEADING && 0 - Pow10(digits) < v < Pow10(digits) && (signed || v >= 0)
             && x == v * Pow10(SCALE)
    ensures InDecimal(digits, 0, signed, x)
  {
    Pow10Add(digits, SCALE);
    IsMultiple(v, Pow10(SCALE));
    ScaledBounds(v, Pow10(digits), Pow10(SCALE));
  }

  lemma ScaledBounds(v: int, d: int, m: int)
    requires m > 0 && 0 - d < v < d
    ensures 0 - d * m < v * m < d * m && (v >= 0 ==> v * m >= 0)
  {
    MulMonotone(v + 1, d, m);
    MulMonotone(1 - d, v, m);
    assert (v + 1) * m == v * m + m && (1 - d) * m == m - d * m;
  }

  lemma DecimalWidens(x: int, d: nat, p: nat, s: bool, e: nat, q: nat, t: bool)
    requires IsDecimal(d, p) && IsDecimal(e, q) && InDecimal(d, p, s, x)
    requires p <= q && d - p <= e - q && (s ==> t)
    ensures InDecimal(e, q, t, x)
  {
    CoarserIsFiner(x, p, q);
    Pow10Grows(d - p + SCALE, e - q + SCALE);
  }

  /** The promoted decimal holds the numbers of both types, and does not depend on their order. */
  lemma DecimalPromotion(l: Numeric, r: Numeric)
    requires l.DecimalType? || r.DecimalType?
    ensures PromotedDecimal(l, r) == PromotedDecimal(r, l)
    ensures HoldsAll(PromotedDecimal(l, r), l) && HoldsAll(PromotedDecimal(l, r), r)
  {
    WiderHoldsAll(PromotedDecimal(l, r), l);
    WiderHoldsAll(PromotedDecimal(l, r), r);
  }

  /** As many leading digits as the operand with more, as many decimal places, and a sign if one has it. */
  predicate IsPromotedDecimal(p: Numeric, l: Numeric, r: Numeric) {
    && p.DecimalType? && IsLarger(LeadOf(p), LeadOf(l), LeadOf(r))
    && IsLarger(PrecisionOf(p), PrecisionOf(l), PrecisionOf(r)) && SignedOf(p) == (SignedOf(l) || SignedOf(r))
  }

  lemma PromotedDecimalIs(l: Numeric, r: Numeric)
    requires l.DecimalType? || r.DecimalType?
    ensures IsPromotedDecimal(PromotedDecimal(l, r), l, r)
  {
  }

  /** The promoted type of any two types: a type and itself make itself, and a truth value makes the other. */
  lemma PromotedTypeIs(l: Numeric, r: Numeric)
    ensures var p := Promoted(l, r);
            if l == r || (l.Boolean? && r.Integer?) then p == r
            else if r.Boolean? && l.Integer? then p == l
            else if l.Integer? && r.Integer? then p.Integer? && IsPromoted(p.t, l.t, r.t)
            else IsPromotedDecimal(p, l, r)
  {
    if l.Integer? && r.Integer? { PromotedIs(l.t, r.t); }
  }

  /** Of two decimal types, no decimal type that holds both lacks a number of the promoted one. */
  lemma PromotedDecimalIsLeast(l: Numeric, r: Numeric, t: Numeric)
    requires l.DecimalType? && r.DecimalType? && t.DecimalType? && l.digits > 0 && r.digits > 0
    requires HoldsAll(t, l) && HoldsAll(t, r)
    ensures HoldsAll(t, PromotedDecimal(l, r))
  {
    DecimalToDecimalIsExact(t, l);
    DecimalToDecimalIsExact(t, r);
    DecimalToDecimalIsExact(t, PromotedDecimal(l, r));
  }

  /** The type of a sum has the operands' promoted type with a leading digit more, up to 32. */
  lemma SumTypeIs(l: Numeric, r: Numeric)
    ensures var p, sum := Promoted(NumericType(l), NumericType(r)), PromotedAddSub(l, r);
            if p.DecimalType? then
              sum.DecimalType? && PrecisionOf(sum) == PrecisionOf(p) && SignedOf(sum) == SignedOf(p)
              && (LeadOf(sum) == LeadOf(p) + 1 <= 32 || LeadOf(sum) == LeadOf(p) == 32)
            else sum == p
    ensures NumericType(l) == if l.Boolean? then Integer(IntType(1, true)) else l
  {
  }

  lemma WiderHoldsAll(p: Numeric, n: Numeric)
    requires p.DecimalType? && LeadOf(n) <= LeadOf(p) && PrecisionOf(n) <= PrecisionOf(p)
             && (SignedOf(n) ==> SignedOf(p))
    ensures HoldsAll(p, n)
  {
    forall x | Holds(n, x) ensures Holds(p, x) {
      HoldsLikeDecimal(n, x);
      DecimalWidens(x, LeadOf(n) + PrecisionOf(n), PrecisionOf(n), SignedOf(n), p.digits, p.precision, p.decimalSigned);
    }
  }

  /** Promotion is an upper bound, whatever the order: the promoted type of two numeric types holds the
      numbers of both exactly if they are not an eight-byte unsigned and a signed integer. */
  lemma PromotionHoldsBoth(l: Numeric, r: Numeric)
    ensures Promoted(l, r) == Promoted(r, l)
    ensures HoldsAll(Promoted(l, r), l) && HoldsAll(Promoted(l, r), r) <==> !MixedEight(l, r) && !MixedEight(r, l)
  {
    if l == r {
    } else if l.DecimalType? || r.DecimalType? {
      DecimalPromotion(l, r);
    } else if l.Boolean? {
      BooleanInInteger(r.t);
    } else if r.Boolean? {
      BooleanInInteger(l.t);
    } else {
      IntegerPromotion(l.t, r.t);
    }
  }

  predicate MixedEight(u: Numeric, s: Numeric) {
    u == Integer(IntType(8, false)) && s.Integer? && s.t.signed
  }

  lemma BooleanInInteger(t: IntType)
    ensures HoldsAll(Integer(t), Boolean)
  {
    forall x | Holds(Boolean, x) ensures Holds(Integer(t), x) {
      IntegerHolds(t, 0);
      IntegerHolds(t, 1);
    }
  }

  lemma PromotedHoldsOperands(l: Numeric, r: Numeric, x: int, y: int)
    requires Holds(l, x) && Holds(r, y) && Promoted(NumericType(l), NumericType(r)).DecimalType?
    ensures var p := Promoted(NumericType(l), NumericType(r)); Holds(p, x) && Holds(p, y)
  {
    NumericTypeHolds(l, x);
    NumericTypeHolds(r, y);
    if NumericType(l) != NumericType(r) { DecimalPromotion(NumericType(l), NumericType(r)); }
  }

  lemma RoomForSum(p: Numeric, sum: Numeric, x: int, y: int)
    requires p.DecimalType? && LeadOf(p) < MAX_DECIMAL_LEADING && Holds(p, x) && Holds(p, y)
    requires sum.DecimalType? && sum.digits == p.digits + 1 && sum.precision == p.precision
             && sum.decimalSigned == p.decimalSigned
    ensures Holds(sum, x + y)
  {
    SumInDecimal(p.digits, p.precision, p.decimalSigned, x, y);
  }

  /** With a leading digit to spare, the type of a decimal sum holds every exact sum. */
  lemma SumHasRoom(l: Numeric, r: Numeric, x: int, y: int)
    requires Holds(l, x) && Holds(r, y) && Promoted(NumericType(l), NumericType(r)).DecimalType?
    requires LeadOf(Promoted(NumericType(l), NumericType(r))) < MAX_DECIMAL_LEADING
    ensures Holds(PromotedAddSub(l, r), x + y)
  {
    PromotedHoldsOperands(l, r, x, y);
    RoomForSum(Promoted(NumericType(l), NumericType(r)), PromotedAddSub(l, r), x, y);
  }

  lemma NumericTypeHolds(n: Numeric, x: int)
    requires Holds(n, x)
    ensures Holds(NumericType(n), x)
  {
    if n.Boolean? { BooleanInInteger(IntType(1, true)); }
  }

  // ----- folding ----------------------------------------------------------------------------------

  /** An integer constant: a word and its type. */
  datatype Constant = Constant(word: nat, t: IntType)

  function NumberOf(c: Constant): int {
    ValueOf(c.word, c.t.signed)
  }

  /** What `createIntValue` checks in a debug build. */
  predicate Proper(c: Constant) {
    c.word < Pow256(8) && IsInRange(c.word, c.t)
  }

  /** `createTruncIntValue` */
  function TruncatedConstant(word: nat, t: IntType): Constant {
    Constant(TruncateInt(word, t), t)
  }

  function AddValues(l: Constant, r: Constant): Constant {
    TruncatedConstant(WordOf(l.word + r.word), PromotedInteger(l.t, r.t))
  }

  function SubtractValues(l: Constant, r: Constant): Constant {
    TruncatedConstant(WordOf(l.word - r.word), PromotedInteger(l.t, r.t))
  }

  function NegateValue(c: Constant): Constant {
    TruncatedConstant(WordOf(0 - c.word), c.t)
  }

  /** What folding an exact result `exact` to a type should give: the number of the type that differs from it by a
      multiple of 2^(8 size), which is the exact result itself whenever that is one of the type's. */
  ghost predicate Folds(c: Constant, t: IntType, exact: int) {
    && c.t == t && Proper(c) && NumberOf(c) == Wrap(t, exact)
    && (NumberOf(c) == exact <==> InType(t, exact))
  }

  lemma TruncationFolds(v: int, t: IntType, e: int)
    ensures Folds(TruncatedConstant(WordOf(v), t), t, v + e * Pow256(8))
  {
    var exact := v + e * Pow256(8);
    var c := TruncatedConstant(WordOf(v), t);
    var q := v / Pow256(8);
    assert v == q * Pow256(8) + WordOf(v);
    assert exact == WordOf(v) + (q + e) * Pow256(8);
    WrapWord(t, WordOf(v), q + e);
    TruncationWraps(WordOf(v), t);
    WrapIsIdentity(t, exact);
    WrapInType(t, exact);
    TruncatedWord(WordOf(v), t);
    RangeIsFixedPoint(c.word, t);
  }

  lemma TruncatedWord(w: nat, t: IntType)
    requires w < Pow256(8)
    ensures TruncateInt(w, t) < Pow256(8)
  {
    if !t.signed { Pow256Grows(t.size, 8); }
  }

  lemma SumFolds(l: Constant, r: Constant, t: IntType)
    ensures Folds(TruncatedConstant(WordOf(l.word + r.word), t), t, NumberOf(l) + NumberOf(r))
  {
    var d := ValueOfShift(l.word, l.t.signed);
    var e := ValueOfShift(r.word, r.t.signed);
    Distribute(d, e, Pow256(8));
    TruncationFolds(l.word + r.word, t, d + e);
  }

  lemma DifferenceFolds(l: Constant, r: Constant, t: IntType)
    ensures Folds(TruncatedConstant(WordOf(l.word - r.word), t), t, NumberOf(l) - NumberOf(r))
  {
    var d := ValueOfShift(l.word, l.t.signed);
    var e := ValueOfShift(r.word, r.t.signed);
    Distribute(d, -e, Pow256(8));
    assert -e * Pow256(8) == -(e * Pow256(8));
    TruncationFolds(l.word - r.word, t, d - e);
  }

  /** Folding is exact modulo 2^(8 size) of the promoted type: the sum ... */
  lemma AddFolds(l: Constant, r: Constant)
    ensures IsPromoted(AddValues(l, r).t, l.t, r.t)
    ensures Folds(AddValues(l, r), AddValues(l, r).t, NumberOf(l) + NumberOf(r))
  {
    PromotedIs(l.t, r.t);
    SumFolds(l, r, PromotedInteger(l.t, r.t));
  }

  /** ... the difference ... */
  lemma SubtractFolds(l: Constant, r: Constant)
    ensures IsPromoted(SubtractValues(l, r).t, l.t, r.t)
    ensures Folds(SubtractValues(l, r), SubtractValues(l, r).t, NumberOf(l) - NumberOf(r))
  {
    PromotedIs(l.t, r.t);
    DifferenceFolds(l, r, PromotedInteger(l.t, r.t));
  }

  /** ... and the opposite. */
  lemma NegateFolds(c: Constant)
    ensures Folds(NegateValue(c), c.t, 0 - NumberOf(c))
  {
    var e := ValueOfShift(c.word, c.t.signed);
    assert -e * Pow256(8) == -(e * Pow256(8));
    TruncationFolds(0 - c.word, c.t, -e);
  }

  lemma Distribute(d: int, e: int, m: int)
    ensures (d + e) * m == d * m + e * m
  {
  }

  // ----- what casts preserve ----------------------------------------------------------------------

  /** `preservesValue` between integer and decimal types. */
  predicate PreservesValue(after: Numeric, before: Numeric, preserveInformation: bool) {
    match before
    case Boolean => true
    case Integer(b) =>
      (match after
       case Integer(a) =>
         if preserveInformation && b.size <= a.size then true
         else !((b.signed && !a.signed) || b.size > a.size || (!b.signed && a.signed && b.size == a.size))
       case DecimalType(digits, precision, signed) => (!b.signed || signed) && IntDigits(b.size) <= digits - precision
       case Boolean => false)
    case DecimalType(digits, precision, signed) =>
      match after
      case DecimalType(afterDigits, afterPrecision, afterSigned) =>
        (!signed || afterSigned) && precision <= afterPrecision && digits - precision <= afterDigits - afterPrecision
      case Integer(a) => precision == 0 && IntDigits(a.size) > digits && (!signed || a.signed)
      case Boolean => false
  }

  /** Between integer types the test is exact. */
  lemma IntToIntIsExact(after: IntType, before: IntType)
    ensures PreservesValue(Integer(after), Integer(before), false) <==> HoldsAll(Integer(after), Integer(before))
  {
    IntegersHoldAll(after, before);
  }

  /** A whole number fits in so many leading digits. */
  predicate FitsLead(lead: nat, signed: bool, v: int) {
    0 - Pow10(lead) < v < Pow10(lead) && (signed || v >= 0)
  }

  lemma WholeIsMultiple(v: int, p: nat)
    requires p <= SCALE
    ensures (v * Pow10(SCALE)) % Pow10(SCALE - p) == 0
  {
    Pow10Add(p, SCALE - p);
    WholeFactor(v, Pow10(p), Pow10(SCALE - p), Pow10(SCALE));
  }

  lemma WholeFactor(v: int, a: int, b: int, m: int)
    requires b > 0 && m == a * b
    ensures (v * m) % b == 0
  {
    assert v * (a * b) == (v * a) * b;
    IsMultiple(v * a, b);
  }

  lemma DecimalHoldsWhole(d: nat, p: nat, s: bool, v: int)
    requires IsDecimal(d, p)
    ensures InDecimal(d, p, s, v * Pow10(SCALE)) <==> FitsLead(d - p, s, v)
  {
    WholeIsMultiple(v, p);
    Pow10Add(d - p, SCALE);
    ScaledOrder(v, Pow10(d - p), Pow10(SCALE));
  }

  lemma ScaledOrder(v: int, d: int, m: int)
    requires m > 0
    ensures 0 - d * m < v * m < d * m <==> 0 - d < v < d
    ensures v * m >= 0 <==> v >= 0
  {
    OrderScales(v, d, m);
    OrderScales(0 - d, v, m);
    OrderScales(v, 0, m);
    assert (0 - d) * m == 0 - d * m;
  }

  lemma OrderScales(a: int, b: int, m: int)
    requires m > 0
    ensures a * m < b * m <==> a < b
  {
    if a < b {
      MulMonotone(a + 1, b, m);
      assert (a + 1) * m == a * m + m;
    } else {
      MulMonotone(b, a, m);
    }
  }

  /** The sizes for which `getDigits` of a signed type allows for one digit more than it needs. */
  predicate RoundsUp(t: IntType) {
    t.signed && t.size in {3, 5, 8}
  }

  /** From an integer to a decimal type the test never says yes wrongly.  It says no wrongly exactly for
      signed types of 3, 5 and 8 bytes and one leading digit less than `getDigits` counts. */
  lemma IntToDecimal(after: Numeric, before: IntType)
    requires after.DecimalType?
    ensures HoldsAll(after, Integer(before)) <==>
            PreservesValue(after, Integer(before), false)
            || (RoundsUp(before) && after.decimalSigned && after.digits - after.precision == IntDigits(before.size) - 1)
  {
    var lead := after.digits - after.precision;
    IntInDecimal(before, lead, after.decimalSigned);
    WholesDecide(after, before);
  }

  lemma WholesDecide(after: Numeric, before: IntType)
    requires after.DecimalType?
    ensures HoldsAll(after, Integer(before)) <==>
            forall v | InType(before, v) :: FitsLead(after.digits - after.precision, after.decimalSigned, v)
  {
    var lead := after.digits - after.precision;
    if forall v | InType(before, v) :: FitsLead(lead, after.decimalSigned, v) {
      forall x | Holds(Integer(before), x) ensures Holds(after, x) {
        var v :| InType(before, v) && x == v * Pow10(SCALE);
        DecimalHoldsWhole(after.digits, after.precision, after.decimalSigned, v);
      }
    } else {
      var v :| InType(before, v) && !FitsLead(lead, after.decimalSigned, v);
      IntegerHolds(before, v);
      DecimalHoldsWhole(after.digits, after.precision, after.decimalSigned, v);
    }
  }

  lemma IntInDecimal(t: IntType, lead: nat, signed: bool)
    ensures (forall v | InType(t, v) :: FitsLead(lead, signed, v)) <==>
            (!t.signed || signed) && (IntDigits(t.size) <= lead || (RoundsUp(t) && lead == IntDigits(t.size) - 1))
  {
    var need := IntDigits(t.size);
    IntLimits(t.size);
    var low, high := if t.signed then 0 - Half(t.size)
      else 0, if t.signed then Half(t.size) - 1 else Pow256(t.size) - 1;
    assert InType(t, low) && InType(t, high);
    assert FitsLead(lead, signed, low) && FitsLead(lead, signed, high) ==>
           forall v | InType(t, v) :: FitsLead(lead, signed, v);
    if lead >= need { Pow10Grows(need, lead); } else { Pow10Grows(lead, need - 1); }
    if lead + 1 < need { Pow10Grows(lead, need - 2); HalfExceeds(t.size); }
  }

  /** Two digits less are never enough. */
  lemma HalfExceeds(size: nat)
    requires 1 <= size <= 8
    ensures Half(size) > Pow10(IntDigits(size) - 2)
  {
    assert Half(1) > Pow10(1) && Half(2) > Pow10(3) && Half(3) > Pow10(6) && Half(4) > Pow10(8);
    assert Half(5) > Pow10(11) && Half(6) > Pow10(13) && Half(7) > Pow10(15) && Half(8) > Pow10(18);
  }

  /** The smallest positive number of a decimal type, and the largest power of ten. */
  lemma DecimalUnits(d: nat, p: nat, s: bool)
    requires IsDecimal(d, p) && d > 0
    ensures InDecimal(d, p, s, Pow10(SCALE - p)) && InDecimal(d, p, s, Pow10(d - p + SCALE - 1))
    ensures s ==> InDecimal(d, p, s, 0 - Pow10(SCALE - p))
  {
    Pow10Grows(SCALE - p, d - p + SCALE);
    Pow10Grows(d - p + SCALE - 1, d - p + SCALE);
    IsMultiple(1, Pow10(SCALE - p));
    IsMultiple(-1, Pow10(SCALE - p));
    Pow10Add(d - 1, SCALE - p);
    IsMultiple(Pow10(d - 1), Pow10(SCALE - p));
  }

  lemma FinerIsMissed(p: nat, q: nat)
    requires q < p <= SCALE
    ensures Pow10(SCALE - p) % Pow10(SCALE - q) != 0
  {
    Pow10Grows(SCALE - p, SCALE - q);
    DivModUnique(Pow10(SCALE - p), Pow10(SCALE - q), 0, Pow10(SCALE - p));
  }

  /** A decimal type without digits has no number but 0, which every type has. */
  lemma NoDigits(before: Numeric, after: Numeric)
    requires before.DecimalType? && before.digits == 0
    ensures HoldsAll(after, before)
  {
    var m := Pow10(SCALE);
    forall x | Holds(before, x) ensures Holds(after, x) {
      var k := MultipleOf(x, m);
      SmallMultiple(k, m);
      assert Pow10(SCALE - PrecisionOf(after)) > 0;
      if after.Integer? { IntegerHolds(after.t, 0); }
    }
  }

  /** Between decimal types the test is exact, except that it may refuse the type without digits. */
  lemma DecimalToDecimalIsExact(after: Numeric, before: Numeric)
    requires after.DecimalType? && before.DecimalType?
    ensures HoldsAll(after, before) <==> before.digits == 0 || PreservesValue(after, before, false)
  {
    if before.digits == 0 { NoDigits(before, after); } else { DecimalsWithDigits(after, before); }
  }

  lemma DecimalsWithDigits(after: Numeric, before: Numeric)
    requires after.DecimalType? && before.DecimalType? && before.digits > 0
    ensures PreservesValue(after, before, false) <==> HoldsAll(after, before)
  {
    var d, p, s := before.digits, before.precision, before.decimalSigned;
    var e, q, t := after.digits, after.precision, after.decimalSigned;
    if PreservesValue(after, before, false) {
      forall x | Holds(before, x) ensures Holds(after, x) { DecimalWidens(x, d, p, s, e, q, t); }
    } else {
      DecimalUnits(d, p, s);
      if s && !t {
        assert Holds(before, 0 - Pow10(SCALE - p)) && !Holds(after, 0 - Pow10(SCALE - p));
      } else if q < p {
        FinerIsMissed(p, q);
        assert Holds(before, Pow10(SCALE - p)) && !Holds(after, Pow10(SCALE - p));
      } else {
        Pow10Grows(e - q + SCALE, d - p + SCALE - 1);
        assert Holds(before, Pow10(d - p + SCALE - 1)) && !Holds(after, Pow10(d - p + SCALE - 1));
      }
    }
  }

  lemma WholeDecimal(d: nat, s: bool, x: int) returns (v: int)
    requires IsDecimal(d, 0) && InDecimal(d, 0, s, x)
    ensures x == v * Pow10(SCALE) && FitsLead(d, s, v)
  {
    v := MultipleOf(x, Pow10(SCALE));
    DecimalHoldsWhole(d, 0, s, v);
  }

  lemma LeadInInt(t: IntType, d: nat, s: bool)
    requires d > 0
    ensures (forall v | FitsLead(d, s, v) :: InType(t, v)) <==>
            d < IntDigits(t.size) && (!s || t.signed) && !(RoundsUp(t) && d == IntDigits(t.size) - 1)
  {
    var need := IntDigits(t.size);
    IntLimits(t.size);
    HalfExceeds(t.size);
    Pow10Grows(1, d);
    assert FitsLead(d, s, Pow10(d) - 1) && (s ==> FitsLead(d, s, 0 - (Pow10(d) - 1)));
    if d >= need { Pow10Grows(need, d); }
    else { Pow10Grows(d, need - 1); if d < need - 1 { Pow10Grows(d, need - 2); } }
  }

  /** From a decimal to an integer type the test says no wrongly only for the type without digits.  It says
      yes wrongly exactly for signed types of 3, 5 and 8 bytes and one digit less than `getDigits` counts. */
  lemma DecimalToInt(after: IntType, before: Numeric)
    requires before.DecimalType?
    ensures HoldsAll(Integer(after), before) <==>
            || before.digits == 0
            || (PreservesValue(Integer(after), before, false)
                && !(RoundsUp(after) && before.digits == IntDigits(after.size) - 1))
  {
    if before.digits == 0 { NoDigits(before, Integer(after)); } else { DigitsToInt(after, before); }
  }

  lemma DigitsToInt(after: IntType, before: Numeric)
    requires before.DecimalType? && before.digits > 0
    ensures HoldsAll(Integer(after), before) <==>
            PreservesValue(Integer(after), before, false)
              && !(RoundsUp(after) && before.digits == IntDigits(after.size) - 1)
  {
    var d, p, s := before.digits, before.precision, before.decimalSigned;
    if p > 0 {
      DecimalUnits(d, p, s);
      FinerIsMissed(p, 0);
      NotWhole(after, Pow10(SCALE - p));
      assert Holds(before, Pow10(SCALE - p));
    } else {
      LeadInInt(after, d, s);
      WholeDecimalsDecide(after, d, s);
    }
  }

  lemma WholeDecimalsDecide(after: IntType, d: nat, s: bool)
    requires IsDecimal(d, 0)
    ensures HoldsAll(Integer(after), DecimalType(d, 0, s)) <==> forall v | FitsLead(d, s, v) :: InType(after, v)
  {
    var before: Numeric := DecimalType(d, 0, s);
    if forall v | FitsLead(d, s, v) :: InType(after, v) {
      forall x | Holds(before, x) ensures Holds(Integer(after), x) { var v := WholeDecimal(d, s, x); }
    } else {
      var v :| FitsLead(d, s, v) && !InType(after, v);
      DecimalHoldsWhole(d, 0, s, v);
      IntegerHolds(after, v);
      assert Holds(before, v * Pow10(SCALE)) && !Holds(Integer(after), v * Pow10(SCALE));
    }
  }

  lemma NotWhole(t: IntType, x: int)
    requires x % Pow10(SCALE) != 0
    ensures !Holds(Integer(t), x)
  {
    forall v | x == v * Pow10(SCALE) ensures false { IsMultiple(v, Pow10(SCALE)); }
  }

  /** `castLosesInformation` */
  predicate CastLosesInformation(after: Numeric, before: Numeric) {
    !PreservesValue(after, before, true)
  }

  /** A truncating cast between integer types loses information exactly when the test says so: when it
      takes two numbers to one. */
  lemma CastLosesIsNotInjective(after: IntType, before: IntType)
    ensures CastLosesInformation(Integer(after), Integer(before)) <==>
            exists u, v :: InType(before, u) && InType(before, v) && u != v && Wrap(after, u) == Wrap(after, v)
  {
    if before.size <= after.size {
      Pow256Grows(before.size, after.size);
      forall u, v | InType(before, u) && InType(before, v) && Wrap(after, u) == Wrap(after, v) ensures u == v {
        var j := WrapDifference(after, u);
        var k := WrapDifference(after, v);
        Distribute(j, -k, Pow256(after.size));
        assert -k * Pow256(after.size) == -(k * Pow256(after.size));
        SmallMultiple(j - k, Pow256(after.size));
      }
    } else {
      var m := Pow256(after.size);
      Pow256Strict(after.size, before.size);
      WrapShift(after, 0, 1);
      assert InType(before, 0) && InType(before, m) && 1 * m == m;
    }
  }

  /** A truth value needs one leading digit and no sign, and is taken to have just that. */
  lemma BooleanNeedsOneDigit(t: Numeric)
    requires t.DecimalType?
    ensures HoldsAll(t, Boolean) <==> LeadOf(Boolean) <= LeadOf(t) && (SignedOf(Boolean) ==> SignedOf(t))
    ensures PrecisionOf(Boolean) == 0
  {
    var lead := t.digits - t.precision;
    DecimalHoldsWhole(t.digits, t.precision, t.decimalSigned, 0);
    DecimalHoldsWhole(t.digits, t.precision, t.decimalSigned, 1);
    assert Holds(Boolean, 0 * Pow10(SCALE)) && Holds(Boolean, 1 * Pow10(SCALE));
    if lead > 0 { Pow10Grows(0, lead); }
    assert FitsLead(lead, t.decimalSigned, 0) && (FitsLead(lead, t.decimalSigned, 1) <==> lead > 0);
  }
}
