/** Folding integer constants: values are kept in 64-bit words and truncated to the size of their type. */
module IntegerFolding {
  // ----- division with remainder ------------------------------------------------------------------

  lemma SmallMultiple(d: int, m: int)
    requires m > 0 && -m < d * m < m
    ensures d == 0
  {
    assert d >= 1 ==> d * m >= m;
    assert d <= -1 ==> d * m <= -m;
  }

  lemma DivModUnique(v: int, m: int, q: int, r: int)
    requires m > 0 && v == q * m + r && 0 <= r < m
    ensures v / m == q && v % m == r
  {
    assert v == (v / m) * m + v % m;
    assert (q - v / m) * m == v % m - r;
    SmallMultiple(q - v / m, m);
  }

  lemma ModShift(v: int, k: int, m: int)
    requires m > 0
    ensures (v + k * m) % m == v % m
  {
    assert v == (v / m) * m + v % m;
    assert (v / m + k) * m == (v / m) * m + k * m;
    DivModUnique(v + k * m, m, v / m + k, v % m);
  }

  // ----- types and words --------------------------------------------------------------------------

  function Pow256(n: nat): (p: nat)
    ensures p > 0
  {
    if n == 0 then 1 else 256 * Pow256(n - 1)
  }

  lemma {:induction false} Pow256Add(m: nat, n: nat)
    ensures Pow256(m + n) == Pow256(m) * Pow256(n)
  {
    if m > 0 {
      Pow256Add(m - 1, n);
      assert 256 * (Pow256(m - 1) * Pow256(n)) == 256 * Pow256(m - 1) * Pow256(n);
    }
  }

  /** An integer type of 1 to 8 bytes. */
  datatype RawIntType = IntType(size: nat, signed: bool)

  type IntType = t: RawIntType | 1 <= t.size <= 8 witness IntType(1, true)

  /** 2^(8 size - 1) */
  function Half(size: nat): (h: int)
    requires size > 0
    ensures h > 0 && Pow256(size) == 2 * h
  {
    128 * Pow256(size - 1)
  }

  predicate InType(t: IntType, v: int) {
    if t.signed then -Half(t.size) <= v < Half(t.size) else 0 <= v < Pow256(t.size)
  }

  /** A word read as a signed or an unsigned number. */
  function ValueOf(w: nat, signed: bool): int {
    if signed && w >= Half(8) then w - Pow256(8) else w
  }

  /** The word of a number, `(unsigned __int64)v`. */
  function WordOf(v: int): (w: nat)
    ensures w < Pow256(8)
  {
    v % Pow256(8)
  }

  /** The number of a type that differs from `v` by a multiple of 2^(8 size). */
  function Wrap(t: IntType, v: int): int {
    var m := Pow256(t.size);
    if t.signed then (v + Half(t.size)) % m - Half(t.size) else v % m
  }

  // ----- the folding helpers ----------------------------------------------------------------------

  /** `truncateInt`: up and down again by 8 - size bytes, the way down keeping the sign; or masked. */
  function TruncateInt(w: nat, t: IntType): nat {
    if t.signed then
      var shift := Pow256(8 - t.size);
      var up := w * shift % Pow256(8);
      WordOf(ValueOf(up, true) / shift)
    else w % Pow256(t.size)
  }

  /** `isInRange` */
  function IsInRange(w: nat, t: IntType): bool {
    var value := if t.signed then WordOf(w + Half(t.size)) else w;
    value < Pow256(t.size)
  }

  /** `getMinSize` */
  function GetMinSize(w: nat, signed: bool): nat {
    if signed then
      if WordOf(w + 0x80) <= 0xff then 1
      else if WordOf(w + 0x8000) <= 0xffff then 2
      else if WordOf(w + 0x8000_0000) <= 0xffff_ffff then 4
      else 8
    else if w <= 0xff then 1
    else if w <= 0xffff then 2
    else if w <= 0xffff_ffff then 4
    else 8
  }

  // ----- wrapping ---------------------------------------------------------------------------------

  lemma WrapInType(t: IntType, v: int)
    ensures InType(t, Wrap(t, v))
  {
  }

  lemma WrapShift(t: IntType, v: int, k: int)
    ensures Wrap(t, v + k * Pow256(t.size)) == Wrap(t, v)
  {
    ModShift(v, k, Pow256(t.size));
    ModShift(v + Half(t.size), k, Pow256(t.size));
  }

  /** Only the numbers of the type are left as they are. */
  lemma WrapIsIdentity(t: IntType, v: int)
    ensures Wrap(t, v) == v <==> InType(t, v)
  {
    WrapInType(t, v);
    if InType(t, v) {
      DivModUnique(if t.signed then v + Half(t.size)
                   else v, Pow256(t.size), 0, if t.signed then v + Half(t.size) else v);
    }
  }

  /** Wrapping only takes away a multiple of 2^(8 size) ... */
  lemma WrapDifference(t: IntType, v: int) returns (k: int)
    ensures Wrap(t, v) == v + k * Pow256(t.size)
  {
    var m := Pow256(t.size);
    var x := if t.signed then v + Half(t.size) else v;
    k := -(x / m);
    assert x == (x / m) * m + x % m;
    assert k * m == -((x / m) * m);
  }

  /** ... so its result is the only number of the type that differs from `v` by one. */
  lemma WrapUnique(t: IntType, v: int, r: int, k: int)
    requires InType(t, r) && r == v + k * Pow256(t.size)
    ensures r == Wrap(t, v)
  {
    WrapShift(t, v, k);
    WrapIsIdentity(t, r);
  }

  // ----- truncation is wrapping -------------------------------------------------------------------

  /** The shifts keep the low bytes and repeat their highest bit. */
  lemma ShiftedUp(w: nat, m: nat, shift: nat, q: int, r: nat)
    requires shift > 0 && m > 0 && w == q * m + r && r < m
    ensures w * shift % (m * shift) == r * shift
  {
    assert w * shift == q * (m * shift) + r * shift;
    assert r * shift < m * shift;
    DivModUnique(w * shift, m * shift, q, r * shift);
  }

  lemma ShiftedDown(r: int, shift: nat)
    requires shift > 0
    ensures (r * shift) / shift == r
  {
    DivModUnique(r * shift, shift, r, 0);
  }

  lemma MulMonotone(a: int, b: int, n: int)
    requires a <= b && n >= 0
    ensures a * n <= b * n
  {
    assert (b - a) * n >= 0;
    assert b * n == (b - a) * n + a * n;
  }

  lemma SignOfShifted(r: int, half: int, shift: int)
    requires shift > 0
    ensures r * shift >= half * shift <==> r >= half
  {
    if r >= half {
      MulMonotone(half, r, shift);
    } else {
      MulMonotone(r + 1, half, shift);
      assert (r + 1) * shift == r * shift + shift;
    }
  }

  /** The value of a word of `m * shift` read as a signed number. */
  function SignedOf(up: int, half8: int, word: int): int {
    if up >= half8 then up - word else up
  }

  lemma ShiftedBack(w: nat, m: nat, half: int, shift: nat, word: int, half8: int)
    requires m == 2 * half > 0 && shift > 0 && word == m * shift && half8 == half * shift
    ensures SignedOf(w * shift % word, half8, word) / shift == (if w % m >= half then w % m - m else w % m)
  {
    var q, r := w / m, w % m;
    assert w == q * m + r;
    ShiftedUp(w, m, shift, q, r);
    SignOfShifted(r, half, shift);
    if r < half {
      ShiftedDown(r, shift);
    } else {
      assert r * shift - m * shift == (r - m) * shift;
      ShiftedDown(r - m, shift);
    }
  }

  lemma LowBytes(t: IntType, w: nat)
    requires t.signed
    ensures Wrap(t, w) == if w % Pow256(t.size) >= Half(t.size) then w % Pow256(t.size) - Pow256(t.size)
            else w % Pow256(t.size)
  {
    var m, r := Pow256(t.size), w % Pow256(t.size);
    var q := w / m;
    assert w == q * m + r;
    if r >= Half(t.size) {
      assert r - m == w + (-q - 1) * m;
      WrapUnique(t, w, r - m, -q - 1);
    } else {
      WrapUnique(t, w, r, -q);
    }
  }

  lemma HalfShifted(half: int, shift: int, half8: int)
    requires 2 * half * shift == 2 * half8
    ensures half * shift == half8
  {
    assert 2 * half * shift == 2 * (half * shift);
  }

  lemma SignedTruncation(w: nat, t: IntType)
    requires t.signed
    ensures TruncateInt(w, t) == WordOf(Wrap(t, w))
  {
    var m, half, shift := Pow256(t.size), Half(t.size), Pow256(8 - t.size);
    var word, half8 := Pow256(8), Half(8);
    Pow256Add(t.size, 8 - t.size);
    assert word == m * shift;
    HalfShifted(half, shift, half8);
    ShiftedBack(w, m, half, shift, word, half8);
    LowBytes(t, w);
  }

  lemma {:induction false} Pow256Grows(m: nat, n: nat)
    requires m <= n
    ensures Pow256(m) <= Pow256(n)
    decreases n - m
  {
    if m < n { Pow256Grows(m, n - 1); }
  }

  lemma ValueOfWord(v: int)
    requires -Half(8) <= v < Half(8)
    ensures ValueOf(WordOf(v), true) == v
  {
    var word := Pow256(8);
    if v >= 0 { DivModUnique(v, word, 0, v); } else { DivModUnique(v, word, -1, v + word); }
  }

  /** `truncateInt` yields the number of the type that agrees with the word in its low bytes. */
  lemma TruncationWraps(w: nat, t: IntType)
    ensures ValueOf(TruncateInt(w, t), t.signed) == Wrap(t, w)
  {
    if t.signed {
      SignedTruncation(w, t);
      WrapInType(t, w);
      Pow256Grows(t.size - 1, 7);
      ValueOfWord(Wrap(t, w));
    }
  }

  /** Reading a word as signed takes away a multiple of 2^64. */
  lemma ValueOfShift(w: nat, signed: bool) returns (e: int)
    ensures ValueOf(w, signed) == w + e * Pow256(8)
  {
    e := if signed && w >= Half(8) then -1 else 0;
  }

  /** Numbers that differ by a multiple of 2^64 are wrapped alike. */
  lemma WrapWord(t: IntType, v: int, e: int)
    ensures Wrap(t, v + e * Pow256(8)) == Wrap(t, v)
  {
    Pow256Add(8 - t.size, t.size);
    assert e * Pow256(8) == (e * Pow256(8 - t.size)) * Pow256(t.size);
    WrapShift(t, v, e * Pow256(8 - t.size));
  }

  /** The range test, `truncateInt` leaving the word alone, and the number being one of the type's are
      the same thing. */
  lemma RangeIsFixedPoint(w: nat, t: IntType)
    requires w < Pow256(8)
    ensures IsInRange(w, t) <==> InType(t, ValueOf(w, t.signed))
    ensures IsInRange(w, t) <==> TruncateInt(w, t) == w
  {
    var v := ValueOf(w, t.signed);
    var e := ValueOfShift(w, t.signed);
    Pow256Grows(t.size, 8);
    Pow256Grows(t.size - 1, 7);
    if t.signed { RangeOfSigned(w, v, Half(t.size), Pow256(t.size), Half(8), Pow256(8)); }
    TruncationWraps(w, t);
    WrapWord(t, w, e);
    WrapIsIdentity(t, v);
    if TruncateInt(w, t) != w { SameValueSameWord(TruncateInt(w, t), w, t); }
  }

  lemma RangeOfSigned(w: int, v: int, half: int, m: int, half8: int, word: int)
    requires 0 < half <= half8 && m == 2 * half && word == 2 * half8 && 0 <= w < word
    requires v == if w >= half8 then w - word else w
    ensures (w + half) % word < m <==> -half <= v < half
  {
    if w + half < word {
      DivModUnique(w + half, word, 0, w + half);
    } else {
      DivModUnique(w + half, word, 1, w + half - word);
    }
  }

  lemma SameValueSameWord(x: nat, w: nat, t: IntType)
    requires x == TruncateInt(w, t) && w < Pow256(8) && x != w
    ensures ValueOf(x, t.signed) != ValueOf(w, t.signed)
  {
    if t.signed { SignedTruncation(w, t); } else { Pow256Grows(t.size, 8); }
  }

  /** `getMinSize` is the least of 1, 2, 4 and 8 bytes that hold the number. */
  lemma MinSizeIsLeast(w: nat, signed: bool, n: nat)
    requires w < Pow256(8) && n in {1, 2, 4, 8}
    ensures GetMinSize(w, signed) in {1, 2, 4, 8}
    ensures InType(IntType(n, signed), ValueOf(w, signed)) <==> GetMinSize(w, signed) <= n
  {
    var t: IntType := IntType(n, signed);
    RangeIsFixedPoint(w, t);
    Widening(w, signed);
    MinSizeByRange(w, signed);
    if n == 8 { AllInEight(w, signed); }
  }

  lemma AllInEight(w: nat, signed: bool)
    requires w < Pow256(8)
    ensures IsInRange(w, IntType(8, signed))
  {
    RangeIsFixedPoint(w, IntType(8, signed));
  }

  lemma MinSizeByRange(w: nat, signed: bool)
    requires w < Pow256(8)
    ensures GetMinSize(w, signed) ==
            if IsInRange(w, IntType(1, signed)) then 1 else if IsInRange(w, IntType(2, signed)) then 2
            else if IsInRange(w, IntType(4, signed)) then 4 else 8
  {
    assert Half(1) == 0x80 && Half(2) == 0x8000 && Half(4) == 0x8000_0000;
    assert Pow256(1) == 0x100 && Pow256(2) == 0x1_0000 && Pow256(4) == 0x1_0000_0000;
  }

  lemma Widening(w: nat, signed: bool)
    requires w < Pow256(8)
    ensures IsInRange(w, IntType(1, signed)) ==> IsInRange(w, IntType(2, signed))
    ensures IsInRange(w, IntType(2, signed)) ==> IsInRange(w, IntType(4, signed))
  {
    RangeIsFixedPoint(w, IntType(1, signed));
    RangeIsFixedPoint(w, IntType(2, signed));
    RangeIsFixedPoint(w, IntType(4, signed));
    Pow256Grows(1, 2);
    Pow256Grows(2, 4);
    Pow256Grows(0, 1);
    Pow256Grows(1, 3);
  }
}
