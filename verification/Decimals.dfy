/** Fixed-point parsing of decimal strings: price and quantity strings into integer ticks and lots. */
module Decimals {
  import opened Options

  predicate IsDigit(c: char) {
    '0' <= c <= '9'
  }

  function Digit(c: char): (d: nat)
    requires IsDigit(c)
    ensures d < 10
  {
    c as int - '0' as int
  }

  predicate AllDigits(s: string) {
    forall i :: 0 <= i < |s| ==> IsDigit(s[i])
  }

  function Pow10(k: nat): (p: nat)
    ensures p >= 1
  {
    if k == 0 then 1 else 10 * Pow10(k - 1)
  }

  /** The number a string of digits spells. */
  function Value(s: string): nat
    requires AllDigits(s)
  {
    if s == "" then 0 else 10 * Value(s[..|s| - 1]) + Digit(s[|s| - 1])
  }

  const INT64_MAX: int := 9223372036854775807

  // ---- std::from_chars on the integer part ----

  function LeadingDigits(s: string): (n: nat)
    ensures n <= |s|
  {
    if s == "" || !IsDigit(s[0]) then 0 else 1 + LeadingDigits(s[1..])
  }

  lemma LeadingAreDigits(s: string)
    ensures AllDigits(s[..LeadingDigits(s)])
    ensures AllDigits(s) ==> LeadingDigits(s) == |s|
  {
    if s != "" && IsDigit(s[0]) {
      LeadingAreDigits(s[1..]);
      var n := LeadingDigits(s);
      assert forall i :: 1 <= i < n ==> s[..n][i] == s[1..][..n - 1][i - 1];
      if AllDigits(s) {
        assert AllDigits(s[1..]);
      }
    }
  }

  /** A signed prefix of digits; nothing checks what follows it. None when there is no digit or no room. */
  function FromChars(s: string): Option<int> {
    var neg := s != "" && s[0] == '-';
    var body := if neg then s[1..] else s;
    var n := LeadingDigits(body);
    LeadingAreDigits(body);
    if n == 0 then None
    else
      var v: int := if neg then 0 - Value(body[..n]) else Value(body[..n]);
      if -INT64_MAX - 1 <= v <= INT64_MAX then Some(v) else None
  }

  // ---- the parser ----

  function FindDot(s: string): (n: nat)
    ensures n <= |s|
  {
    if s == "" || s[0] == '.' then 0 else 1 + FindDot(s[1..])
  }

  datatype Parts = Parts(negative: bool, intPart: string, fracPart: string)

  function SplitParts(s: string): Parts
    requires s != ""
  {
    var neg := s[0] == '-';
    var t := if neg then s[1..] else s;
    var d := FindDot(t);
    Parts(neg, t[..d], if d < |t| then t[d + 1..] else "")
  }

  function IntValue(p: Parts): Option<int> {
    if p.intPart == "" then Some(0) else FromChars(p.intPart)
  }

  /** The fractional digits that count at scale 10^k. */
  function UsedFrac(p: Parts, k: nat): string {
    if |p.fracPart| <= k then p.fracPart else p.fracPart[..k]
  }

  function FracValue(p: Parts, k: nat): nat
    requires AllDigits(UsedFrac(p, k))
  {
    Value(UsedFrac(p, k)) * Pow10(k - |UsedFrac(p, k)|)
  }

  /** What parsing gives at scale 10^k; None where the source throws. */
  function Parse(s: string, k: nat): Option<int> {
    if s == "" then None
    else
      var p := SplitParts(s);
      var v := IntValue(p);
      if v.None? || !AllDigits(UsedFrac(p, k)) then None
      else
        var r := v.value * Pow10(k) + FracValue(p, k);
        Some(if p.negative then -r else r)
  }

  lemma {:induction false} Pow10Adds(a: nat, b: nat)
    ensures Pow10(a + b) == Pow10(a) * Pow10(b)
  {
    if a != 0 {
      Pow10Adds(a - 1, b);
      assert Pow10(a + b) == 10 * Pow10(a - 1 + b);
      assert 10 * (Pow10(a - 1) * Pow10(b)) == (10 * Pow10(a - 1)) * Pow10(b);
    }
  }

  lemma {:induction false} Pow10Grows(a: nat, b: nat)
    requires a < b
    ensures Pow10(a) < Pow10(b)
  {
    if a < b - 1 {
      Pow10Grows(a, b - 1);
    }
  }

  /** The digit loop: accumulates until the scale is reached. */
  method ScanFraction(frac: string, k: nat) returns (r: Option<nat>, used: nat)
    ensures used == if |frac| <= k then |frac| else k
    ensures r.Some? <==> AllDigits(frac[..used])
    ensures r.Some? ==> r.value == Value(frac[..used])
  {
    var scale := Pow10(k);
    var fracVal, fracDivisor, n := 0, 1, 0;
    while n < |frac| && fracDivisor < scale
      invariant n <= |frac| && n <= k && fracDivisor == Pow10(n)
      invariant AllDigits(frac[..n]) && fracVal == Value(frac[..n])
      decreases |frac| - n
    {
      used := if |frac| <= k then |frac| else k;
      if !IsDigit(frac[n]) {
        assert frac[..used][n] == frac[n];
        return None, used;
      }
      assert frac[..n + 1][..n] == frac[..n];
      fracVal := fracVal * 10 + Digit(frac[n]);
      fracDivisor := fracDivisor * 10;
      n := n + 1;
    }
    if n < k && n < |frac| {
      Pow10Grows(n, k);
    }
    return Some(fracVal), n;
  }

  /** The padding loop: appends zeros up to the scale. */
  method PadFraction(v: nat, used: nat, k: nat) returns (r: nat)
    requires used <= k
    ensures r == v * Pow10(k - used)
  {
    var scale, fracDivisor, n := Pow10(k), Pow10(used), used;
    r := v;
    while fracDivisor < scale
      invariant used <= n <= k && fracDivisor == Pow10(n) && r == v * Pow10(n - used)
      decreases k - n
    {
      TenTimes(v, Pow10(n - used));
      r := r * 10;
      fracDivisor := fracDivisor * 10;
      n := n + 1;
    }
    if n < k {
      Pow10Grows(n, k);
    }
  }

  lemma TenTimes(v: int, p: int)
    ensures (v * p) * 10 == v * (10 * p)
  {
  }

  /** The two loops and the sign compute `Parse`. */
  method ParseDecimalToScaled(s: string, k: nat) returns (r: Option<int>)
    ensures r == Parse(s, k)
  {
    if s == "" {
      return None;
    }
    var p := SplitParts(s);
    var intVal := 0;
    if p.intPart != "" {
      var v := FromChars(p.intPart);
      if v.None? {
        return None;
      }
      intVal := v.value;
    }
    var scanned, used := ScanFraction(p.fracPart, k);
    assert p.fracPart[..used] == UsedFrac(p, k);
    if scanned.None? {
      return None;
    }
    var fracVal := PadFraction(scanned.value, used, k);
    var result := intVal * Pow10(k) + fracVal;
    r := Some(if p.negative then -result else result);
  }

  // ---- readable input ----

  /** Digits with an optional sign and point, and an integer part that fits: what is read as the number it spells. */
  ghost predicate Readable(s: string) {
    s != "" && var p := SplitParts(s); AllDigits(p.intPart) && AllDigits(p.fracPart) && (p.intPart != "" ==> Value(p.intPart) <= INT64_MAX)
  }

  /** The digits without the point, as one number. */
  function Magnitude(p: Parts): nat
    requires AllDigits(p.intPart) && AllDigits(p.fracPart)
  {
    Value(p.intPart) * Pow10(|p.fracPart|) + Value(p.fracPart)
  }

  lemma {:induction false} ValueBelow(s: string)
    requires AllDigits(s)
    ensures Value(s) < Pow10(|s|)
  {
    if s != "" {
      ValueBelow(s[..|s| - 1]);
    }
  }

  /** Cutting digits off the end divides by the matching power of ten, rounding down. */
  lemma {:induction false} ValueCut(s: string, n: nat)
    requires AllDigits(s) && n <= |s|
    ensures Value(s[..n]) * Pow10(|s| - n) <= Value(s) < (Value(s[..n]) + 1) * Pow10(|s| - n)
    decreases |s|
  {
    if n == |s| {
      assert s[..n] == s;
    } else {
      var t := s[..|s| - 1];
      ValueCut(t, n);
      assert t[..n] == s[..n];
      CutStep(Value(s[..n]), Pow10(|t| - n), Value(t), Digit(s[|s| - 1]));
    }
  }

  lemma CutStep(a: int, q: int, v: int, d: int)
    requires a * q <= v < (a + 1) * q && 0 <= d < 10
    ensures a * (10 * q) <= 10 * v + d < (a + 1) * (10 * q)
  {
    TenTimes(a, q);
    TenTimes(a + 1, q);
  }

  lemma IntPartReads(p: Parts)
    requires AllDigits(p.intPart) && (p.intPart != "" ==> Value(p.intPart) <= INT64_MAX)
    ensures IntValue(p) == Some(Value(p.intPart))
  {
    if p.intPart != "" {
      assert IsDigit(p.intPart[0]);
      LeadingAreDigits(p.intPart);
      assert p.intPart[..|p.intPart|] == p.intPart;
    }
  }

  /** Scaled magnitude: the greatest integer not above the number times 10^k. */
  ghost predicate IsScaled(p: Parts, k: nat, r: nat)
    requires AllDigits(p.intPart) && AllDigits(p.fracPart)
  {
    r * Pow10(|p.fracPart|) <= Magnitude(p) * Pow10(k) < (r + 1) * Pow10(|p.fracPart|)
  }

  lemma ScaleShort(i: nat, f: nat, d: nat, k: nat)
    requires d <= k
    ensures (i * Pow10(k) + f * Pow10(k - d)) * Pow10(d) == (i * Pow10(d) + f) * Pow10(k)
  {
    Pow10Adds(k - d, d);
    ShortProduct(i, f, Pow10(k - d), Pow10(d));
  }

  lemma ShortProduct(i: int, f: int, a: int, b: int)
    ensures (i * (a * b) + f * a) * b == (i * b + f) * (a * b)
  {
    assert (i * (a * b)) * b == (i * b) * (a * b);
    assert (f * a) * b == f * (a * b);
  }

  lemma ScaleLong(i: nat, f: nat, cut: nat, d: nat, k: nat)
    requires k <= d && cut * Pow10(d - k) <= f < (cut + 1) * Pow10(d - k)
    ensures (i * Pow10(k) + cut) * Pow10(d) <= (i * Pow10(d) + f) * Pow10(k) < (i * Pow10(k) + cut + 1) * Pow10(d)
  {
    Pow10Adds(d - k, k);
    LongProduct(i, f, cut, Pow10(d - k), Pow10(k));
  }

  lemma LongProduct(i: int, f: int, cut: int, a: nat, b: nat)
    requires cut * a <= f < (cut + 1) * a && b >= 1
    ensures (i * b + cut) * (a * b) <= (i * (a * b) + f) * b < (i * b + cut + 1) * (a * b)
  {
    ShortProduct(i, cut, a, b);
    ShortProduct(i, cut + 1, a, b);
    var x := i * (a * b);
    MulLe(x + cut * a, x + f, b);
    MulLt(x + f, x + (cut + 1) * a, b);
  }

  lemma MulLe(x: int, y: int, m: nat)
    requires x <= y
    ensures x * m <= y * m
  {
  }

  lemma MulLt(x: int, y: int, m: nat)
    requires x < y && m >= 1
    ensures x * m < y * m
  {
  }

  lemma FractionShort(p: Parts, k: nat)
    requires AllDigits(p.intPart) && AllDigits(p.fracPart) && |p.fracPart| <= k
    ensures IsScaled(p, k, Value(p.intPart) * Pow10(k) + FracValue(p, k))
  {
    var d, i, f := |p.fracPart|, Value(p.intPart), Value(p.fracPart);
    ScaleShort(i, f, d, k);
    var r := i * Pow10(k) + f * Pow10(k - d);
    MulLt(r, r + 1, Pow10(d));
  }

  lemma FractionLong(p: Parts, k: nat)
    requires AllDigits(p.intPart) && AllDigits(p.fracPart) && |p.fracPart| > k
    ensures AllDigits(UsedFrac(p, k)) && IsScaled(p, k, Value(p.intPart) * Pow10(k) + FracValue(p, k))
  {
    var cut := Value(p.fracPart[..k]);
    ValueCut(p.fracPart, k);
    ScaleLong(Value(p.intPart), Value(p.fracPart), cut, |p.fracPart|, k);
    TimesOne(cut);
  }

  lemma TimesOne(x: nat)
    ensures x * Pow10(0) == x
  {
  }

  /** The scaled magnitude the parser arrives at. */
  ghost function Scaled(p: Parts, k: nat): nat
    requires AllDigits(p.intPart) && AllDigits(UsedFrac(p, k))
  {
    Value(p.intPart) * Pow10(k) + FracValue(p, k)
  }

  lemma ParseIsScaled(s: string, k: nat)
    requires Readable(s)
    ensures var p := SplitParts(s); AllDigits(UsedFrac(p, k)) && Parse(s, k) == Some(if p.negative then 0 - Scaled(p, k) else Scaled(p, k))
  {
    IntPartReads(SplitParts(s));
  }

  /** Every readable string parses to its value times 10^k, truncated toward zero. */
  lemma ParseTruncates(s: string, k: nat) returns (r: nat)
    requires Readable(s)
    ensures Parse(s, k) == Some(if SplitParts(s).negative then 0 - r else r)
    ensures IsScaled(SplitParts(s), k, r)
  {
    var p := SplitParts(s);
    ParseIsScaled(s, k);
    r := Scaled(p, k);
    if |p.fracPart| <= k {
      FractionShort(p, k);
    } else {
      FractionLong(p, k);
    }
  }

  /** The number spelled by `a` is at most the one spelled by `b`, compared as fractions. */
  ghost predicate NotAbove(a: Parts, b: Parts)
    requires AllDigits(a.intPart) && AllDigits(a.fracPart) && AllDigits(b.intPart) && AllDigits(b.fracPart)
  {
    Signed(a) * Pow10(|b.fracPart|) <= Signed(b) * Pow10(|a.fracPart|)
  }

  ghost function Signed(p: Parts): int
    requires AllDigits(p.intPart) && AllDigits(p.fracPart)
  {
    if p.negative then 0 - Magnitude(p) else Magnitude(p)
  }

  lemma MagnitudeMonotone(a: Parts, b: Parts, k: nat, r: nat, q: nat)
    requires AllDigits(a.intPart) && AllDigits(a.fracPart) && AllDigits(b.intPart) && AllDigits(b.fracPart)
    requires IsScaled(a, k, r) && IsScaled(b, k, q)
    requires Magnitude(a) * Pow10(|b.fracPart|) <= Magnitude(b) * Pow10(|a.fracPart|)
    ensures r <= q
  {
    FloorMonotone(Magnitude(a), Magnitude(b), Pow10(|a.fracPart|), Pow10(|b.fracPart|), Pow10(k), r, q);
  }

  lemma FloorMonotone(m: nat, n: nat, x: nat, y: nat, t: nat, r: nat, q: nat)
    requires x >= 1 && y >= 1 && t >= 1 && m * y <= n * x
    requires r * x <= m * t && n * t < (q + 1) * y
    ensures r <= q
  {
    MulLe(r * x, m * t, y);
    MulLe(m * y, n * x, t);
    MulLt(n * t, (q + 1) * y, x);
    Swap(m, t, y);
    Swap(n, x, t);
    Swap(q + 1, y, x);
    Cancel(r, q + 1, x, y);
  }

  lemma Swap(a: int, b: int, c: int)
    ensures (a * b) * c == (a * c) * b
  {
  }

  lemma Cancel(r: int, s: int, x: nat, y: nat)
    requires (r * x) * y < (s * x) * y
    ensures r < s
  {
    if s <= r {
      MulLe(s, r, x);
      MulLe(s * x, r * x, y);
      assert false;
    }
  }

  /** A larger number never parses to a smaller tick. */
  lemma ParseMonotone(s: string, t: string, k: nat)
    requires Readable(s) && Readable(t) && NotAbove(SplitParts(s), SplitParts(t))
    ensures Parse(s, k).Some? && Parse(t, k).Some? && Parse(s, k).value <= Parse(t, k).value
  {
    var r := ParseTruncates(s, k);
    var q := ParseTruncates(t, k);
    SignedMonotone(SplitParts(s), SplitParts(t), k, r, q);
  }

  lemma SignedMonotone(a: Parts, b: Parts, k: nat, r: nat, q: nat)
    requires AllDigits(a.intPart) && AllDigits(a.fracPart) && AllDigits(b.intPart) && AllDigits(b.fracPart)
    requires NotAbove(a, b) && IsScaled(a, k, r) && IsScaled(b, k, q)
    ensures (if a.negative then 0 - r else r) <= (if b.negative then 0 - q else q)
  {
    var m, n, x, y := Magnitude(a), Magnitude(b), Pow10(|a.fracPart|), Pow10(|b.fracPart|);
    MulLe(0, m, y);
    MulLe(0, n, x);
    Negated(m, y);
    Negated(n, x);
    if a.negative && b.negative {
      MagnitudeMonotone(b, a, k, q, r);
    } else if !a.negative && !b.negative {
      MagnitudeMonotone(a, b, k, r, q);
    } else if !a.negative {
      ZeroScaled(a, k, r, y);
      ZeroScaled(b, k, q, x);
    }
  }

  lemma Negated(m: int, y: int)
    ensures (0 - m) * y == 0 - m * y
  {
  }

  /** Zero parses to zero. */
  lemma ZeroScaled(a: Parts, k: nat, r: nat, y: nat)
    requires AllDigits(a.intPart) && AllDigits(a.fracPart) && IsScaled(a, k, r)
    requires y >= 1 && Magnitude(a) * y <= 0
    ensures r == 0
  {
    Positive(Magnitude(a), y);
    Positive(r, Pow10(|a.fracPart|));
    assert Magnitude(a) * Pow10(k) == 0;
  }

  lemma Positive(m: nat, y: nat)
    requires y >= 1
    ensures m <= m * y
  {
    MulLe(1, y, m);
  }

  lemma FractionBelow(p: Parts, k: nat)
    requires AllDigits(UsedFrac(p, k))
    ensures FracValue(p, k) < Pow10(k)
  {
    var u := UsedFrac(p, k);
    ValueBelow(u);
    Pow10Adds(|u|, k - |u|);
    MulLt(Value(u), Pow10(|u|), Pow10(k - |u|));
  }

  /** No 64-bit overflow while the integer part is at most (2^63 - scale) / scale. */
  lemma ParseFits(s: string, k: nat)
    requires Readable(s) && Value(SplitParts(s).intPart) * Pow10(k) <= INT64_MAX + 1 - Pow10(k)
    ensures Parse(s, k).Some? && -INT64_MAX <= Parse(s, k).value <= INT64_MAX
  {
    var p := SplitParts(s);
    ParseIsScaled(s, k);
    FractionBelow(p, k);
    ScaledFits(Scaled(p, k), Value(p.intPart) * Pow10(k), FracValue(p, k), Pow10(k));
  }

  lemma ScaledFits(r: nat, x: int, f: int, scale: int)
    requires r == x + f && x <= INT64_MAX + 1 - scale && f < scale
    ensures r <= INT64_MAX
  {
  }

  // ---- what is accepted, character by character ----

  /** Position of the optional sign. */
  function Start(s: string): (b: nat)
    ensures b <= |s| && b <= 1
  {
    if s != "" && s[0] == '-' then 1 else 0
  }

  /** A proper decimal: an optional minus, then digits with at most one point among or around them. */
  ghost predicate IsDecimal(s: string) {
    && (forall i :: Start(s) <= i < |s| ==> IsDigit(s[i]) || s[i] == '.')
    && (forall i, j :: Start(s) <= i < j < |s| ==> s[i] != '.' || s[j] != '.')
    && (exists i :: Start(s) <= i < |s| && IsDigit(s[i]))
  }

  /** The first point of `t`, or its end. */
  ghost predicate PointAt(t: string, d: nat) {
    d <= |t| && (forall i :: 0 <= i < d ==> t[i] != '.') && (d < |t| ==> t[d] == '.')
  }

  /** The digits from `b` on end at `n`, and there is at least one. */
  ghost predicate DigitsTo(u: string, b: nat, n: nat) {
    b < n <= |u| && (forall i :: b <= i < n ==> IsDigit(u[i])) && (n == |u| || !IsDigit(u[n]))
  }

  /** An optional minus and digits that fit 64 bits, whatever comes after them. */
  ghost predicate StartsWithInt64(u: string) {
    exists n: nat :: DigitsTo(u, Start(u), n) && Value(u[Start(u)..n]) <= INT64_MAX + Start(u)
  }

  lemma {:induction false} FindDotFinds(t: string)
    ensures PointAt(t, FindDot(t))
  {
    if t != "" && t[0] != '.' {
      FindDotFinds(t[1..]);
      var d := FindDot(t);
      forall i | 0 <= i < d ensures t[i] != '.' {
        assert i == 0 || t[i] == t[1..][i - 1];
      }
    }
  }

  lemma PointUnique(t: string, d: nat)
    requires PointAt(t, d)
    ensures FindDot(t) == d
  {
    FindDotFinds(t);
  }

  lemma {:induction false} LeadingEnds(u: string)
    ensures LeadingDigits(u) < |u| ==> !IsDigit(u[LeadingDigits(u)])
  {
    if u != "" && IsDigit(u[0]) {
      LeadingEnds(u[1..]);
    }
  }

  lemma RunUnique(u: string, b: nat, n: nat)
    requires DigitsTo(u, b, n)
    ensures LeadingDigits(u[b..]) == n - b
  {
    var t := u[b..];
    var m := LeadingDigits(t);
    LeadingAreDigits(t);
    LeadingEnds(t);
    assert forall i :: 0 <= i < |t| ==> t[i] == u[b + i];
    forall i | b <= i < b + m ensures IsDigit(u[i]) {
      assert t[..m][i - b] == u[i];
    }
  }

  lemma RunExists(u: string, b: nat)
    requires b <= |u| && LeadingDigits(u[b..]) > 0
    ensures DigitsTo(u, b, b + LeadingDigits(u[b..]))
  {
    var t := u[b..];
    var m := LeadingDigits(t);
    LeadingAreDigits(t);
    LeadingEnds(t);
    forall i | b <= i < b + m ensures IsDigit(u[i]) {
      assert t[..m][i - b] == u[i];
    }
  }

  /** The integer part is read exactly when it starts with a number that fits. */
  lemma FromCharsAccepts(u: string)
    ensures FromChars(u).Some? <==> StartsWithInt64(u)
  {
    var b := Start(u);
    var t := u[b..];
    assert t == if b == 1 then u[1..] else u;
    var m := LeadingDigits(t);
    LeadingAreDigits(t);
    if m > 0 {
      RunExists(u, b);
      assert u[b..b + m] == t[..m];
    }
    if StartsWithInt64(u) {
      var n: nat :| DigitsTo(u, b, n) && Value(u[b..n]) <= INT64_MAX + b;
      RunUnique(u, b, n);
    }
  }

  lemma UsedDigits(t: string, d: nat, k: nat, negative: bool)
    requires PointAt(t, d)
    ensures AllDigits(UsedFrac(Parts(negative, t[..d], if d < |t| then t[d + 1..] else ""), k)) <==>
            forall i :: d < i < |t| && i <= d + k ==> IsDigit(t[i])
  {
    var frac := if d < |t| then t[d + 1..] else "";
    var used := UsedFrac(Parts(negative, t[..d], frac), k);
    forall i | d < i < |t| && i <= d + k ensures i - d - 1 < |used| && used[i - d - 1] == t[i] {
    }
    forall j | 0 <= j < |used| ensures j + d + 1 < |t| && used[j] == t[j + d + 1] {
    }
    if forall i :: d < i < |t| && i <= d + k ==> IsDigit(t[i]) {
      forall j | 0 <= j < |used| ensures IsDigit(used[j]) {
        assert IsDigit(t[j + d + 1]);
      }
    }
  }

  /**
   What is accepted, for every string: with the optional minus removed and `d` the place of the
   first point, the part before it is empty or starts with a number that fits 64 bits (a second
   minus allowed, anything allowed after the number), and the first k characters after it, as
   far as there are any, are digits. Nothing else is looked at.
   */
  lemma AcceptsExactly(s: string, k: nat, d: nat)
    requires PointAt(s[Start(s)..], d)
    ensures var t := s[Start(s)..];
            Parse(s, k).Some? <==>
              && s != ""
              && (d == 0 || StartsWithInt64(t[..d]))
              && (forall i :: d < i < |t| && i <= d + k ==> IsDigit(t[i]))
  {
    if s != "" {
      var t := s[Start(s)..];
      SplitAt(s, d);
      ParseGuards(s, k);
      UsedDigits(t, d, k, s[0] == '-');
      FromCharsAccepts(t[..d]);
    }
  }

  lemma SplitAt(s: string, d: nat)
    requires s != "" && PointAt(s[Start(s)..], d)
    ensures var t := s[Start(s)..]; SplitParts(s) == Parts(s[0] == '-', t[..d], if d < |t| then t[d + 1..] else "")
  {
    var t := s[Start(s)..];
    assert t == if s[0] == '-' then s[1..] else s;
    PointUnique(t, d);
  }

  lemma ParseGuards(s: string, k: nat)
    requires s != ""
    ensures var p := SplitParts(s);
            Parse(s, k).Some? <==> (p.intPart == "" || FromChars(p.intPart).Some?) && AllDigits(UsedFrac(p, k))
  {
  }

  /** What is read as the number it spells: the proper decimals whose integer part fits, and three strings without a digit. */
  lemma ReadableExactly(s: string)
    ensures Readable(s) <==>
            || (IsDecimal(s) && Fits(s))
            || s == "-" || s == "." || s == "-."
  {
    if s != "" {
      var b := Start(s);
      var t := s[b..];
      assert t == if s[0] == '-' then s[1..] else s;
      FindDotFinds(t);
      var d := FindDot(t);
      assert forall i :: b <= i < |s| ==> s[i] == t[i - b];
      if Readable(s) {
        ReadableChars(s, t, d);
      } else if IsDecimal(s) && Fits(s) {
        DecimalParts(s, t, d);
      }
    }
  }

  /** The integer part, when it is made of digits, fits 64 bits. */
  ghost predicate Fits(s: string) {
    var t := s[Start(s)..];
    var u := t[..FindDot(t)];
    AllDigits(u) ==> Value(u) <= INT64_MAX
  }

  lemma ReadableChars(s: string, t: string, d: nat)
    requires Readable(s) && t == s[Start(s)..] && PointAt(t, d) && d == FindDot(t)
    ensures (IsDecimal(s) && Fits(s)) || s == "-" || s == "." || s == "-."
  {
    var b, p := Start(s), SplitParts(s);
    assert t == if s[0] == '-' then s[1..] else s;
    assert p.intPart == t[..d] && p.fracPart == if d < |t| then t[d + 1..] else "";
    forall i | b <= i < |s| ensures if i == b + d then s[i] == '.' else IsDigit(s[i]) {
      assert s[i] == t[i - b];
      if i < b + d {
        assert t[..d][i - b] == s[i];
      } else if i > b + d {
        assert t[d + 1..][i - b - d - 1] == s[i];
      }
    }
    if |s| >= b + 2 {
      var i := if d == 0 then b + 1 else b;
      assert IsDigit(s[i]);
    } else if |s| == b + 1 && d != 0 {
      assert IsDigit(s[b]);
    }
  }

  lemma DecimalParts(s: string, t: string, d: nat)
    requires s != "" && IsDecimal(s) && Fits(s) && t == s[Start(s)..] && PointAt(t, d) && d == FindDot(t)
    ensures Readable(s)
  {
    var b, p := Start(s), SplitParts(s);
    assert t == if s[0] == '-' then s[1..] else s;
    forall i | 0 <= i < |t| && i != d ensures IsDigit(t[i]) {
      assert t[i] == s[b + i];
      if i > d {
        assert s[b + d] == '.';
      }
    }
    assert AllDigits(p.intPart) && AllDigits(p.fracPart);
  }

  /**
   The source documents that malformed input throws. These strings are no decimals and are
   accepted: junk after the number or beyond the precision, nothing at all around the sign and
   point, and a second minus, which flips the integer part but not the fraction.
   */
  lemma JunkAccepted()
    ensures Parse("1x", 2) == Some(100) && Parse("1.005y", 2) == Some(100)
    ensures Parse("-", 2) == Some(0) && Parse(".", 2) == Some(0)
    ensures Parse("--5", 2) == Some(500) && Parse("--5.2", 1) == Some(48)
  {
    assert Pow10(1) == 10 && Pow10(2) == 100;
    JunkDigits();
    JunkSigns();
    JunkMinus();
  }

  lemma OneDigit(c: char)
    requires IsDigit(c)
    ensures LeadingDigits([c]) == 1 && Value([c]) == Digit(c)
  {
    assert [c][1..] == "" && [c][..0] == "";
    assert LeadingDigits("") == 0;
  }

  lemma JunkDigits()
    ensures Parse("1x", 2) == Some(100) && Parse("1.005y", 2) == Some(100)
  {
    JunkAfterInteger();
    JunkAfterFraction();
  }

  lemma JunkAfterInteger()
    ensures Parse("1x", 2) == Some(100)
  {
    OneDigit('1');
    assert "1x"[1..] == "x" && "x"[1..] == "";
    assert LeadingDigits("1x") == 1 && FindDot("1x") == 2;
    assert "1x"[..1] == "1" && "1x"[..2] == "1x";
    assert SplitParts("1x") == Parts(false, "1x", "") && FromChars("1x") == Some(1);
    assert Pow10(1) == 10 && Pow10(2) == 100;
  }

  lemma JunkAfterFraction()
    ensures Parse("1.005y", 2) == Some(100)
  {
    OneDigit('1');
    var t := "1.005y";
    assert t[1..] == ".005y";
    assert FindDot(t) == 1;
    assert t[..1] == "1" && t[2..] == "005y" && "005y"[..2] == "00" && "1"[..1] == "1";
    assert SplitParts(t) == Parts(false, "1", "005y") && FromChars("1") == Some(1);
    assert "00"[..1] == "0" && "0"[..0] == "";
    assert Value("0") == 0 && Value("00") == 0;
    assert Pow10(1) == 10 && Pow10(2) == 100;
  }

  lemma JunkSigns()
    ensures Parse("-", 2) == Some(0) && Parse(".", 2) == Some(0)
  {
    assert "-"[1..] == "" && "."[1..] == "";
    assert SplitParts("-") == Parts(true, "", "") && SplitParts(".") == Parts(false, "", "");
    assert Value("") == 0;
  }

  lemma JunkMinus()
    ensures Parse("--5", 2) == Some(500) && Parse("--5.2", 1) == Some(48)
  {
    OneDigit('5');
    OneDigit('2');
    assert Pow10(1) == 10 && Pow10(2) == 100;
    assert "--5"[1..] == "-5" && "-5"[1..] == "5" && "5"[1..] == "";
    assert FindDot("5") == 1 && FindDot("-5") == 2;
    assert SplitParts("--5") == Parts(true, "-5", "");
    assert FromChars("-5") == Some(-5);
    var t := "-5.2";
    assert "--5.2"[1..] == t && t[1..] == "5.2" && "5.2"[1..] == ".2";
    assert FindDot("5.2") == 1 && FindDot(t) == 2;
    assert t[..2] == "-5" && t[3..] == "2";
    assert SplitParts("--5.2") == Parts(true, "-5", "2");
  }
}
