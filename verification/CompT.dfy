/**
  kernel/acct.c: the 16-bit floating-point format of accounting records, a 13-bit fraction and a 3-bit
  base-8 exponent.
*/
module CompT {

  const MAXFRACT: int := 8191

  function Pow8(e: nat): (p: nat)
    ensures p > 0
  {
    if e == 0 then 1 else 8 * Pow8(e - 1)
  }

  /** What a reader of the record takes a comp_t to mean. */
  function Decode(c: nat): nat {
    (c % 8192) * Pow8(c / 8192)
  }

  /** The least exponent under which the value, cut off, fits the fraction. */
  function Exponent(value: nat): nat {
    if value <= MAXFRACT then 0 else 1 + Exponent(value / 8)
  }

  /** m is value / unit rounded to the nearest whole number, a half up. */
  predicate Nearest(value: nat, unit: nat, m: nat) {
    2 * (m * unit) - unit <= 2 * value < 2 * (m * unit) + unit
  }

  /** `c` stands for `m` units of 8^e. */
  predicate Packs(c: nat, e: nat, m: nat) {
    if m <= MAXFRACT then c == e * 8192 + m else m == 8192 && c == (e + 1) * 8192 + 1024
  }

  lemma TimesMonotone(a: nat, b: nat, unit: nat)
    requires a <= b
    ensures a * unit <= b * unit
  {
  }

  lemma ShiftStep(v: nat, value: nat, p: nat, rest: nat) returns (more: nat)
    requires p > 0 && rest < p && v == value * p + rest
    ensures v == value / 8 * (8 * p) + more && more < 8 * p
    ensures value / 4 % 2 == 1 <==> 2 * more >= 8 * p
  {
    var q, d := value / 8, value % 8;
    more := d * p + rest;
    assert value * p == (8 * q + d) * p == q * (8 * p) + d * p;
    if d < 4 { TimesMonotone(d, 3, p); } else { TimesMonotone(4, d, p); TimesMonotone(d, 7, p); }
  }

  lemma RoundStep(v: nat, value: nat, p: nat, rest: nat)
    requires p > 0 && rest < p && v == value * p + rest
    ensures Nearest(v, p, if 2 * rest >= p then value + 1 else value)
  {
    assert (value + 1) * p == value * p + p;
  }

  /** The loop shifts and keeps the last bit shifted out; the result is the value rounded half-up to a multiple
      of 8^e for the exponent e the loop stops at, also when the rounding carries into the exponent. */
  method EncodeCompT(v: nat) returns (c: nat)
    ensures Encodes(v, c)
  {
    var value, exp, rnd := v, 0, 0;
    ghost var rest, p := 0, 1;
    while value > MAXFRACT
      invariant value >= 0 && exp >= 0 && exp + Exponent(value) == Exponent(v)
      invariant p == Pow8(exp) && v == value * p + rest && 0 <= rest < p
      invariant rnd != 0 <==> exp > 0 && 2 * rest >= p
      decreases value
    {
      rnd := if value / 4 % 2 == 1 then 4 else 0;
      rest := ShiftStep(v, value, p, rest);
      value, exp, p := value / 8, exp + 1, 8 * p;
    }
    RoundStep(v, value, p, rest);
    ghost var m := if rnd != 0 then value + 1 else value;
    if rnd != 0 {
      value := value + 1;
      if value > MAXFRACT {
        value := value / 8;
        exp := exp + 1;
      }
    }
    c := exp * 8192 + value;
    assert Packs(c, Exponent(v), m);
  }

  /** `c` is a code of `v`: some fraction packs to it, exact under exponent 0 and else the nearest. */
  ghost predicate Encodes(v: nat, c: nat) {
    exists m :: Packs(c, Exponent(v), m) && (if Exponent(v) == 0 then m == v else Nearest(v, Pow8(Exponent(v)), m))
  }

  lemma NearestOrdered(v: nat, w: nat, unit: nat, m: nat, n: nat)
    requires v <= w && unit > 0 && Nearest(v, unit, m) && Nearest(w, unit, n)
    ensures m <= n
  {
    assert (n + 1) * unit == n * unit + unit;
    if n < m { TimesMonotone(n + 1, m, unit); }
  }

  /** A positive exponent means a value of at least 1024 and less than 8192 units. */
  lemma {:induction false} ExponentBounds(v: nat)
    ensures v < 8192 * Pow8(Exponent(v))
    ensures Exponent(v) > 0 ==> 1024 * Pow8(Exponent(v)) <= v
  {
    if v > MAXFRACT {
      ExponentBounds(v / 8);
      var p := Pow8(Exponent(v / 8));
      assert Exponent(v / 8) == 0 ==> p == 1;
      assert v / 8 <= 8192 * p - 1;
    }
  }

  lemma {:induction false} ExponentMonotone(v: nat, w: nat)
    requires v <= w
    ensures Exponent(v) <= Exponent(w)
  {
    if v > MAXFRACT { ExponentMonotone(v / 8, w / 8); }
  }

  lemma FractionBounds(v: nat, m: nat)
    requires if Exponent(v) == 0 then m == v else Nearest(v, Pow8(Exponent(v)), m)
    ensures m <= 8192 && (Exponent(v) > 0 ==> 1024 <= m)
  {
    ExponentBounds(v);
    var p := Pow8(Exponent(v));
    if m > 8192 { TimesMonotone(8193, m, p); }
    if m < 1024 { TimesMonotone(m, 1023, p); }
  }

  lemma PackedValue(c: nat, e: nat, m: nat)
    requires Packs(c, e, m)
    ensures Decode(c) == m * Pow8(e)
  {
    if m == 8192 {
      assert c / 8192 == e + 1 && c % 8192 == 1024;
      assert 1024 * (8 * Pow8(e)) == 8192 * Pow8(e);
    } else {
      assert c / 8192 == e && c % 8192 == m;
    }
  }

  /** Theorem: decoding gives the value back up to half a unit, which is at most one part in 2048; values that
      fit the fraction come back exactly. */
  lemma RoundTrip(v: nat, c: nat)
    requires Encodes(v, c)
    ensures exists m :: Decode(c) == m * Pow8(Exponent(v))
    ensures 2 * Decode(c) <= 2 * v + Pow8(Exponent(v)) && 2 * v <= 2 * Decode(c) + Pow8(Exponent(v))
    ensures 2048 * (v - Decode(c)) <= v && 2048 * (Decode(c) - v) <= v
    ensures v <= MAXFRACT ==> Decode(c) == v
  {
    var e, p := Exponent(v), Pow8(Exponent(v));
    var m :| Packs(c, e, m) && (if e == 0 then m == v else Nearest(v, p, m));
    PackedValue(c, e, m);
    ExponentBounds(v);
  }

  /** Theorem: the encoding is monotone. */
  lemma Monotone(v: nat, c: nat, w: nat, d: nat)
    requires v <= w && Encodes(v, c) && Encodes(w, d)
    ensures c <= d
  {
    var e, f := Exponent(v), Exponent(w);
    var m :| Packs(c, e, m) && (if e == 0 then m == v else Nearest(v, Pow8(e), m));
    var n :| Packs(d, f, n) && (if f == 0 then n == w else Nearest(w, Pow8(f), n));
    ExponentMonotone(v, w);
    FractionBounds(v, m);
    FractionBounds(w, n);
    if e == f && e > 0 { NearestOrdered(v, w, Pow8(e), m, n); }
  }

  /** Theorem: the code fits the 16 bits of a comp_t exactly for values below 2^34 - 2^20, so for every value of
      32 bits. */
  lemma FitsExactly(v: nat, c: nat)
    requires Encodes(v, c)
    ensures c < 65536 <==> v < 0x4_0000_0000 - 0x10_0000
  {
    var e, p := Exponent(v), Pow8(Exponent(v));
    var m :| Packs(c, e, m) && (if e == 0 then m == v else Nearest(v, p, m));
    FractionBounds(v, m);
    ExponentBounds(v);
    assert Pow8(7) == 0x20_0000;
    if e >= 8 {
      PowGrows(8, e);
      assert Pow8(8) == 0x100_0000;
    } else {
      PowGrows(e, 7);
      if e < 7 { PowGrows(e, 6); }
    }
  }

  /** The least value that does not fit: it is 8191.5 units of 8^7, and rounding carries into an eighth exponent. */
  lemma FirstOverflow()
    ensures Encodes(0x4_0000_0000 - 0x10_0000, 8 * 8192 + 1024)
  {
    var v := 0x4_0000_0000 - 0x10_0000;
    assert Exponent(0xfffc) == 1 && Exponent(0x7_ffe0) == 2 && Exponent(0x3f_ff00) == 3;
    assert Exponent(0x1ff_f800) == 4 && Exponent(0xfff_c000) == 5 && Exponent(0x7ffe_0000) == 6;
    assert Exponent(v) == 7 && Pow8(7) == 0x20_0000;
    assert Nearest(v, Pow8(7), 8192) && Packs(8 * 8192 + 1024, 7, 8192);
  }

  lemma {:induction false} PowGrows(a: nat, b: nat)
    requires a <= b
    ensures Pow8(a) <= Pow8(b)
  {
    if a < b { PowGrows(a, b - 1); }
  }
}
