/**
 * Character classes and string scanning used by the record parser of
 * output.py: Python's notion of whitespace (shared by `str.strip()` and the
 * `\s` class of a `str` regular expression), ASCII digit runs, and decimal
 * numerals of the form `[0-9]+(\.[0-9]+)?`.  Scanning works on the suffix
 * that is still to be read, the way a regular-expression engine consumes
 * its subject.
 */
module Text {
  import opened Wrappers

  /** Python's `str.isspace()`; `\s` in a `str` pattern matches exactly these code points. */
  predicate IsSpace(c: char) {
    var n := c as int;
    (9 <= n <= 13) || (28 <= n <= 32) || n == 0x85 || n == 0xA0 || n == 0x1680
    || (0x2000 <= n <= 0x200A) || n == 0x2028 || n == 0x2029 || n == 0x202F
    || n == 0x205F || n == 0x3000
  }

  /** The character class `[0-9]`. */
  predicate IsDigit(c: char) {
    '0' <= c <= '9'
  }

  lemma DigitNotSpace(c: char)
    requires IsDigit(c)
    ensures !IsSpace(c)
  {
    assert '0' as int <= c as int <= '9' as int;
  }

  /** The two character classes the patterns repeat: `\s` and `[0-9]`. */
  datatype Class = Space | Digit

  predicate InClass(c: char, cls: Class) {
    match cls
    case Space => IsSpace(c)
    case Digit => IsDigit(c)
  }

  /** Every character of `s` is in `cls`. */
  predicate All(s: string, cls: Class) {
    s == [] || (InClass(s[0], cls) && All(s[1..], cls))
  }

  /** `s` does not start with a character of `cls`. */
  predicate Stops(s: string, cls: Class) {
    s == [] || !InClass(s[0], cls)
  }

  /** Splits `t` into its longest prefix in `cls` (a greedy `cls*`) and the rest. */
  function Span(t: string, cls: Class): (r: (string, string))
    ensures t == r.0 + r.1 && All(r.0, cls) && Stops(r.1, cls)
  {
    if t == [] || !InClass(t[0], cls) then ([], t)
    else
      var (run, rest) := Span(t[1..], cls);
      assert ([t[0]] + run)[1..] == run;
      ([t[0]] + run, rest)
  }

  /** The greedy split is the only split into a run of `cls` and a rest that does not continue it. */
  lemma {:induction false} SpanOf(run: string, rest: string, cls: Class)
    requires All(run, cls) && Stops(rest, cls)
    ensures Span(run + rest, cls) == (run, rest)
  {
    if run == [] {
      assert run + rest == rest;
    } else {
      var t := run + rest;
      assert t[0] == run[0] && t[1..] == run[1..] + rest;
      SpanOf(run[1..], rest, cls);
      assert [run[0]] + run[1..] == run;
    }
  }

  /** `str.rstrip()` on the whitespace class: drops trailing whitespace. */
  function TrimEnd(s: string): (r: string)
    ensures |r| <= |s| && r == s[..|r|] && All(s[|r|..], Space)
    ensures r == [] || !IsSpace(r[|r| - 1])
  {
    if s == [] || !IsSpace(s[|s| - 1]) then
      assert s[|s|..] == [];
      s
    else
      var t := TrimEnd(s[..|s| - 1]);
      assert s[|t|..] == s[|t|..|s| - 1] + [s[|s| - 1]];
      AllAppend(s[|t|..|s| - 1], [s[|s| - 1]], Space);
      t
  }

  lemma {:induction false} AllAppend(a: string, b: string, cls: Class)
    requires All(a, cls) && All(b, cls)
    ensures All(a + b, cls)
  {
    if a == [] {
      assert a + b == b;
    } else {
      assert (a + b)[0] == a[0] && (a + b)[1..] == a[1..] + b;
      AllAppend(a[1..], b, cls);
    }
  }

  /**
   * `str.strip()`: `s` is leading whitespace, the result, trailing
   * whitespace; the result is empty or starts and ends with a non-space.
   */
  function Strip(s: string): (r: string)
    ensures exists lead, trail :: s == lead + r + trail && All(lead, Space) && All(trail, Space)
    ensures r == [] || (!IsSpace(r[0]) && !IsSpace(r[|r| - 1]))
  {
    var t := Span(s, Space).1;
    StripFacts(s, t, TrimEnd(t));
    TrimEnd(t)
  }

  lemma StripFacts(s: string, t: string, r: string)
    requires t == Span(s, Space).1 && r == TrimEnd(t)
    ensures s == Span(s, Space).0 + r + t[|r|..]
    ensures r == [] || (!IsSpace(r[0]) && !IsSpace(r[|r| - 1]))
  {
    SplitAt(t, |r|);
    Assoc(Span(s, Space).0, r, t[|r|..]);
    assert r != [] ==> r[0] == t[0] && !InClass(t[0], Space);
  }

  /** Sequence identities the scanners need spelled out. */
  lemma SplitAt(s: string, k: nat)
    requires k <= |s|
    ensures s == s[..k] + s[k..]
  {
  }

  lemma PrefixSplit(p: string, s: string)
    requires p <= s
    ensures s == p + s[|p|..]
  {
    assert s[..|p|] == p;
    SplitAt(s, |p|);
  }

  lemma Assoc(a: string, b: string, c: string)
    ensures a + (b + c) == a + b + c
  {
  }

  /** Concatenation regrouped from the right to the left. */
  lemma Regroup(a: string, b: string, c: string, d: string, e: string)
    ensures a + (b + (c + (d + e))) == a + b + c + d + e
  {
  }

  /** Index of the first occurrence of `c` in `s` (where `str.split(c, 1)` cuts). */
  function IndexOf(s: string, c: char): (k: nat)
    requires c in s
    ensures k < |s| && s[k] == c && c !in s[..k]
  {
    if s[0] == c then 0
    else
      var k := IndexOf(s[1..], c);
      assert s[..k + 1] == [s[0]] + s[1..][..k];
      k + 1
  }

  function Pow10(n: nat): (r: nat)
    ensures r >= 1
  {
    if n == 0 then 1 else 10 * Pow10(n - 1)
  }

  /** The natural number written by a string of decimal digits. */
  function NatOf(d: string): (r: nat)
    requires All(d, Digit)
    ensures r < Pow10(|d|)
  {
    if d == [] then 0
    else
      var v := NatOf(d[1..]);
      var digit := (d[0] as int) - ('0' as int);
      DigitPlace(digit, Pow10(|d| - 1), v);
      digit * Pow10(|d| - 1) + v
  }

  lemma DigitPlace(digit: nat, p: nat, v: nat)
    requires digit <= 9 && v < p
    ensures digit * p + v < 10 * p
  {
    assert digit * p <= 9 * p;
  }

  lemma {:induction false} Pow10Add(m: nat, n: nat)
    ensures Pow10(m + n) == Pow10(m) * Pow10(n)
  {
    if m > 0 {
      Pow10Add(m - 1, n);
      assert Pow10(m + n) == 10 * Pow10(m - 1 + n);
    }
  }

  /**
   * Digit strings concatenate as place values: the digits of `a` are
   * shifted left past those of `b`.
   */
  lemma {:induction false} NatOfConcat(a: string, b: string)
    requires All(a, Digit) && All(b, Digit)
    ensures All(a + b, Digit) && NatOf(a + b) == NatOf(a) * Pow10(|b|) + NatOf(b)
  {
    AllAppend(a, b, Digit);
    if a == [] {
      assert a + b == b;
    } else {
      var ab := a + b;
      assert ab[0] == a[0] && ab[1..] == a[1..] + b;
      NatOfConcat(a[1..], b);
      Pow10Add(|a| - 1, |b|);
      var digit, p, q := (a[0] as int) - ('0' as int), Pow10(|a| - 1), Pow10(|b|);
      var x, y := NatOf(a[1..]), NatOf(b);
      LeadingDigit(ab);
      LeadingDigit(a);
      assert |ab| - 1 == |a| - 1 + |b|;
      PlaceShift(digit, p, q, x, y, NatOf(ab), NatOf(a));
    }
  }

  /** A non-empty digit string is its first digit at its place plus the rest. */
  lemma LeadingDigit(s: string)
    requires s != [] && All(s, Digit)
    ensures NatOf(s) == ((s[0] as int) - ('0' as int)) * Pow10(|s| - 1) + NatOf(s[1..])
  {
  }

  lemma PlaceShift(digit: int, p: int, q: int, x: int, y: int, whole: int, lead: int)
    requires whole == digit * (p * q) + (x * q + y) && lead == digit * p + x
    ensures whole == lead * q + y
  {
    assert digit * (p * q) == (digit * p) * q;
  }

  /** Reading digits left to right: one more digit multiplies by ten and adds it. */
  lemma NatOfAppend(d: string, c: char)
    requires All(d, Digit) && IsDigit(c)
    ensures All(d + [c], Digit) && NatOf(d + [c]) == 10 * NatOf(d) + (c as int - '0' as int)
  {
    assert All([c], Digit) by { assert [c][1..] == []; }
    NatOfConcat(d, [c]);
    assert NatOf([c]) == c as int - '0' as int by { assert [c][1..] == []; }
  }

  /** A product of integers cast to a real is the product of the casts. */
  lemma CastMul(a: nat, b: nat)
    ensures (a * b) as real == a as real * b as real
  {
  }

  /** An integer `w·q + f` over a positive `q` is `w + f / q` in the reals. */
  lemma PlaceQuotient(w: nat, q: nat, f: nat, wf: nat)
    requires q > 0 && wf == w * q + f
    ensures wf as real / q as real == w as real + f as real / q as real
  {
    CastMul(w, q);
    ShiftedQuotient(w as real, f as real, q as real);
  }

  /** `(w·q + f) / q` is `w + f / q` for a positive `q`. */
  lemma ShiftedQuotient(w: real, f: real, q: real)
    requires q > 0.0
    ensures (w * q + f) / q == w + f / q
  {
    assert (w * q + f) / q * q == w * q + f;
    assert (w + f / q) * q == w * q + f;
  }

  /** A numeral `whole(.frac)?` as matched by `[0-9]+(?:\.[0-9]+)?`. */
  datatype Numeral = Numeral(whole: string, frac: string)

  predicate WellFormed(n: Numeral) {
    n.whole != [] && All(n.whole, Digit) && All(n.frac, Digit)
  }

  /** The numeral as it is written. */
  function Spell(n: Numeral): string {
    n.whole + (if n.frac == [] then [] else ['.'] + n.frac)
  }

  lemma FractionBelowOne(x: real, q: real)
    requires 0.0 <= x < q
    ensures 0.0 <= x / q < 1.0
  {
    assert x / q * q == x;
  }

  /** What `float()` makes of the numeral, exactly (no rounding to binary64): its whole part plus a fraction below one. */
  function Value(n: Numeral): (r: real)
    requires WellFormed(n)
    ensures NatOf(n.whole) as real <= r < NatOf(n.whole) as real + 1.0
  {
    FractionBelowOne(NatOf(n.frac) as real, Pow10(|n.frac|) as real);
    NatOf(n.whole) as real + NatOf(n.frac) as real / Pow10(|n.frac|) as real
  }

  /**
   * The value of a numeral is its digits read as one integer, divided by
   * ten to the number of fractional digits: `12.5` is 125/10.
   */
  lemma ValueAsFraction(n: Numeral)
    requires WellFormed(n)
    ensures All(n.whole + n.frac, Digit)
            && Value(n) == NatOf(n.whole + n.frac) as real / Pow10(|n.frac|) as real
  {
    NatOfConcat(n.whole, n.frac);
    PlaceQuotient(NatOf(n.whole), Pow10(|n.frac|), NatOf(n.frac), NatOf(n.whole + n.frac));
  }

  /** `12.5` reads as twelve and a half. */
  lemma ValueExample()
    ensures Value(Numeral("12", "5")) == 12.5
  {
    assert NatOf("12") == 12 by { assert "12"[1..] == "2" && "2"[1..] == []; }
    assert NatOf("5") == 5 by { assert "5"[1..] == []; }
  }

  /** `007.50` reads as 7.5: leading and trailing zeros change nothing. */
  lemma ZerosExample()
    ensures Value(Numeral("007", "50")) == 7.5
  {
    assert NatOf("007") == 7 by { assert "007"[1..] == "07" && "07"[1..] == "7" && "7"[1..] == []; }
    assert NatOf("50") == 50 by { assert "50"[1..] == "0" && "0"[1..] == []; }
  }

  /**
   * What follows a numeral `n` cannot extend it: it does not start with a
   * digit and, when `n` has no fractional part, it does not start with a
   * point followed by a digit either.
   */
  predicate Ends(rest: string, n: Numeral) {
    Stops(rest, Digit) && (n.frac != [] || rest == [] || rest[0] != '.' || Stops(rest[1..], Digit))
  }

  /**
   * Greedy match of `[0-9]+(?:\.[0-9]+)?` at the start of `t`: the maximal
   * digit run and, when a point followed by a digit comes next, the maximal
   * fractional run; returns the numeral and what follows it.
   */
  function ScanNumeral(t: string): (r: Option<(Numeral, string)>)
    ensures r.None? <==> Stops(t, Digit)
    ensures r.Some? ==> WellFormed(r.value.0) && t == Spell(r.value.0) + r.value.1 && Ends(r.value.1, r.value.0)
  {
    var (whole, rest) := Span(t, Digit);
    if whole == [] then None
    else if rest != [] && rest[0] == '.' && !Stops(rest[1..], Digit) then
      var (frac, after) := Span(rest[1..], Digit);
      assert rest == ['.'] + frac + after;
      Some((Numeral(whole, frac), after))
    else
      Some((Numeral(whole, []), rest))
  }

  /** A well-formed numeral followed by a properly ending rest is scanned back exactly. */
  lemma ScanSpelled(n: Numeral, rest: string)
    requires WellFormed(n) && Ends(rest, n)
    ensures ScanNumeral(Spell(n) + rest) == Some((n, rest))
  {
    var t := Spell(n) + rest;
    if n.frac == [] {
      assert t == n.whole + rest;
      SpanOf(n.whole, rest, Digit);
    } else {
      var after := ['.'] + n.frac + rest;
      assert t == n.whole + after;
      SpanOf(n.whole, after, Digit);
      assert after[1..] == n.frac + rest;
      SpanOf(n.frac, rest, Digit);
    }
  }
}
