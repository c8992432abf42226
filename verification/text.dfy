/** String primitives with the semantics of the Java and JavaScript library
    calls the source uses: integer printing, `String.join`/`split`, `indexOf`,
    `startsWith`, Java’s `trim`, fixed-point formatting (`%.Nf`, `toFixed`)
    and `encodeURIComponent`. */
module Text {
  import opened Numeric

  predicate IsDigit(c: char) {
    '0' <= c <= '9'
  }

  predicate AllDigits(s: string) {
    forall i | 0 <= i < |s| :: IsDigit(s[i])
  }

  function DigitChar(d: nat): (c: char)
    requires d < 10
    ensures IsDigit(c)
    ensures c as int - '0' as int == d
  {
    ('0' as int + d) as char
  }

  /** Decimal rendering of a natural number, most significant digit first. */
  function NatToString(n: nat): (s: string)
    ensures |s| >= 1
    ensures AllDigits(s)
  {
    if n < 10 then [DigitChar(n)] else NatToString(n / 10) + [DigitChar(n % 10)]
  }

  /** Java `%d` and JavaScript template interpolation of an integer. */
  function IntToString(i: int): (s: string)
    ensures |s| >= 1
    ensures i >= 0 ==> s == NatToString(i)
    ensures i < 0 ==> s == "-" + NatToString(-i)
  {
    if i < 0 then "-" + NatToString(-i) else NatToString(i)
  }

  /** The number a string of decimal digits denotes. */
  function DigitsValue(s: string): (v: int)
    ensures AllDigits(s) ==> v >= 0
  {
    if |s| == 0 then 0 else 10 * DigitsValue(s[..|s| - 1]) + (s[|s| - 1] as int - '0' as int)
  }

  /** Printing a number and reading it back gives the number. */
  lemma {:induction false} NatToStringValue(n: nat)
    ensures DigitsValue(NatToString(n)) == n
  {
    if n >= 10 {
      NatToStringValue(n / 10);
      var s := NatToString(n);
      assert s[..|s| - 1] == NatToString(n / 10);
    }
  }

  /** `parts.join(sep)` */
  function Join(sep: string, parts: seq<string>): string {
    if |parts| == 0 then ""
    else if |parts| == 1 then parts[0]
    else parts[0] + sep + Join(sep, parts[1..])
  }

  /** Concatenation without separator. */
  function Concat(parts: seq<string>): string {
    if |parts| == 0 then "" else parts[0] + Concat(parts[1..])
  }

  /** Appending a part appends its text. */
  lemma {:induction false} ConcatSnoc(parts: seq<string>, s: string)
    ensures Concat(parts + [s]) == Concat(parts) + s
  {
    if |parts| == 0 {
      assert parts + [s] == [s];
      assert [s][1..] == [];
    } else {
      assert (parts + [s])[1..] == parts[1..] + [s];
      ConcatSnoc(parts[1..], s);
    }
  }

  /** The position of the first `c` in `s`. */
  function FirstIndex(s: string, c: char): (i: nat)
    requires c in s
    ensures i < |s| && s[i] == c && c !in s[..i]
  {
    if s[0] == c then 0 else 1 + FirstIndex(s[1..], c)
  }

  /** `s.split(c)`: the maximal pieces between occurrences of `c`. */
  function Split(s: string, c: char): (parts: seq<string>)
    ensures |parts| >= 1
    decreases |s|
  {
    if c !in s then [s]
    else
      var i := FirstIndex(s, c);
      [s[..i]] + Split(s[i + 1..], c)
  }

  predicate NoneContains(parts: seq<string>, c: char) {
    forall k | 0 <= k < |parts| :: c !in parts[k]
  }

  /** Splitting a joined list at its separator gives the list back, provided
      no piece contains the separator. */
  lemma {:induction false} SplitJoin(parts: seq<string>, c: char)
    requires |parts| >= 1
    requires NoneContains(parts, c)
    ensures Split(Join([c], parts), c) == parts
  {
    if |parts| > 1 {
      var rest := Join([c], parts[1..]);
      var s := Join([c], parts);
      assert s == parts[0] + [c] + rest;
      assert c in s by { assert s[|parts[0]|] == c; }
      FirstIndexAfter(parts[0], rest, c);
      assert s[..|parts[0]|] == parts[0];
      assert s[|parts[0]| + 1..] == rest;
      SplitJoin(parts[1..], c);
    } else {
      assert parts[0] in parts;
    }
  }

  lemma FirstIndexAfter(p: string, q: string, c: char)
    requires c !in p
    ensures c in p + [c] + q
    ensures FirstIndex(p + [c] + q, c) == |p|
  {
    var s := p + [c] + q;
    assert s[|p|] == c;
    assert s[..|p|] == p;
  }

  /** A joined list of `n` separator-free pieces holds exactly `n - 1`
      separators. */
  lemma {:induction false} JoinSeparatorCount(parts: seq<string>, c: char)
    requires |parts| >= 1
    requires NoneContains(parts, c)
    ensures multiset(Join([c], parts))[c] == |parts| - 1
  {
    assert c !in parts[0] by { assert parts[0] in parts; }
    assert multiset(parts[0])[c] == 0;
    if |parts| > 1 {
      JoinSeparatorCount(parts[1..], c);
      assert Join([c], parts) == parts[0] + [c] + Join([c], parts[1..]);
    }
  }

  /** Appending a piece to a non-empty list appends the separator and the
      piece to the joined text. */
  lemma {:induction false} JoinSnoc(sep: string, parts: seq<string>, x: string)
    requires |parts| >= 1
    ensures Join(sep, parts + [x]) == Join(sep, parts) + sep + x
  {
    if |parts| > 1 {
      assert (parts + [x])[1..] == parts[1..] + [x];
      JoinSnoc(sep, parts[1..], x);
    } else {
      assert parts + [x] == [parts[0], x];
    }
  }

  /** The usual builder loop: append each part, and the separator after
      every part but the last. */
  method AppendJoined(sep: string, parts: seq<string>) returns (r: string)
    ensures r == Join(sep, parts)
  {
    r := "";
    var i := 0;
    while i < |parts|
      invariant 0 <= i <= |parts|
      invariant r == Join(sep, parts[..i]) + (if 0 < i < |parts| then sep else "")
    {
      if i > 0 {
        assert parts[..i + 1] == parts[..i] + [parts[i]];
        JoinSnoc(sep, parts[..i], parts[i]);
      } else {
        assert parts[..1] == [parts[0]];
      }
      r := r + parts[i];
      assert r == Join(sep, parts[..i + 1]);
      if i < |parts| - 1 {
        r := r + sep;
      }
      i := i + 1;
    }
    assert parts[..|parts|] == parts;
  }

  lemma JoinPair(sep: string, a: string, b: string)
    ensures Join(sep, [a, b]) == a + sep + b
  {
    assert [a, b][1..] == [b];
  }

  lemma JoinNoChar(sep: string, parts: seq<string>, c: char)
    requires c !in sep
    requires NoneContains(parts, c)
    ensures c !in Join(sep, parts)
  {
    if |parts| > 1 {
      assert c !in parts[0];
      JoinNoChar(sep, parts[1..], c);
    } else if |parts| == 1 {
      assert c !in parts[0];
    }
  }

  // ---------------------------------------------------------------------
  // Substring search

  /** `pat` occurs in `s` at position `k`. */
  predicate MatchAt(s: string, pat: string, k: int) {
    0 <= k && k + |pat| <= |s| && s[k..k + |pat|] == pat
  }

  /** A one-character pattern matches exactly where that character is. */
  lemma MatchOne(s: string, c: char)
    ensures forall k :: MatchAt(s, [c], k) <==> 0 <= k < |s| && s[k] == c
  {
    forall k ensures MatchAt(s, [c], k) <==> 0 <= k < |s| && s[k] == c {
      if 0 <= k < |s| {
        assert s[k..k + 1] == [s[k]];
      }
    }
  }

  /** Java `s.indexOf(pat, from)` and JavaScript `s.indexOf(pat, from)`: the
      first occurrence at or after `from`, or -1. */
  function IndexOf(s: string, pat: string, from: nat): (r: int)
    ensures r == -1 || (from <= r && MatchAt(s, pat, r))
    ensures r == -1 ==> forall k | from <= k :: !MatchAt(s, pat, k)
    ensures r >= 0 ==> forall k | from <= k < r :: !MatchAt(s, pat, k)
    decreases |s| - from
  {
    if from + |pat| > |s| then -1
    else if s[from..from + |pat|] == pat then from
    else IndexOf(s, pat, from + 1)
  }

  /** The first match at or after `from` is the answer. */
  lemma {:induction false} IndexOfIs(s: string, pat: string, from: nat, r: nat)
    requires from <= r && MatchAt(s, pat, r)
    requires forall k | from <= k < r :: !MatchAt(s, pat, k)
    ensures IndexOf(s, pat, from) == r
    decreases r - from
  {
    if from < r {
      assert !MatchAt(s, pat, from);
      IndexOfIs(s, pat, from + 1, r);
    }
  }

  /** One differing character rules a position out. */
  lemma Mismatch(s: string, pat: string, k: nat, j: nat)
    requires j < |pat| && (k + j >= |s| || s[k + j] != pat[j])
    ensures !MatchAt(s, pat, k)
  {
    if k + |pat| <= |s| {
      assert s[k..k + |pat|][j] == s[k + j];
    }
  }

  /** Looking for one character: the first position at or after `from`
      holding it. */
  lemma IndexOfChar(s: string, c: char, from: nat, e: nat)
    requires from <= e < |s| && s[e] == c
    requires forall k | from <= k < e :: s[k] != c
    ensures IndexOf(s, [c], from) == e
  {
    forall k | from <= k < e
      ensures !MatchAt(s, [c], k)
    {
      Mismatch(s, [c], k, 0);
    }
    assert s[e..e + 1] == [c];
    IndexOfIs(s, [c], from, e);
  }

  /** `s.contains(pat)` */
  predicate Contains(s: string, pat: string) {
    IndexOf(s, pat, 0) >= 0
  }

  /** `s.startsWith(p)` */
  predicate StartsWith(s: string, p: string) {
    MatchAt(s, p, 0)
  }

  /** A prefix stays a prefix when more text follows. */
  lemma StartsWithAppend(s: string, t: string, p: string)
    requires StartsWith(s, p)
    ensures StartsWith(s + t, p)
  {
    assert (s + t)[..|p|] == s[..|p|];
  }

  // ---------------------------------------------------------------------
  // Java String.trim: removes leading and trailing characters up to the space

  function TrimStart(s: string): (r: string)
    ensures |r| <= |s| && r == s[|s| - |r|..]
    ensures |r| > 0 ==> r[0] > ' '
    ensures forall i | 0 <= i < |s| - |r| :: s[i] <= ' '
  {
    if |s| > 0 && s[0] <= ' ' then TrimStart(s[1..]) else s
  }

  function TrimEnd(s: string): (r: string)
    ensures |r| <= |s| && r == s[..|r|]
    ensures |r| > 0 ==> r[|r| - 1] > ' '
    ensures forall i | |r| <= i < |s| :: s[i] <= ' '
  {
    if |s| > 0 && s[|s| - 1] <= ' ' then TrimEnd(s[..|s| - 1]) else s
  }

  /** `r` is the piece of `s` that starts at `i`. */
  predicate SliceAt(r: string, s: string, i: int) {
    0 <= i && i + |r| <= |s| && r == s[i..i + |r|]
  }

  lemma SliceOfSuffix(s: string, a: string, b: string)
    requires |a| <= |s| && a == s[|s| - |a|..]
    requires |b| <= |a| && b == a[..|b|]
    ensures SliceAt(b, s, |s| - |a|)
  {
    var k := |s| - |a|;
    forall j | 0 <= j < |b| ensures b[j] == s[k + j] {
      assert b[j] == a[j];
    }
  }

  /** Nothing to trim: both ends are already above the space. */
  lemma TrimKeeps(s: string)
    ensures |s| > 0 && s[0] > ' ' ==> TrimStart(s) == s
    ensures |s| > 0 && s[|s| - 1] > ' ' ==> TrimEnd(s) == s
  {
  }

  function JavaTrim(s: string): (r: string)
    ensures |r| > 0 ==> r[0] > ' ' && r[|r| - 1] > ' '
    ensures exists i :: SliceAt(r, s, i)
    ensures (|s| == 0 || (s[0] > ' ' && s[|s| - 1] > ' ')) ==> r == s
  {
    var a := TrimStart(s);
    var b := TrimEnd(a);
    SliceOfSuffix(s, a, b);
    TrimKeeps(s);
    b
  }
  /** Java `trim` pinned down: for any cut points with only characters up to
      the space before `k` and from `m` on, and the kept piece starting and
      ending above the space (or nothing kept when all of `s` is such
      characters), the trim is exactly `s[k..m]`. */
  lemma JavaTrimIs(s: string, k: nat, m: nat)
    requires k <= m <= |s|
    requires forall i | 0 <= i < k :: s[i] <= ' '
    requires forall i | m <= i < |s| :: s[i] <= ' '
    requires k < m ==> s[k] > ' ' && s[m - 1] > ' '
    requires k == m ==> forall i | 0 <= i < |s| :: s[i] <= ' '
    ensures JavaTrim(s) == s[k..m]
  {
    var a := TrimStart(s);
    if k < m {
      assert a == s[k..];
      assert TrimEnd(a) == s[k..m];
    }
  }



  // ---------------------------------------------------------------------
  // Fixed-point formatting: Java `String.format("%.Nf", x)` (HALF_UP) and
  // JavaScript `x.toFixed(N)` (the larger candidate on ties), which agree on
  // exact values: the magnitude is rounded half up and the sign is kept.

  predicate IsFixedChar(c: char) {
    IsDigit(c) || c == '-' || c == '.'
  }

  function PadLeft(s: string, width: nat): (r: string)
    ensures |r| == if |s| >= width then |s| else width
    ensures AllDigits(s) ==> AllDigits(r)
    decreases width - |s|
  {
    if |s| >= width then s else PadLeft("0" + s, width)
  }

  function Fixed(x: real, decimals: nat): (s: string)
    ensures forall i | 0 <= i < |s| :: IsFixedChar(s[i])
    ensures |s| >= 1
  {
    WithSign(x < 0.0, FixedMagnitude(ScaledMagnitude(x, decimals), decimals))
  }

  /** `v` is `x` to within half a unit in the `decimals`-th place. */
  predicate WithinHalfUnit(v: real, x: real, decimals: nat) {
    Abs(v - x) <= 0.5 / Pow10(decimals) as real
  }

  /** `u` behind a minus sign when `negative`. */
  function WithSign(negative: bool, u: string): string {
    (if negative then "-" else "") + u
  }

  /** `|x|` in units of the last printed place, rounded half up. */
  function ScaledMagnitude(x: real, decimals: nat): (n: nat)
    ensures WithinHalfUnit(n as real / Pow10(decimals) as real, Abs(x), decimals)
  {
    var scale := Pow10(decimals);
    var y := Abs(x);
    RoundScaled(y, scale);
    Round(y * scale as real)
  }

  /** Text of the form `[-]digits[.digits]`. */
  predicate IsDecimal(s: string) {
    var u := if |s| > 0 && s[0] == '-' then s[1..] else s;
    |u| > 0 && AllDigitsOrPoint(u) && multiset(u)['.'] <= 1
  }

  predicate AllDigitsOrPoint(s: string) {
    forall i | 0 <= i < |s| :: IsDigit(s[i]) || s[i] == '.'
  }

  /** The number that unsigned decimal text denotes: the digits before the
      first point, plus the digits after it scaled down. */
  function UnsignedValue(u: string): real {
    if '.' in u then
      var k := FirstIndex(u, '.');
      DigitsValue(u[..k]) as real + DigitsValue(u[k + 1..]) as real / Pow10(|u| - k - 1) as real
    else
      DigitsValue(u) as real
  }

  /** The number that decimal text denotes. */
  function DecimalValue(s: string): real {
    if |s| > 0 && s[0] == '-' then -UnsignedValue(s[1..]) else UnsignedValue(s)
  }

  lemma {:induction false} PadLeftValue(s: string, width: nat)
    requires AllDigits(s)
    ensures DigitsValue(PadLeft(s, width)) == DigitsValue(s)
    decreases width - |s|
  {
    if |s| < width {
      LeadingZero(s);
      PadLeftValue("0" + s, width);
    }
  }

  lemma {:induction false} LeadingZero(s: string)
    requires AllDigits(s)
    ensures AllDigits("0" + s) && DigitsValue("0" + s) == DigitsValue(s)
    decreases |s|
  {
    if |s| > 0 {
      var t := "0" + s;
      assert t[..|t| - 1] == "0" + s[..|s| - 1];
      LeadingZero(s[..|s| - 1]);
    }
  }

  /** `whole.frac` with separator-free digit strings has one point, right
      after `whole`. */
  lemma PointedParts(whole: string, frac: string, u: string)
    requires AllDigits(whole) && AllDigits(frac)
    requires u == whole + "." + frac
    ensures AllDigitsOrPoint(u) && multiset(u)['.'] == 1
    ensures '.' in u && FirstIndex(u, '.') == |whole|
    ensures u[..|whole|] == whole && u[|whole| + 1..] == frac
  {
    NoPointInDigits(whole);
    NoPointInDigits(frac);
    assert multiset(u) == multiset(whole) + multiset(['.']) + multiset(frac);
    assert '.' in u by { assert u[|whole|] == '.'; }
    FirstIndexAfter(whole, frac, '.');
    assert u[..|whole|] == whole;
    assert u[|whole| + 1..] == frac;
  }

  /** `whole.frac` with separator-free digit strings reads as their value. */
  lemma PointedValue(whole: string, frac: string, u: string)
    requires AllDigits(whole) && AllDigits(frac)
    requires u == whole + "." + frac
    ensures AllDigitsOrPoint(u) && multiset(u)['.'] == 1
    ensures UnsignedValue(u) == DigitsValue(whole) as real + DigitsValue(frac) as real / Pow10(|frac|) as real
  {
    PointedParts(whole, frac, u);
    var k := |whole|;
    assert |u| - k - 1 == |frac|;
    assert UnsignedValue(u) == DigitsValue(u[..k]) as real + DigitsValue(u[k + 1..]) as real / Pow10(|u| - k - 1) as real;
  }

  /** The magnitude text `Fixed` prints for a rounded, scaled value `n`:
      the digits of `n`, zero-padded to more than `decimals` digits, with a
      point before the last `decimals` of them. */
  function FixedMagnitude(n: nat, decimals: nat): string {
    if decimals == 0 then NatToString(n) else InsertPoint(PadLeft(NatToString(n), decimals + 1), decimals)
  }

  /** `t` with a point before its last `decimals` characters. */
  function InsertPoint(t: string, decimals: nat): string
    requires |t| > decimals
  {
    t[..|t| - decimals] + "." + t[|t| - decimals..]
  }

  lemma NoPointInDigits(s: string)
    requires AllDigits(s)
    ensures '.' !in s
  {
    forall i | 0 <= i < |s| ensures s[i] != '.' {
      assert IsDigit(s[i]);
    }
  }

  lemma QuotientPlusFraction(n: nat, scale: nat, q: nat, r: nat)
    requires scale >= 1 && n == scale * q + r
    ensures q as real + r as real / scale as real == n as real / scale as real
  {
    calc {
      q as real + r as real / scale as real;
      == (q as real * scale as real + r as real) / scale as real;
      == n as real / scale as real;
    }
  }

  lemma ShiftDigit(x: int, p: int, y: int, d: int)
    ensures 10 * (x * p + y) + d == x * (10 * p) + (10 * y + d)
  {
  }

  lemma {:induction false} DigitsValueAppend(a: string, b: string)
    requires AllDigits(a) && AllDigits(b)
    ensures AllDigits(a + b)
    ensures DigitsValue(a + b) == DigitsValue(a) * Pow10(|b|) + DigitsValue(b)
    decreases |b|
  {
    if |b| > 0 {
      var b' := b[..|b| - 1];
      assert (a + b)[..|a + b| - 1] == a + b';
      DigitsValueAppend(a, b');
      var d := b[|b| - 1] as int - '0' as int;
      assert DigitsValue(a + b) == 10 * DigitsValue(a + b') + d;
      ShiftDigit(DigitsValue(a), Pow10(|b'|), DigitsValue(b'), d);
    } else {
      assert a + b == a;
    }
  }

  lemma WholeValue(n: nat, u: string)
    requires u == NatToString(n)
    ensures |u| > 0 && AllDigitsOrPoint(u) && multiset(u)['.'] == 0
    ensures UnsignedValue(u) == n as real
  {
    NatToStringValue(n);
    NoPointInDigits(u);
    assert multiset(u)['.'] == 0;
    assert UnsignedValue(u) == DigitsValue(u) as real;
  }

  lemma PointedMagnitudeValue(n: nat, decimals: nat, u: string)
    requires decimals >= 1
    requires u == FixedMagnitude(n, decimals)
    ensures |u| > 0 && AllDigitsOrPoint(u) && multiset(u)['.'] == 1
    ensures UnsignedValue(u) == n as real / Pow10(decimals) as real
  {
    var t := PadLeft(NatToString(n), decimals + 1);
    PaddedValue(n, decimals + 1, t);
    assert u == InsertPoint(t, decimals);
    InsertPointValue(t, decimals, u);
  }

  lemma InsertPointValue(t: string, decimals: nat, u: string)
    requires AllDigits(t) && |t| > decimals
    requires u == InsertPoint(t, decimals)
    ensures |u| > 0 && AllDigitsOrPoint(u) && multiset(u)['.'] == 1
    ensures UnsignedValue(u) == DigitsValue(t) as real / Pow10(decimals) as real
  {
    var k := |t| - decimals;
    SplitDigits(t, k, t[..k], t[k..]);
    var whole, frac := t[..k], t[k..];
    PointedValue(whole, frac, u);
    QuotientPlusFraction(DigitsValue(t), Pow10(decimals), DigitsValue(whole), DigitsValue(frac));
  }

  lemma PaddedValue(n: nat, width: nat, t: string)
    requires t == PadLeft(NatToString(n), width)
    ensures AllDigits(t) && |t| >= width && DigitsValue(t) == n
  {
    NatToStringValue(n);
    PadLeftValue(NatToString(n), width);
  }

  /** Both sides of a cut through a digit string are digit strings. */
  lemma DigitSlices(t: string, k: nat)
    requires AllDigits(t) && k <= |t|
    ensures AllDigits(t[..k]) && AllDigits(t[k..])
  {
    forall i | 0 <= i < |t[k..]| ensures IsDigit(t[k..][i]) {
      assert t[k..][i] == t[k + i];
    }
  }

  /** Cutting a digit string: the value is the head’s value shifted past
      the tail, plus the tail’s value. */
  lemma SplitDigits(t: string, k: nat, whole: string, frac: string)
    requires AllDigits(t) && k <= |t|
    requires whole == t[..k] && frac == t[k..]
    ensures AllDigits(whole) && AllDigits(frac)
    ensures DigitsValue(t) == DigitsValue(whole) * Pow10(|t| - k) + DigitsValue(frac)
  {
    DigitSlices(t, k);
    assert t == whole + frac;
    DigitsValueAppend(whole, frac);
  }

  /** Reading back a fixed-point rendering gives `x` to within half a unit
      in the last printed place. */
  lemma FixedValue(x: real, decimals: nat)
    ensures IsDecimal(Fixed(x, decimals))
    ensures WithinHalfUnit(DecimalValue(Fixed(x, decimals)), x, decimals)
  {
    var n := ScaledMagnitude(x, decimals);
    var u := FixedMagnitude(n, decimals);
    MagnitudeValue(n, decimals, u);
    SignedFixedValue(x, decimals, n, u, Fixed(x, decimals));
  }

  /** `s` is a decimal numeral followed by `unit`, and the numeral reads
      back as `x` to within half a unit in its last of `decimals` places. */
  predicate Labelled(s: string, unit: string, x: real, decimals: nat) {
    && |s| >= |unit| && s[|s| - |unit|..] == unit
    && IsDecimal(s[..|s| - |unit|])
    && WithinHalfUnit(DecimalValue(s[..|s| - |unit|]), x, decimals)
  }

  /** A fixed-point rendering followed by a unit: cutting the unit off
      gives back the number. */
  function FixedWithUnit(x: real, decimals: nat, unit: string): (s: string)
    ensures Labelled(s, unit, x, decimals)
  {
    var s := Fixed(x, decimals) + unit;
    FixedValue(x, decimals);
    assert s[..|s| - |unit|] == Fixed(x, decimals);
    s
  }

  lemma MagnitudeValue(n: nat, decimals: nat, u: string)
    requires u == FixedMagnitude(n, decimals)
    ensures |u| > 0 && AllDigitsOrPoint(u) && multiset(u)['.'] <= 1
    ensures UnsignedValue(u) == n as real / Pow10(decimals) as real
  {
    if decimals == 0 {
      WholeValue(n, u);
    } else {
      PointedMagnitudeValue(n, decimals, u);
    }
  }

  lemma SignedFixedValue(x: real, decimals: nat, n: nat, u: string, s: string)
    requires |u| > 0 && AllDigitsOrPoint(u) && multiset(u)['.'] <= 1
    requires UnsignedValue(u) == n as real / Pow10(decimals) as real
    requires WithinHalfUnit(n as real / Pow10(decimals) as real, Abs(x), decimals)
    requires s == WithSign(x < 0.0, u)
    ensures IsDecimal(s)
    ensures WithinHalfUnit(DecimalValue(s), x, decimals)
  {
    SignedValue(x < 0.0, u, s);
    FixedBound(x, n as real / Pow10(decimals) as real, 0.5 / Pow10(decimals) as real, DecimalValue(s));
  }

  /** Putting the sign of `x` back on a magnitude within `h` of `|x|`
      gives a value within `h` of `x`. */
  lemma FixedBound(x: real, m: real, h: real, v: real)
    requires Abs(m - Abs(x)) <= h
    requires v == if x < 0.0 then -m else m
    ensures Abs(v - x) <= h
  {
  }

  lemma SignedValue(negative: bool, u: string, s: string)
    requires |u| > 0 && AllDigitsOrPoint(u) && multiset(u)['.'] <= 1
    requires s == WithSign(negative, u)
    ensures IsDecimal(s)
    ensures DecimalValue(s) == if negative then -UnsignedValue(u) else UnsignedValue(u)
  {
    if negative {
      assert s[1..] == u;
    } else {
      assert s == u;
      assert u[0] != '-';
    }
  }

  lemma RoundScaled(y: real, scale: nat)
    requires y >= 0.0 && scale >= 1
    ensures Round(y * scale as real) >= 0
    ensures Abs(Round(y * scale as real) as real / scale as real - y) <= 0.5 / scale as real
  {
    var z := y * scale as real;
    var n := Round(z);
    assert n as real / scale as real - y == (n as real - z) / scale as real;
  }

  // ---------------------------------------------------------------------
  // Textual form of numbers whose exact digits the model leaves open
  // (JavaScript’s Number-to-string, Jackson’s number text): only the
  // character set is fixed.

  predicate IsNumeralChar(c: char) {
    IsDigit(c) || c == '-' || c == '+' || c == '.' || c == 'e' || c == 'E'
  }

  predicate IsNumeral(s: string) {
    forall i | 0 <= i < |s| :: IsNumeralChar(s[i])
  }

  /** A numeral has no blank at either end, so trimming keeps it. */
  lemma NumeralIsTrimmed(s: string)
    requires IsNumeral(s)
    ensures JavaTrim(s) == s
  {
    if |s| > 0 {
      assert IsNumeralChar(s[0]) && IsNumeralChar(s[|s| - 1]);
    }
  }

  /** A character outside the numeral alphabet never occurs in a numeral. */
  lemma NumeralHasNo(s: string, c: char)
    requires IsNumeral(s)
    requires !IsNumeralChar(c)
    ensures c !in s
  {
    forall k | 0 <= k < |s|
      ensures s[k] != c
    {
      assert IsNumeralChar(s[k]);
    }
  }

  type NumberFormat = f: real -> string | forall x :: IsNumeral(f(x)) witness (x: real) => "0"

  lemma FixedIsNumeral(x: real, decimals: nat)
    ensures IsNumeral(Fixed(x, decimals))
  {
  }

  // ---------------------------------------------------------------------
  // encodeURIComponent: unreserved characters pass through, every other
  // character becomes the %XX escapes of its UTF-8 bytes.

  predicate IsUnreserved(c: char) {
    ('A' <= c <= 'Z') || ('a' <= c <= 'z') || IsDigit(c)
    || c == '-' || c == '_' || c == '.' || c == '!' || c == '~' || c == '*' || c == '\'' || c == '(' || c == ')'
  }

  function HexChar(d: nat): (c: char)
    requires d < 16
    ensures IsHexChar(c)
  {
    if d < 10 then DigitChar(d) else ('A' as int + d - 10) as char
  }

  predicate IsHexChar(c: char) {
    IsDigit(c) || ('A' <= c <= 'F') || ('a' <= c <= 'f')
  }

  function HexValue(c: char): (d: nat)
    requires IsHexChar(c)
    ensures d < 16
  {
    if IsDigit(c) then c as int - '0' as int
    else if 'A' <= c <= 'F' then c as int - 'A' as int + 10
    else c as int - 'a' as int + 10
  }

  lemma HexRoundTrip(d: nat)
    requires d < 16
    ensures IsHexChar(HexChar(d)) && HexValue(HexChar(d)) == d
  {
  }

  /** The UTF-8 encoding of one Unicode scalar value. */
  function Utf8(c: char): (bytes: seq<nat>)
    ensures 1 <= |bytes| <= 4
    ensures forall i | 0 <= i < |bytes| :: bytes[i] < 256
    ensures (c as int) < 0x80 ==> bytes == [c as int]
  {
    var v := c as int;
    if v < 0x80 then [v]
    else if v < 0x800 then [0xC0 + v / 0x40, 0x80 + v % 0x40]
    else if v < 0x10000 then [0xE0 + v / 0x1000, 0x80 + (v / 0x40) % 0x40, 0x80 + v % 0x40]
    else [0xF0 + v / 0x40000, 0x80 + (v / 0x1000) % 0x40, 0x80 + (v / 0x40) % 0x40, 0x80 + v % 0x40]
  }

  function PercentBytes(bytes: seq<nat>): (s: string)
    requires forall i | 0 <= i < |bytes| :: bytes[i] < 256
    ensures |s| == 3 * |bytes|
    ensures forall i | 0 <= i < |s| :: s[i] == '%' || IsHexChar(s[i])
  {
    if |bytes| == 0 then ""
    else ['%', HexChar(bytes[0] / 16), HexChar(bytes[0] % 16)] + PercentBytes(bytes[1..])
  }

  function EncodeChar(c: char): (s: string)
    ensures forall i | 0 <= i < |s| :: IsUnreserved(s[i]) || s[i] == '%' || IsHexChar(s[i])
  {
    if IsUnreserved(c) then [c] else PercentBytes(Utf8(c))
  }

  function EncodeUriComponent(s: string): (r: string)
    ensures forall i | 0 <= i < |r| :: IsUnreserved(r[i]) || r[i] == '%' || IsHexChar(r[i])
  {
    if |s| == 0 then "" else EncodeChar(s[0]) + EncodeUriComponent(s[1..])
  }

  /** ASCII lower-case letters raised to upper case, anything else kept. */
  function UpperAscii(s: string): (r: string)
    ensures |r| == |s|
    ensures forall i | 0 <= i < |s| :: r[i] == if 'a' <= s[i] <= 'z' then (s[i] as int - 32) as char else s[i]
  {
    if |s| == 0 then ""
    else [if 'a' <= s[0] <= 'z' then (s[0] as int - 32) as char else s[0]] + UpperAscii(s[1..])
  }

  predicate IsAscii(s: string) {
    forall i | 0 <= i < |s| :: (s[i] as int) < 0x80
  }

  /** Percent-decoding of escapes that denote single ASCII bytes
      (`decodeURIComponent` restricted to ASCII text). */
  function DecodeAscii(s: string): string
    decreases |s|
  {
    if |s| == 0 then ""
    else if |s| >= 3 && s[0] == '%' && IsHexChar(s[1]) && IsHexChar(s[2])
         && HexValue(s[1]) * 16 + HexValue(s[2]) < 0x80 then
      [(HexValue(s[1]) * 16 + HexValue(s[2])) as char] + DecodeAscii(s[3..])
    else [s[0]] + DecodeAscii(s[1..])
  }

  /** Decoding undoes encoding on ASCII text. */
  lemma {:induction false} EncodeDecodeAscii(s: string)
    requires IsAscii(s)
    ensures DecodeAscii(EncodeUriComponent(s)) == s
  {
    if |s| > 0 {
      var c := s[0];
      var rest := EncodeUriComponent(s[1..]);
      assert IsAscii(s[1..]) by {
        forall i | 0 <= i < |s[1..]| ensures (s[1..][i] as int) < 0x80 {
          assert s[1..][i] == s[i + 1];
        }
      }
      EncodeDecodeAscii(s[1..]);
      var e := EncodeUriComponent(s);
      assert e == EncodeChar(c) + rest;
      if IsUnreserved(c) {
        assert e[0] == c && c != '%';
        assert e[1..] == rest;
      } else {
        var v := c as int;
        assert (s[0] as int) < 0x80;
        assert Utf8(c) == [v];
        HexRoundTrip(v / 16);
        HexRoundTrip(v % 16);
        assert EncodeChar(c) == ['%', HexChar(v / 16), HexChar(v % 16)];
        assert e[0] == '%' && e[1] == HexChar(v / 16) && e[2] == HexChar(v % 16);
        assert e[3..] == rest;
        assert (v / 16) * 16 + v % 16 == v;
      }
    }
  }
}
