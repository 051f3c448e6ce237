/** The Kotlin standard-library string operations the data layer relies on: `trim`, `isBlank`,
    `ifBlank`, `lowercase`, `equals(ignoreCase = true)`, `contains`, `compareTo`, `split` and
    `toIntOrNull`, together with the decimal digit strings that dates and times are made of. */
module Text {
  import opened Base

  /** Kotlin's `Char.isWhitespace` on the JVM: TAB to CR, the separators FS to US, and every
      Unicode space, line or paragraph separator. */
  predicate IsWhitespace(c: char) {
    || c == ' ' || ('\t' <= c <= '\r') || ('\U{1C}' <= c <= '\U{1F}')
    || c == '\U{A0}' || c == '\U{1680}' || ('\U{2000}' <= c <= '\U{200A}')
    || c == '\U{2028}' || c == '\U{2029}' || c == '\U{202F}' || c == '\U{205F}' || c == '\U{3000}'
  }

  /** Kotlin's `isBlank()`: empty or whitespace only. */
  predicate IsBlank(s: string) {
    forall i :: 0 <= i < |s| ==> IsWhitespace(s[i])
  }

  /** How many characters at the front of `s` satisfy `p`. */
  function LeadingCount(s: string, p: char -> bool): (n: nat)
    ensures n <= |s|
    ensures forall i :: 0 <= i < n ==> p(s[i])
    ensures n < |s| ==> !p(s[n])
  {
    if |s| > 0 && p(s[0]) then 1 + LeadingCount(s[1..], p) else 0
  }

  /** How many characters at the back of `s` satisfy `p`. */
  function TrailingCount(s: string, p: char -> bool): (n: nat)
    ensures n <= |s|
    ensures forall i :: |s| - n <= i < |s| ==> p(s[i])
    ensures n < |s| ==> !p(s[|s| - 1 - n])
  {
    if |s| > 0 && p(s[|s| - 1]) then 1 + TrailingCount(s[..|s| - 1], p) else 0
  }

  /** Kotlin's `trim(predicate)`: the text between the leading and the trailing runs of
      characters that satisfy `p`, and empty when every character does. */
  function TrimBy(s: string, p: char -> bool): (r: string)
    ensures |r| <= |s|
    ensures r == [] || (!p(r[0]) && !p(r[|r| - 1]))
    ensures r == [] <==> forall i :: 0 <= i < |s| ==> p(s[i])
  {
    var a := LeadingCount(s, p);
    if a == |s| then []
    else
      var e := |s| - TrailingCount(s, p);
      assert !p(s[a]);
      s[a..e]
  }

  /** Only characters satisfying `p` are removed, and only at the two ends: the result starts
      after the leading run and everything after it satisfies `p`. */
  lemma TrimBySlice(s: string, p: char -> bool)
    ensures var a, r := LeadingCount(s, p), TrimBy(s, p);
      && a + |r| <= |s| && r == s[a..a + |r|]
      && (forall i :: 0 <= i < a ==> p(s[i]))
      && (forall i :: a + |r| <= i < |s| ==> p(s[i]))
  {
  }

  /** A text with no removable character at either end is its own trim. */
  lemma TrimByClean(s: string, p: char -> bool)
    requires s == [] || (!p(s[0]) && !p(s[|s| - 1]))
    ensures TrimBy(s, p) == s
  {
  }

  /** Kotlin's `trim()`, which is `trim(Char::isWhitespace)`. */
  function Trim(s: string): (r: string)
    ensures |r| <= |s|
    ensures r == [] || (!IsWhitespace(r[0]) && !IsWhitespace(r[|r| - 1]))
    ensures r == [] <==> IsBlank(s)
    ensures !IsBlank(r) <==> !IsBlank(s)
  {
    TrimBy(s, IsWhitespace)
  }

  /** Trimming twice is trimming once. */
  lemma TrimIdempotent(s: string)
    ensures Trim(Trim(s)) == Trim(s)
  {
    TrimByClean(Trim(s), IsWhitespace);
  }

  /** `s.ifBlank { d }`: a text that is not blank is kept; a blank one gives way to `d`, so a
      non-blank default makes the result non-blank. */
  function IfBlank(s: string, d: string): (r: string)
    ensures !IsBlank(s) ==> r == s
    ensures IsBlank(s) ==> r == d
    ensures IsBlank(r) <==> IsBlank(s) && IsBlank(d)
  {
    if IsBlank(s) then d else s
  }

  /** `lowercase()` restricted to ASCII letters; every other character is kept as it is. */
  function LowerChar(c: char): char {
    if 'A' <= c <= 'Z' then (c as int + 32) as char else c
  }

  function Lowercase(s: string): (r: string)
    ensures |r| == |s| && forall i :: 0 <= i < |s| ==> r[i] == LowerChar(s[i])
  {
    seq(|s|, i requires 0 <= i < |s| => LowerChar(s[i]))
  }

  /** `equals(other, ignoreCase = true)` over the ASCII case fold. */
  predicate EqualsIgnoreCase(a: string, b: string) {
    Lowercase(a) == Lowercase(b)
  }

  /** `equals(ignoreCase = true)` is an equivalence that relates only texts of equal length,
      position by position. */
  lemma EqualsIgnoreCaseSpec(a: string, b: string, c: string)
    ensures EqualsIgnoreCase(a, a)
    ensures EqualsIgnoreCase(a, b) ==> EqualsIgnoreCase(b, a)
    ensures EqualsIgnoreCase(a, b) && EqualsIgnoreCase(b, c) ==> EqualsIgnoreCase(a, c)
    ensures EqualsIgnoreCase(a, b) <==> |a| == |b| && forall i :: 0 <= i < |a| ==> LowerChar(a[i]) == LowerChar(b[i])
  {
    if |a| == |b| && forall i :: 0 <= i < |a| ==> LowerChar(a[i]) == LowerChar(b[i]) {
      assert Lowercase(a) == Lowercase(b);
    }
  }

  /** `q` occurs in `s` starting at position `k`. */
  predicate OccursAt(s: string, q: string, k: nat) {
    k + |q| <= |s| && s[k..k + |q|] == q
  }

  /** Kotlin's `s.contains(q)`: `q` occurs in `s` at some position (the empty text always does). */
  predicate Contains(s: string, q: string) {
    q <= s || (|s| > 0 && Contains(s[1..], q))
  }

  /** `contains` holds exactly when the query occurs at some position. */
  lemma {:induction false} ContainsSpec(s: string, q: string)
    ensures Contains(s, q) <==> exists k: nat :: OccursAt(s, q, k)
  {
    if exists k: nat :: OccursAt(s, q, k) {
      var k: nat :| OccursAt(s, q, k);
      ContainsAt(s, q, k);
    }
    if Contains(s, q) {
      if q <= s {
        assert OccursAt(s, q, 0);
      } else {
        ContainsSpec(s[1..], q);
        var k: nat :| OccursAt(s[1..], q, k);
        assert s[k + 1..k + 1 + |q|] == s[1..][k..k + |q|];
        assert OccursAt(s, q, k + 1);
      }
    }
  }

  lemma {:induction false} ContainsAt(s: string, q: string, k: nat)
    requires k + |q| <= |s| && s[k..k + |q|] == q
    ensures Contains(s, q)
  {
    if k > 0 {
      assert s[1..][k - 1..k - 1 + |q|] == q;
      ContainsAt(s[1..], q, k - 1);
    }
  }

  /** `a.compareTo(b) < 0` for strings: the first differing character decides, and a proper
      prefix comes first. */
  predicate Less(a: string, b: string)
    decreases |a|
  {
    if |a| == 0 then |b| > 0
    else |b| > 0 && (if a[0] == b[0] then Less(a[1..], b[1..]) else a[0] < b[0])
  }

  /** `a.compareTo(b) <= 0`. */
  predicate LessEq(a: string, b: string) {
    a == b || Less(a, b)
  }

  lemma {:induction false} LessIrreflexive(a: string)
    ensures !Less(a, a)
  {
    if |a| > 0 {
      LessIrreflexive(a[1..]);
    }
  }

  lemma {:induction false} LessAsymmetric(a: string, b: string)
    ensures !(Less(a, b) && Less(b, a))
  {
    if |a| > 0 && |b| > 0 && a[0] == b[0] {
      LessAsymmetric(a[1..], b[1..]);
    }
  }

  lemma {:induction false} LessTransitive(a: string, b: string, c: string)
    requires Less(a, b) && Less(b, c)
    ensures Less(a, c)
  {
    if |a| > 0 && a[0] == b[0] && b[0] == c[0] {
      LessTransitive(a[1..], b[1..], c[1..]);
    }
  }

  /** String comparison is total: two different strings are ordered one way or the other. */
  lemma {:induction false} LessTotal(a: string, b: string)
    ensures a == b || Less(a, b) || Less(b, a)
  {
    if |a| > 0 && |b| > 0 && a[0] == b[0] {
      LessTotal(a[1..], b[1..]);
      if a[1..] == b[1..] {
        assert a == [a[0]] + a[1..] && b == [b[0]] + b[1..];
      }
    }
  }

  /** A proper prefix comes first. */
  lemma {:induction false} LessPrefix(a: string, b: string)
    requires |a| < |b| && a == b[..|a|]
    ensures Less(a, b)
  {
    if |a| > 0 {
      assert a[0] == b[0];
      assert a[1..] == b[1..][..|a| - 1];
      LessPrefix(a[1..], b[1..]);
    }
  }

  /** At the first position where two strings differ, the smaller character decides. */
  lemma {:induction false} LessAt(a: string, b: string, k: nat)
    requires k < |a| && k < |b| && a[..k] == b[..k] && a[k] != b[k]
    ensures Less(a, b) <==> a[k] < b[k]
  {
    if k > 0 {
      assert a[0] == a[..k][0] == b[..k][0] == b[0];
      assert a[1..][..k - 1] == a[..k][1..] == b[..k][1..] == b[1..][..k - 1];
      LessAt(a[1..], b[1..], k - 1);
    }
  }

  /** Comparing texts that start with pieces of equal length: the pieces decide unless they are
      equal, and then the rests do. */
  lemma {:induction false} LessConcat(a: string, x: string, b: string, y: string)
    requires |a| == |b|
    ensures Less(a + x, b + y) <==> Less(a, b) || (a == b && Less(x, y))
  {
    if |a| > 0 {
      assert (a + x)[0] == a[0] && (b + y)[0] == b[0];
      assert (a + x)[1..] == a[1..] + x && (b + y)[1..] == b[1..] + y;
      LessConcat(a[1..], x, b[1..], y);
      if a[0] == b[0] {
        assert a == b <==> a[1..] == b[1..] by {
          assert a == [a[0]] + a[1..] && b == [b[0]] + b[1..];
        }
      }
    } else {
      assert a + x == x && b + y == y;
    }
  }

  /** Texts made of pieces of equal length are equal exactly when the pieces are. */
  lemma ConcatEqual(a: string, x: string, b: string, y: string)
    requires |a| == |b|
    ensures a + x == b + y <==> a == b && x == y
  {
    if a + x == b + y {
      assert a == (a + x)[..|a|] && b == (b + y)[..|b|];
      assert x == (a + x)[|a|..] && y == (b + y)[|b|..];
    }
  }

  /** Digit strings of equal length compare as the numbers they denote. */
  lemma {:induction false} DigitsLess(a: string, b: string)
    requires |a| == |b| && AllDigits(a) && AllDigits(b)
    ensures Less(a, b) <==> Value(a) < Value(b)
    ensures a == b <==> Value(a) == Value(b)
  {
    if |a| > 0 {
      var n := |a| - 1;
      var a', b' := a[..n], b[..n];
      DigitsLess(a', b');
      assert a == a' + [a[n]] && b == b' + [b[n]];
      LessConcat(a', [a[n]], b', [b[n]]);
      assert Less([a[n]], [b[n]]) <==> a[n] < b[n] by {
        if a[n] == b[n] {
          assert [a[n]][1..] == [] == [b[n]][1..];
        }
      }
      var da, db := DigitValue(a[n]), DigitValue(b[n]);
      assert Value(a) == Value(a') * 10 + da && Value(b) == Value(b') * 10 + db;
      assert da < 10 && db < 10;
      assert a == b <==> a' == b' && a[n] == b[n];
    }
  }

  /** For any two strings exactly one of `a < b`, `a == b`, `a > b` holds. */
  lemma Trichotomy(a: string, b: string)
    ensures (a == b) || Less(a, b) || Less(b, a)
    ensures !(a == b && Less(a, b)) && !(a == b && Less(b, a)) && !(Less(a, b) && Less(b, a))
  {
    LessTotal(a, b);
    LessIrreflexive(a);
    LessAsymmetric(a, b);
  }

  lemma LessEqTransitive(a: string, b: string, c: string)
    requires LessEq(a, b) && LessEq(b, c)
    ensures LessEq(a, c)
  {
    if Less(a, b) && Less(b, c) {
      LessTransitive(a, b, c);
    }
  }

  lemma LessEqTotal(a: string, b: string)
    ensures LessEq(a, b) || LessEq(b, a)
  {
    LessTotal(a, b);
  }

  lemma LessEqAntisymmetric(a: string, b: string)
    requires LessEq(a, b) && LessEq(b, a)
    ensures a == b
  {
    LessAsymmetric(a, b);
  }

  /** Kotlin's `split(":")` with one separator character and no limit: every occurrence splits, and
      empty pieces (also leading and trailing ones) are kept. */
  function Split(s: string, sep: char): (parts: seq<string>)
    ensures |parts| == Occurrences(s, sep) + 1
    ensures forall i :: 0 <= i < |parts| ==> sep !in parts[i]
    ensures Join(parts, sep) == s
  {
    if |s| == 0 then [""]
    else if s[0] == sep then [""] + Split(s[1..], sep)
    else
      var rest := Split(s[1..], sep);
      assert s == [s[0]] + s[1..];
      JoinConsFirst(s[0], rest, sep);
      [[s[0]] + rest[0]] + rest[1..]
  }

  /** Text without the separator is a single piece. */
  lemma {:induction false} SplitNone(s: string, sep: char)
    requires sep !in s
    ensures Split(s, sep) == [s]
  {
    if |s| > 0 {
      assert s == [s[0]] + s[1..];
      assert sep !in s[1..];
      SplitNone(s[1..], sep);
    }
  }

  /** The first piece ends at the first separator. */
  lemma {:induction false} SplitAt(a: string, b: string, sep: char)
    requires sep !in a
    ensures Split(a + [sep] + b, sep) == [a] + Split(b, sep)
  {
    var s := a + [sep] + b;
    if |a| == 0 {
      assert s == [sep] + b;
      assert s[1..] == b;
    } else {
      assert s[0] == a[0] && s[1..] == a[1..] + [sep] + b;
      assert sep !in a[1..];
      SplitAt(a[1..], b, sep);
      assert a == [a[0]] + a[1..];
    }
  }

  function Occurrences(s: string, c: char): nat {
    if |s| == 0 then 0 else (if s[0] == c then 1 else 0) + Occurrences(s[1..], c)
  }

  /** Glues pieces back together with the separator between them. */
  function Join(parts: seq<string>, sep: char): string
    requires |parts| >= 1
  {
    if |parts| == 1 then parts[0] else parts[0] + [sep] + Join(parts[1..], sep)
  }

  lemma JoinConsFirst(c: char, parts: seq<string>, sep: char)
    requires |parts| >= 1
    ensures Join([[c] + parts[0]] + parts[1..], sep) == [c] + Join(parts, sep)
  {
    var q := [[c] + parts[0]] + parts[1..];
    assert q[1..] == parts[1..];
  }

  /* ---------------- decimal digits ---------------- */

  predicate IsDigit(c: char) {
    '0' <= c <= '9'
  }

  predicate AllDigits(s: string) {
    forall i :: 0 <= i < |s| ==> IsDigit(s[i])
  }

  function DigitValue(c: char): nat
    requires IsDigit(c)
  {
    c as int - '0' as int
  }

  function DigitChar(d: nat): (c: char)
    requires d < 10
    ensures IsDigit(c) && DigitValue(c) == d
  {
    ('0' as int + d) as char
  }

  /** The number a string of decimal digits denotes (leading zeros allowed). */
  function Value(s: string): nat
    requires AllDigits(s)
  {
    if |s| == 0 then 0 else Value(s[..|s| - 1]) * 10 + DigitValue(s[|s| - 1])
  }

  function Pow10(k: nat): (p: nat)
    ensures p >= 1
  {
    if k == 0 then 1 else 10 * Pow10(k - 1)
  }

  lemma {:induction false} ValueBound(s: string)
    requires AllDigits(s)
    ensures Value(s) < Pow10(|s|)
  {
    if |s| > 0 {
      ValueBound(s[..|s| - 1]);
    }
  }

  /** The shortest decimal text of `n`, as `Int.toString` writes a non-negative number. */
  function Decimal(n: nat): (s: string)
    ensures 1 <= |s| && AllDigits(s)
    ensures Value(s) == n
  {
    if n < 10 then [DigitChar(n)]
    else
      var s := Decimal(n / 10) + [DigitChar(n % 10)];
      assert s[..|s| - 1] == Decimal(n / 10);
      s
  }

  /** `n` has at most `k` decimal digits exactly when it is below 10^k. */
  lemma {:induction false} DecimalLength(n: nat, k: nat)
    requires k >= 1
    ensures |Decimal(n)| <= k <==> n < Pow10(k)
  {
    if n >= 10 {
      if k == 1 {
        assert Pow10(1) == 10;
        assert |Decimal(n)| == |Decimal(n / 10)| + 1;
      } else {
        DecimalLength(n / 10, k - 1);
      }
    } else {
      assert Pow10(k) >= 10 by { PowAtLeastTen(k); }
    }
  }

  lemma {:induction false} PowAtLeastTen(k: nat)
    requires k >= 1
    ensures Pow10(k) >= 10
  {
    if k > 1 {
      PowAtLeastTen(k - 1);
    }
  }

  function Zeros(k: nat): (z: string)
    ensures |z| == k && AllDigits(z)
  {
    if k == 0 then "" else "0" + Zeros(k - 1)
  }

  /** Left-pads with '0' up to width `w`, as `%0wd` and the fixed-width date fields do. */
  function Pad(s: string, w: nat): (r: string)
    ensures |r| == if |s| < w then w else |s|
    ensures AllDigits(s) ==> AllDigits(r) && Value(r) == Value(s)
  {
    if |s| < w then LeadingZeros(w - |s|, s); Zeros(w - |s|) + s else s
  }

  /** Leading zeros do not change the value. */
  lemma {:induction false} LeadingZeros(k: nat, s: string)
    ensures AllDigits(s) ==> AllDigits(Zeros(k) + s) && Value(Zeros(k) + s) == Value(s)
  {
    if !AllDigits(s) {
      return;
    }
    var t := Zeros(k) + s;
    assert AllDigits(t);
    if |s| == 0 {
      assert t == Zeros(k);
      ZerosValue(k);
    } else {
      var s' := s[..|s| - 1];
      assert t[..|t| - 1] == Zeros(k) + s';
      LeadingZeros(k, s');
    }
  }

  lemma {:induction false} ZerosValue(k: nat)
    ensures Value(Zeros(k)) == 0
  {
    if k > 0 {
      var z := Zeros(k);
      assert z == Zeros(k - 1) + "0" by { ZerosSnoc(k); }
      assert z[..|z| - 1] == Zeros(k - 1);
      ZerosValue(k - 1);
    }
  }

  lemma {:induction false} ZerosSnoc(k: nat)
    requires k > 0
    ensures Zeros(k) == Zeros(k - 1) + "0"
  {
    if k > 1 {
      ZerosSnoc(k - 1);
    }
  }

  /** `n` padded to `w` digits: the fixed-width numeric fields of dates and times. */
  function Padded(n: nat, w: nat): (r: string)
    ensures AllDigits(r) && Value(r) == n
    ensures |r| == if |Decimal(n)| < w then w else |Decimal(n)|
    ensures w >= 1 && n < Pow10(w) ==> |r| == w
  {
    var r := Pad(Decimal(n), w);
    assert w >= 1 && n < Pow10(w) ==> |r| == w by {
      if w >= 1 {
        DecimalLength(n, w);
      }
    }
    r
  }

  const IntMin := -0x8000_0000
  const IntMax := 0x7fff_ffff

  /** Kotlin's `String.toIntOrNull()`: an optional '+' or '-' followed by at least one decimal digit,
      and a value that fits a 32-bit `Int`; anything else gives null. */
  function ToIntOrNull(s: string): (r: Option<int>)
    ensures r.Some? ==> IntMin <= r.value <= IntMax
    ensures r.Some? ==> |s| >= 1 && (AllDigits(s) || ((s[0] == '-' || s[0] == '+') && |s| >= 2 && AllDigits(s[1..])))
  {
    if |s| == 0 then None
    else if s[0] == '-' || s[0] == '+' then
      if |s| == 1 || !AllDigits(s[1..]) then None
      else
        var v: int := if s[0] == '-' then -(Value(s[1..]) as int) else Value(s[1..]);
        if IntMin <= v <= IntMax then Some(v) else None
    else if AllDigits(s) && Value(s) <= IntMax then Some(Value(s))
    else None
  }

  /** An unsigned digit string parses to its value, or to null when that exceeds `Int.MAX_VALUE`. */
  lemma DigitsToInt(s: string)
    requires |s| >= 1 && AllDigits(s)
    ensures ToIntOrNull(s) == if Value(s) <= IntMax then Some(Value(s)) else None
  {
    assert IsDigit(s[0]);
  }

  /** A sign followed by digits parses to the signed value, or to null outside the 32-bit range. */
  lemma SignedDigitsToInt(c: char, s: string)
    requires (c == '-' || c == '+') && |s| >= 1 && AllDigits(s)
    ensures var v := if c == '-' then -(Value(s) as int) else Value(s) as int;
      ToIntOrNull([c] + s) == if IntMin <= v <= IntMax then Some(v) else None
  {
    assert ([c] + s)[1..] == s;
  }

  /** ToIntOrNull rejects any text with a character that is neither a sign at the front nor a digit. */
  lemma ToIntOrNullRejects(s: string, k: nat)
    requires k < |s| && !IsDigit(s[k]) && (k > 0 || (s[0] != '-' && s[0] != '+'))
    ensures ToIntOrNull(s) == None
  {
    if s[0] == '-' || s[0] == '+' {
      assert !IsDigit(s[1..][k - 1]);
    }
  }
}
