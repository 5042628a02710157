/** Strings the way the program reads them: searching, splitting, decimal numbers and ordering. */
module Text {
  import opened Basics

  /** The part of `s` before the first `c`, if `c` occurs. */
  function IndexOf(s: string, c: char): (k: nat)
    ensures k <= |s|
    ensures forall i :: 0 <= i < k ==> s[i] != c
    ensures k < |s| ==> s[k] == c
  {
    if s == [] || s[0] == c then 0 else 1 + IndexOf(s[1..], c)
  }

  function SplitOn(s: string, c: char): (parts: seq<string>)
    ensures |parts| > 0
    decreases |s|
  {
    var k := IndexOf(s, c);
    if k == |s| then [s] else [s[..k]] + SplitOn(s[k + 1..], c)
  }

  predicate StartsWith(s: string, prefix: string) {
    |prefix| <= |s| && s[..|prefix|] == prefix
  }

  predicate EndsWith(s: string, suffix: string) {
    |suffix| <= |s| && s[|s| - |suffix|..] == suffix
  }

  /** The text before the last `c`, if `c` occurs. */
  function BeforeLast(s: string, c: char): (r: Option<string>) {
    if s == [] then None
    else if s[|s| - 1] == c then Some(s[..|s| - 1])
    else BeforeLast(s[..|s| - 1], c)
  }

  lemma {:induction false} BeforeLastAt(a: string, c: char, b: string)
    requires c !in b
    ensures BeforeLast(a + [c] + b, c) == Some(a)
  {
    var s := a + [c] + b;
    if b == [] {
      assert s[..|s| - 1] == a;
    } else {
      BeforeLastAt(a, c, b[..|b| - 1]);
      assert s[..|s| - 1] == a + [c] + b[..|b| - 1];
      assert s[|s| - 1] == b[|b| - 1];
    }
  }

  lemma {:induction false} BeforeLastIs(s: string, c: char)
    ensures BeforeLast(s, c).Some? <==> c in s
    ensures BeforeLast(s, c).Some? ==> exists b :: c !in b && s == BeforeLast(s, c).value + [c] + b
  {
    if s != [] && s[|s| - 1] == c {
      assert s == s[..|s| - 1] + [c] + "";
    } else if s != [] {
      var init := s[..|s| - 1];
      BeforeLastIs(init, c);
      assert s == init + [s[|s| - 1]];
      if BeforeLast(init, c).Some? {
        var b :| c !in b && init == BeforeLast(init, c).value + [c] + b;
        var more := b + [s[|s| - 1]];
        assert c !in more && s == BeforeLast(init, c).value + [c] + more;
      }
    }
  }

  lemma {:induction false} IndexOfFirst(field: string, rest: string, c: char)
    requires c !in field
    ensures IndexOf(field + [c] + rest, c) == |field|
  {
    var s := field + [c] + rest;
    if field != [] {
      assert s[1..] == field[1..] + [c] + rest;
      IndexOfFirst(field[1..], rest, c);
    }
  }

  lemma {:induction false} IndexOfNone(s: string, c: char)
    requires c !in s
    ensures IndexOf(s, c) == |s|
  {
    if s != [] {
      IndexOfNone(s[1..], c);
    }
  }

  lemma SplitHead(field: string, rest: string, c: char)
    requires c !in field
    ensures SplitOn(field + [c] + rest, c) == [field] + SplitOn(rest, c)
  {
    IndexOfFirst(field, rest, c);
    var s := field + [c] + rest;
    assert s[..|field|] == field && s[|field| + 1..] == rest;
  }

  /** `char::is_whitespace`: the Unicode White_Space characters. */
  predicate IsWhitespace(c: char) {
    || '\t' <= c <= '\r' || c == ' ' || c == '\U{85}' || c == '\U{A0}' || c == '\U{1680}'
    || '\U{2000}' <= c <= '\U{200A}' || c == '\U{2028}' || c == '\U{2029}' || c == '\U{202F}' || c == '\U{205F}'
    || c == '\U{3000}'
  }

  /** The code points of White_Space. */
  lemma WhitespaceIs(c: char)
    ensures IsWhitespace(c) <==>
              || 9 <= c as int <= 13 || c as int == 32 || c as int == 133 || c as int == 160 || c as int == 5_760
              || 8_192 <= c as int <= 8_202 || c as int == 8_232 || c as int == 8_233 || c as int == 8_239
              || c as int == 8_287 || c as int == 12_288
  {
  }

  /** `str::trim`. */
  function Trim(s: string): (r: string)
    ensures r == [] || (!IsWhitespace(r[0]) && !IsWhitespace(r[|r| - 1]))
  {
    if s == [] then []
    else if IsWhitespace(s[0]) then Trim(s[1..])
    else if IsWhitespace(s[|s| - 1]) then Trim(s[..|s| - 1])
    else s
  }

  /** What trimming takes away is whitespace at both ends. */
  lemma {:induction false} TrimIs(s: string) returns (before: string, after: string)
    ensures s == before + Trim(s) + after
    ensures forall i :: 0 <= i < |before| ==> IsWhitespace(before[i])
    ensures forall i :: 0 <= i < |after| ==> IsWhitespace(after[i])
    decreases |s|
  {
    before, after := "", "";
    if s == "" {
    } else if IsWhitespace(s[0]) {
      var rest := s[1..];
      before, after := TrimIs(rest);
      before := Prepended(s[0], before, Trim(rest), after, rest);
    } else if IsWhitespace(s[|s| - 1]) {
      var rest := s[..|s| - 1];
      before, after := TrimIs(rest);
      assert s == rest + [s[|s| - 1]];
      assert (before + Trim(rest) + after) + [s[|s| - 1]] == before + Trim(rest) + (after + [s[|s| - 1]]);
      after := after + [s[|s| - 1]];
    }
  }

  lemma Prepended(c: char, before: string, core: string, after: string, rest: string) returns (more: string)
    requires rest == before + core + after
    ensures more == [c] + before && [c] + rest == more + core + after
  {
    more := [c] + before;
  }

  // ----- decimal numbers -----

  const I64_MAX := 0x7fff_ffff_ffff_ffff
  const I64_MIN := -0x8000_0000_0000_0000

  predicate IsDigit(c: char) {
    '0' <= c <= '9'
  }

  function DigitChar(d: nat): (c: char)
    requires d < 10
    ensures IsDigit(c)
  {
    '0' + d as char
  }

  function DigitValue(c: char): (d: nat)
    requires IsDigit(c)
    ensures d < 10
  {
    (c - '0') as int
  }

  predicate AllDigits(s: string) {
    forall i :: 0 <= i < |s| ==> IsDigit(s[i])
  }

  function DigitsValue(s: string): (r: nat)
    requires AllDigits(s)
  {
    if s == [] then 0 else 10 * DigitsValue(s[..|s| - 1]) + DigitValue(s[|s| - 1])
  }

  /** `n` in decimal without leading zeros. */
  function Decimal(n: nat): (s: string)
    ensures |s| > 0 && AllDigits(s) && DigitsValue(s) == n
  {
    if n < 10 then [DigitChar(n)] else Decimal(n / 10) + [DigitChar(n % 10)]
  }

  function Zeros(k: nat): (s: string)
    ensures |s| == k && AllDigits(s)
  {
    seq(k, _ => '0')
  }

  lemma {:induction false} LeadingZeros(k: nat, s: string)
    requires AllDigits(s)
    ensures DigitsValue(Zeros(k) + s) == DigitsValue(s)
  {
    var z := Zeros(k) + s;
    if s != [] {
      LeadingZeros(k, s[..|s| - 1]);
      assert z[..|z| - 1] == Zeros(k) + s[..|s| - 1];
    } else if k > 0 {
      LeadingZeros(k - 1, []);
      assert z[..|z| - 1] == Zeros(k - 1) + [];
    }
  }

  /** `n` in decimal, zero-padded on the left to `width`. */
  function Padded(n: nat, width: nat): (s: string)
    ensures |s| > 0 && AllDigits(s) && DigitsValue(s) == n && |s| >= width
  {
    var s := Decimal(n);
    var k := if |s| < width then width - |s| else 0;
    LeadingZeros(k, s);
    Zeros(k) + s
  }

  function Pow10(k: nat): (r: nat)
    ensures r > 0
  {
    if k == 0 then 1 else 10 * Pow10(k - 1)
  }

  lemma {:induction false} DecimalWidth(n: nat, k: nat)
    requires k > 0 && n < Pow10(k)
    ensures |Decimal(n)| <= k
  {
    if n >= 10 {
      DecimalWidth(n / 10, k - 1);
    }
  }

  lemma PaddedWidth(n: nat, k: nat)
    requires k > 0 && n < Pow10(k)
    ensures |Padded(n, k)| == k
  {
    DecimalWidth(n, k);
  }

  /** `str::parse::<i64>`: an optional sign, then at least one digit, and a value that fits. */
  function ParseI64(s: string): (r: Option<int>) {
    var digits := if s != [] && (s[0] == '-' || s[0] == '+') then s[1..] else s;
    if digits == [] || !AllDigits(digits) then None
    else
      var magnitude: int := DigitsValue(digits);
      var value := if s[0] == '-' then -magnitude else magnitude;
      if I64_MIN <= value <= I64_MAX then Some(value) else None
  }

  /** A number may have a sign, and is read when it fits in 64 bits. */
  lemma SignedNumbersAre(digits: string)
    requires digits != "" && AllDigits(digits)
    ensures ParseI64(digits) == if DigitsValue(digits) <= 0x7fff_ffff_ffff_ffff then Some(DigitsValue(digits)) else None
    ensures ParseI64("+" + digits)
         == if DigitsValue(digits) <= 0x7fff_ffff_ffff_ffff then Some(DigitsValue(digits)) else None
    ensures ParseI64("-" + digits)
         == if DigitsValue(digits) <= 0x8000_0000_0000_0000 then Some(0 - DigitsValue(digits) as int) else None
  {
    assert ("+" + digits)[1..] == digits && ("-" + digits)[1..] == digits;
  }

  // ----- order -----

  /** `str::cmp`: the first difference decides, and a prefix comes first. */
  predicate LexLess(a: string, b: string) {
    b != [] && (a == [] || a[0] < b[0] || (a[0] == b[0] && LexLess(a[1..], b[1..])))
  }

  lemma {:induction false} LexIsTotal(a: string, b: string)
    ensures LexLess(a, b) || LexLess(b, a) || a == b
    ensures !(LexLess(a, b) && LexLess(b, a))
    ensures !LexLess(a, a)
  {
    if a != [] {
      LexIsTotal(a[1..], a[1..]);
    }
    if a != [] && b != [] && a[0] == b[0] {
      LexIsTotal(a[1..], b[1..]);
      if a[1..] == b[1..] {
        assert a == [a[0]] + a[1..] && b == [b[0]] + b[1..];
      }
    }
  }

  lemma {:induction false} LexIsTransitive(a: string, b: string, c: string)
    requires LexLess(a, b) && LexLess(b, c)
    ensures LexLess(a, c)
  {
    if a != [] && a[0] == b[0] == c[0] {
      LexIsTransitive(a[1..], b[1..], c[1..]);
    }
  }

  lemma {:induction false} LexAppend(a: string, b: string, x: string, y: string)
    requires |a| == |b|
    ensures LexLess(a + x, b + y) <==> LexLess(a, b) || (a == b && LexLess(x, y))
  {
    if a == [] {
      assert a + x == x && b + y == y;
    } else {
      assert (a + x)[1..] == a[1..] + x && (b + y)[1..] == b[1..] + y;
      LexAppend(a[1..], b[1..], x, y);
      assert a == b <==> a[0] == b[0] && a[1..] == b[1..];
    }
  }

  /** Numbers of the same width compare as texts the way they compare as numbers. */
  lemma {:induction false} LexIsNumeric(a: string, b: string)
    requires |a| == |b| && AllDigits(a) && AllDigits(b)
    ensures LexLess(a, b) <==> DigitsValue(a) < DigitsValue(b)
    ensures a == b <==> DigitsValue(a) == DigitsValue(b)
  {
    if a != [] {
      var n := |a| - 1;
      LexIsNumeric(a[..n], b[..n]);
      LexAppend(a[..n], b[..n], a[n..], b[n..]);
      assert a == a[..n] + a[n..] && b == b[..n] + b[n..];
      assert a[n..] == [a[n]] && b[n..] == [b[n]];
    }
  }

  /** Numbers of any width before a separator that sorts below the digits. */
  lemma {:induction false} LexBeforeDash(a: string, b: string, x: string, y: string)
    requires AllDigits(a) && AllDigits(b) && a != b
    ensures LexLess(a + "-" + x, b + "-" + y) <==> LexLess(a, b)
  {
    var s, t := a + "-" + x, b + "-" + y;
    if a != [] && b != [] {
      assert s[1..] == a[1..] + "-" + x && t[1..] == b[1..] + "-" + y;
      if a[0] == b[0] {
        assert a == [a[0]] + a[1..] && b == [b[0]] + b[1..];
        LexBeforeDash(a[1..], b[1..], x, y);
      }
    }
  }
}
