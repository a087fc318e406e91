/** The Python string operations the exporter relies on: slicing `s[:n]`,
    `rjust`/`ljust` with a fill character, `strip()`, `startswith`,
    `str(int)`, `"".join(parts)` and the ordering `<=` on strings. */
module Text {

  function Max(a: int, b: int): int {
    if a >= b then a else b
  }

  /** `s[:n]`: the first `n` characters, or all of `s` when it is shorter. */
  function Take(s: string, n: nat): (r: string)
    ensures |r| == if |s| <= n then |s| else n
  {
    if |s| <= n then s else s[..n]
  }

  /** `c * n`. */
  function Repeat(c: char, n: nat): (r: string)
    ensures |r| == n
  {
    seq(n, _ => c)
  }

  /** `s.rjust(width, fill)`: never cuts; pads in front up to `width`. */
  function Rjust(s: string, width: nat, fill: char): (r: string)
    ensures |r| == Max(|s|, width)
  {
    if |s| >= width then s else Repeat(fill, width - |s|) + s
  }

  /** `rjust` keeps `s` at the end and fills only in front of it. */
  lemma RjustShape(s: string, width: nat, fill: char)
    ensures var r := Rjust(s, width, fill);
            r[|r| - |s|..] == s && forall i :: 0 <= i < |r| - |s| ==> r[i] == fill
  {
    var r := Rjust(s, width, fill);
    if |s| < width {
      assert r[|r| - |s|..] == s;
    } else {
      assert r[|r| - |s|..] == r;
    }
  }

  lemma RjustPadsFront(s: string, width: nat, fill: char)
    requires |s| <= width
    ensures Rjust(s, width, fill) == Repeat(fill, width - |s|) + s
  {
    if |s| == width {
      assert Repeat(fill, 0) + s == s;
    }
  }

  /** `s.ljust(width, fill)`: never cuts; pads behind up to `width`. */
  function Ljust(s: string, width: nat, fill: char): (r: string)
    ensures |r| == Max(|s|, width)
  {
    if |s| >= width then s else s + Repeat(fill, width - |s|)
  }

  /** `ljust` keeps `s` at the start and fills only behind it. */
  lemma LjustShape(s: string, width: nat, fill: char)
    ensures var r := Ljust(s, width, fill);
            r[..|s|] == s && forall i :: |s| <= i < |r| ==> r[i] == fill
  {
    var r := Ljust(s, width, fill);
    assert r[..|s|] == s;
  }

  /** `p` is a prefix of `s` (`s.startswith(p)`). */
  predicate StartsWith(s: string, p: string) {
    |p| <= |s| && s[..|p|] == p
  }

  /** The characters Python's `str.isspace()` accepts, which is what
      `str.strip()` with no argument removes. */
  predicate IsSpace(c: char) {
    var n := c as int;
    (9 <= n <= 13) || (28 <= n <= 32) || n == 0x85 || n == 0xA0 || n == 0x1680
    || (0x2000 <= n <= 0x200A) || n == 0x2028 || n == 0x2029 || n == 0x202F
    || n == 0x205F || n == 0x3000
  }

  predicate AllSpace(s: string) {
    forall i :: 0 <= i < |s| ==> IsSpace(s[i])
  }

  /** `s.lstrip()`. */
  function StripLeft(s: string): string
    decreases |s|
  {
    if |s| > 0 && IsSpace(s[0]) then StripLeft(s[1..]) else s
  }

  /** `s.rstrip()`. */
  function StripRight(s: string): string
    decreases |s|
  {
    if |s| > 0 && IsSpace(s[|s| - 1]) then StripRight(s[..|s| - 1]) else s
  }

  /** `lstrip()` removes a run of whitespace from the front and stops at the
      first other character. */
  lemma {:induction false} StripLeftShape(s: string)
    ensures |StripLeft(s)| <= |s| && StripLeft(s) == s[|s| - |StripLeft(s)|..]
    ensures AllSpace(s[..|s| - |StripLeft(s)|])
    ensures StripLeft(s) == [] || !IsSpace(StripLeft(s)[0])
    decreases |s|
  {
    if |s| > 0 && IsSpace(s[0]) {
      StripLeftShape(s[1..]);
      var r := StripLeft(s);
      assert s[..|s| - |r|] == [s[0]] + s[1..][..|s| - 1 - |r|];
    }
  }

  /** `rstrip()` removes a run of whitespace from the back and stops at the
      last other character. */
  lemma {:induction false} StripRightShape(s: string)
    ensures |StripRight(s)| <= |s| && StripRight(s) == s[..|StripRight(s)|]
    ensures AllSpace(s[|StripRight(s)|..])
    ensures StripRight(s) == [] || !IsSpace(StripRight(s)[|StripRight(s)| - 1])
    decreases |s|
  {
    if |s| > 0 && IsSpace(s[|s| - 1]) {
      StripRightShape(s[..|s| - 1]);
      var r := StripRight(s);
      assert s[|r|..] == s[..|s| - 1][|r|..] + [s[|s| - 1]];
    }
  }

  /** `s.strip()`. */
  function Strip(s: string): string {
    StripRight(StripLeft(s))
  }

  /** What `strip()` returns has no whitespace at either end, and only
      whitespace was removed around it. */
  lemma StripShape(s: string)
    ensures |Strip(s)| <= |s|
    ensures Strip(s) == [] || (!IsSpace(Strip(s)[0]) && !IsSpace(Strip(s)[|Strip(s)| - 1]))
    ensures exists k :: 0 <= k <= |s| - |Strip(s)| && Strip(s) == s[k..k + |Strip(s)|]
                        && AllSpace(s[..k]) && AllSpace(s[k + |Strip(s)|..])
  {
    var l := StripLeft(s);
    var r := StripRight(l);
    StripLeftShape(s);
    StripRightShape(l);
    var k := |s| - |l|;
    assert l == s[k..];
    assert r == s[k..k + |r|];
    assert s[k + |r|..] == l[|r|..];
    assert AllSpace(s[..k]) && AllSpace(s[k + |r|..]);
  }

  lemma {:induction false} StripLeftSpacesBefore(w: string, x: string)
    requires AllSpace(w)
    ensures StripLeft(w + x) == StripLeft(x)
    decreases |w|
  {
    if w != [] {
      assert (w + x)[1..] == w[1..] + x;
      StripLeftSpacesBefore(w[1..], x);
    } else {
      assert w + x == x;
    }
  }

  lemma {:induction false} StripRightSpacesAfter(x: string, w: string)
    requires AllSpace(w)
    ensures StripRight(x + w) == StripRight(x)
    decreases |w|
  {
    if w != [] {
      assert (x + w)[..|x + w| - 1] == x + w[..|w| - 1];
      StripRightSpacesAfter(x, w[..|w| - 1]);
    } else {
      assert x + w == x;
    }
  }

  lemma {:induction false} StripLeftKeepsTail(x: string, w: string)
    requires AllSpace(w)
    ensures StripLeft(x + w) == if StripLeft(x) == [] then [] else StripLeft(x) + w
    decreases |x|
  {
    if x == [] {
      var e: string := [];
      assert x + w == w && w + e == w;
      StripLeftSpacesBefore(w, e);
      assert StripLeft(e) == [];
    } else if IsSpace(x[0]) {
      assert (x + w)[1..] == x[1..] + w;
      StripLeftKeepsTail(x[1..], w);
    }
  }

  /** Whitespace around a value does not change what `strip()` returns. */
  lemma StripIgnoresSurroundingSpace(before: string, s: string, after: string)
    requires AllSpace(before) && AllSpace(after)
    ensures Strip(before + s + after) == Strip(s)
  {
    var t := before + s + after;
    assert t == before + (s + after);
    StripLeftSpacesBefore(before, s + after);
    StripLeftKeepsTail(s, after);
    var l := StripLeft(s);
    if l == [] {
      assert StripLeft(t) == [];
    } else {
      assert StripLeft(t) == l + after;
      StripRightSpacesAfter(l, after);
    }
  }

  predicate IsDigit(c: char) {
    '0' as int <= c as int <= '9' as int
  }

  predicate AllDigits(s: string) {
    forall i :: 0 <= i < |s| ==> IsDigit(s[i])
  }

  function DigitChar(d: nat): (c: char)
    requires d < 10
    ensures IsDigit(c) && c as int - '0' as int == d
  {
    "0123456789"[d]
  }

  /** `str(n)` for `n >= 0`: decimal digits, no leading zero except for 0. */
  function NatToString(n: nat): (r: string)
    ensures |r| >= 1
    ensures AllDigits(r)
    ensures r[0] == '0' ==> n == 0
    decreases n
  {
    if n < 10 then [DigitChar(n)] else NatToString(n / 10) + [DigitChar(n % 10)]
  }

  /** The number a string of decimal digits denotes. */
  function DigitsValue(s: string): nat
    requires AllDigits(s)
  {
    if s == [] then 0
    else
      assert IsDigit(s[|s| - 1]);
      DigitsValue(s[..|s| - 1]) * 10 + (s[|s| - 1] as int - '0' as int)
  }

  /** Reading back the digits `str(n)` writes gives `n`. */
  lemma {:induction false} NatToStringRoundTrip(n: nat)
    ensures DigitsValue(NatToString(n)) == n
    decreases n
  {
    if n >= 10 {
      var s := NatToString(n);
      assert s[..|s| - 1] == NatToString(n / 10);
      NatToStringRoundTrip(n / 10);
    }
  }

  /** Leading zeros do not change the value of a digit string. */
  lemma {:induction false} LeadingZerosValue(k: nat, s: string)
    requires AllDigits(s)
    ensures AllDigits(Repeat('0', k) + s)
    ensures DigitsValue(Repeat('0', k) + s) == DigitsValue(s)
    decreases |s| + k
  {
    var z := Repeat('0', k) + s;
    if s == [] {
      if k > 0 {
        assert z[..|z| - 1] == Repeat('0', k - 1) + [];
        LeadingZerosValue(k - 1, []);
      }
    } else {
      assert z[..|z| - 1] == Repeat('0', k) + s[..|s| - 1];
      LeadingZerosValue(k, s[..|s| - 1]);
    }
  }
  /** `str(n).rjust(w, '0')` for `n` whose digits fit in `w`: exactly `w`
      digits that read back as `n`. */
  lemma ZeroPadReadsBack(n: nat, w: nat)
    requires |NatToString(n)| <= w
    ensures |Rjust(NatToString(n), w, '0')| == w
    ensures AllDigits(Rjust(NatToString(n), w, '0'))
    ensures DigitsValue(Rjust(NatToString(n), w, '0')) == n
  {
    var s := NatToString(n);
    RjustPadsFront(s, w, '0');
    LeadingZerosValue(w - |s|, s);
    NatToStringRoundTrip(n);
  }

  /** `str(n)` for any integer: a minus sign, then the digits of `|n|`. */
  function IntToString(n: int): (r: string)
    ensures n < 0 ==> |r| >= 2 && r[0] == '-' && r[1..] == NatToString(-n)
    ensures n >= 0 ==> r == NatToString(n)
  {
    if n < 0 then "-" + NatToString(-n) else NatToString(n)
  }

  /** Sum of the lengths of `parts`. */
  function TotalLength(parts: seq<string>): nat {
    if parts == [] then 0 else |parts[0]| + TotalLength(parts[1..])
  }

  /** `"".join(parts)`: concatenation with no separator. */
  function Concat(parts: seq<string>): (r: string)
    ensures |r| == TotalLength(parts)
  {
    if parts == [] then "" else parts[0] + Concat(parts[1..])
  }

  /** Part `k` of a join sits at the offset given by the lengths of the
      parts before it: the field boundaries of a fixed-width record. */
  lemma {:induction false} ConcatSlice(parts: seq<string>, k: nat)
    requires k < |parts|
    ensures TotalLength(parts[..k]) + |parts[k]| <= |Concat(parts)|
    ensures Concat(parts)[TotalLength(parts[..k])..TotalLength(parts[..k]) + |parts[k]|] == parts[k]
    decreases k
  {
    if k == 0 {
      assert parts[..0] == [];
    } else {
      assert parts[..k][1..] == parts[1..][..k - 1];
      ConcatSlice(parts[1..], k - 1);
    }
  }

  /** `ConcatSlice` with the offsets and the part given by name. */
  lemma PartOfConcat(line: string, parts: seq<string>, k: nat, lo: nat, hi: nat, part: string)
    requires line == Concat(parts) && k < |parts| && part == parts[k]
    requires lo == TotalLength(parts[..k]) && hi == lo + |part|
    ensures lo <= hi <= |line| && line[lo..hi] == part
  {
    ConcatSlice(parts, k);
  }

  lemma {:induction false} TotalLengthAppend(a: seq<string>, b: seq<string>)
    ensures TotalLength(a + b) == TotalLength(a) + TotalLength(b)
    decreases |a|
  {
    if a != [] {
      assert (a + b)[1..] == a[1..] + b;
      TotalLengthAppend(a[1..], b);
    } else {
      assert a + b == b;
    }
  }

  /** Python's `a <= b` on strings: lexicographic by code point, a proper
      prefix first. */
  predicate StrLe(a: string, b: string)
    decreases |a|
  {
    a == [] || (b != [] && (a[0] < b[0] || (a[0] == b[0] && StrLe(a[1..], b[1..]))))
  }

  lemma {:induction false} StrLeTotal(a: string, b: string)
    ensures StrLe(a, b) || StrLe(b, a)
    decreases |a|
  {
    if a != [] && b != [] && a[0] == b[0] {
      StrLeTotal(a[1..], b[1..]);
    }
  }

  lemma {:induction false} StrLeTransitive(a: string, b: string, c: string)
    requires StrLe(a, b) && StrLe(b, c)
    ensures StrLe(a, c)
    decreases |a|
  {
    if a != [] && a[0] == b[0] && b[0] == c[0] {
      StrLeTransitive(a[1..], b[1..], c[1..]);
    }
  }
}
