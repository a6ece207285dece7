/**
 * The JavaScript string operations the views rely on: `trim`, `includes`,
 * ASCII `toLowerCase`, the `<` order on strings, `String(n)` of an integer,
 * `padStart(2, '0')` and `parseInt`.
 */
module Text {
  import opened Opt

  /** The code points ECMAScript counts as WhiteSpace or LineTerminator, which `trim` removes. */
  predicate IsWhitespace(c: char) {
    || c == ' ' || c == '\t' || c == '\n' || c == '\r'
    || c == '\U{000B}' || c == '\U{000C}' || c == '\U{00A0}' || c == '\U{1680}'
    || ('\U{2000}' <= c <= '\U{200A}')
    || c == '\U{2028}' || c == '\U{2029}' || c == '\U{202F}' || c == '\U{205F}'
    || c == '\U{3000}' || c == '\U{FEFF}'
  }

  /** `s.trimStart()`: drops the leading whitespace and nothing else. */
  function TrimStart(s: string): (r: string)
    ensures |r| <= |s| && r == s[|s| - |r|..]
    ensures forall i :: 0 <= i < |s| - |r| ==> IsWhitespace(s[i])
    ensures r != [] ==> !IsWhitespace(r[0])
  {
    if s != [] && IsWhitespace(s[0]) then TrimStart(s[1..]) else s
  }

  /** `s.trimEnd()`: drops the trailing whitespace and nothing else. */
  function TrimEnd(s: string): (r: string)
    ensures |r| <= |s| && r == s[..|r|]
    ensures forall i :: |r| <= i < |s| ==> IsWhitespace(s[i])
    ensures r != [] ==> !IsWhitespace(r[|r| - 1])
  {
    if s != [] && IsWhitespace(s[|s| - 1]) then TrimEnd(s[..|s| - 1]) else s
  }

  /** `s.trim()` */
  function Trim(s: string): string {
    TrimEnd(TrimStart(s))
  }

  /** `!s.trim()`: the trimmed text is the empty string, which JavaScript reads as false. */
  predicate IsBlank(s: string) {
    Trim(s) == []
  }

  /** A text is blank exactly when every character of it is whitespace. */
  lemma BlankIffAllWhitespace(s: string)
    ensures IsBlank(s) <==> forall i :: 0 <= i < |s| ==> IsWhitespace(s[i])
    ensures IsBlank(s) <==> TrimStart(s) == []
  {
    var t := TrimStart(s);
    if t != [] {
      assert t[0] == s[|s| - |t|];
      assert TrimEnd(t) != [];
    }
  }

  /** `sub` occurs in `s` starting at index `i`. */
  predicate OccursAt(s: string, sub: string, i: int) {
    0 <= i && i + |sub| <= |s| && s[i..i + |sub|] == sub
  }

  /** `s.includes(sub)` */
  predicate Contains(s: string, sub: string) {
    (|sub| <= |s| && s[..|sub|] == sub) || (s != [] && Contains(s[1..], sub))
  }

  /** `includes` holds exactly when the needle occurs at some position. */
  lemma {:induction false} ContainsIffOccurs(s: string, sub: string)
    ensures Contains(s, sub) <==> exists i :: OccursAt(s, sub, i)
  {
    if |sub| <= |s| && s[..|sub|] == sub {
      assert OccursAt(s, sub, 0);
    } else if s != [] {
      ContainsIffOccurs(s[1..], sub);
      forall j | OccursAt(s[1..], sub, j) ensures OccursAt(s, sub, j + 1) {
        assert s[1..][j..j + |sub|] == s[j + 1..j + 1 + |sub|];
      }
      forall i | OccursAt(s, sub, i) ensures OccursAt(s[1..], sub, i - 1) {
        assert s[1..][i - 1..i - 1 + |sub|] == s[i..i + |sub|];
      }
    }
  }

  /** A text lacking some character of the needle does not include it. */
  lemma MissingCharNotContained(s: string, sub: string, c: char)
    requires c in sub && c !in s
    ensures !Contains(s, sub)
  {
    ContainsIffOccurs(s, sub);
  }

  /** A text includes every needle found at some position of it. */
  lemma OccursContained(s: string, sub: string, i: int)
    requires OccursAt(s, sub, i)
    ensures Contains(s, sub)
  {
    ContainsIffOccurs(s, sub);
  }

  /** Every text includes the empty string. */
  lemma ContainsEmpty(s: string)
    ensures Contains(s, "")
  {
    assert s[..0] == "";
  }

  /** `c.toLowerCase()` on the ASCII letters; every other character is kept. */
  function LowerChar(c: char): char {
    if 'A' <= c <= 'Z' then (c as int + 32) as char else c
  }

  /** `s.toLowerCase()`, restricted to ASCII case mapping. */
  function ToLower(s: string): (r: string)
    ensures |r| == |s|
    ensures forall i :: 0 <= i < |s| ==> r[i] == LowerChar(s[i])
  {
    seq(|s|, i requires 0 <= i < |s| => LowerChar(s[i]))
  }

  /**
   * JavaScript's `a < b` on strings: lexicographic order of the characters, a proper
   * prefix being the smaller. Characters here are code points, where JavaScript compares
   * UTF-16 code units; the two orders agree on texts below U+10000.
   */
  predicate StrLess(a: string, b: string) {
    if a == [] then b != []
    else if b == [] then false
    else a[0] < b[0] || (a[0] == b[0] && StrLess(a[1..], b[1..]))
  }

  /** `<` on strings is irreflexive. */
  lemma {:induction false} StrLessIrreflexive(a: string)
    ensures !StrLess(a, a)
  {
    if a != [] {
      StrLessIrreflexive(a[1..]);
    }
  }

  /** `<` on strings is transitive. */
  lemma {:induction false} StrLessTransitive(a: string, b: string, c: string)
    requires StrLess(a, b) && StrLess(b, c)
    ensures StrLess(a, c)
  {
    if a != [] && b != [] && c != [] && a[0] == b[0] && b[0] == c[0] {
      StrLessTransitive(a[1..], b[1..], c[1..]);
    }
  }

  /** Two different strings are ordered one way or the other. */
  lemma {:induction false} StrLessTotal(a: string, b: string)
    requires a != b
    ensures StrLess(a, b) || StrLess(b, a)
  {
    if a != [] && b != [] && a[0] == b[0] {
      assert a == [a[0]] + a[1..] && b == [b[0]] + b[1..];
      StrLessTotal(a[1..], b[1..]);
    }
  }

  /**
   * Comparing two texts that start with prefixes of the same length:
   * the prefixes decide, and only equal prefixes pass the decision to the rest.
   */
  lemma {:induction false} StrLessConcat(p: string, q: string, a: string, b: string)
    requires |p| == |q|
    ensures StrLess(p + a, q + b) <==> StrLess(p, q) || (p == q && StrLess(a, b))
  {
    if p != [] {
      assert (p + a)[1..] == p[1..] + a && (q + b)[1..] == q[1..] + b;
      StrLessConcat(p[1..], q[1..], a, b);
      assert p == q <==> p[0] == q[0] && p[1..] == q[1..] by {
        assert p == [p[0]] + p[1..] && q == [q[0]] + q[1..];
      }
    } else {
      assert p + a == a && q + b == b;
    }
  }

  predicate IsDigit(c: char) {
    '0' <= c <= '9'
  }

  predicate AllDigits(s: string) {
    forall i :: 0 <= i < |s| ==> IsDigit(s[i])
  }

  function DigitChar(d: int): (c: char)
    requires 0 <= d < 10
    ensures IsDigit(c) && DigitValue(c) == d
  {
    ('0' as int + d) as char
  }

  /** The value `parseInt` gives a character as a digit in radix up to 36; 36 for a non-digit. */
  function DigitValue(c: char): nat {
    if '0' <= c <= '9' then c as int - '0' as int
    else if 'a' <= c <= 'z' then c as int - 'a' as int + 10
    else if 'A' <= c <= 'Z' then c as int - 'A' as int + 10
    else 36
  }

  /** The value of a string of digits in the given radix, most significant first. */
  function RadixValue(s: string, radix: nat): int {
    if s == [] then 0 else RadixValue(s[..|s| - 1], radix) * radix + DigitValue(s[|s| - 1])
  }

  /** `String(n)` for a non-negative integer: its decimal digits without leading zeros. */
  function NatToString(n: nat): (s: string)
    ensures |s| >= 1 && AllDigits(s)
    ensures s[0] == '0' <==> n == 0
  {
    if n < 10 then [DigitChar(n)] else NatToString(n / 10) + [DigitChar(n % 10)]
  }

  /** `String(n)` for an integer. */
  function IntToString(n: int): string {
    if n < 0 then "-" + NatToString(-n) else NatToString(n)
  }

  /** Reading back the decimal digits of `n` gives `n`. */
  lemma {:induction false} NatToStringValue(n: nat)
    ensures RadixValue(NatToString(n), 10) == n
  {
    var s := NatToString(n);
    if n >= 10 {
      NatToStringValue(n / 10);
      assert s[..|s| - 1] == NatToString(n / 10);
    }
  }

  /** Two equally long digit strings compare as strings the way their values compare as numbers. */
  lemma {:induction false} DigitOrder(a: string, b: string)
    requires |a| == |b| && AllDigits(a) && AllDigits(b)
    ensures StrLess(a, b) <==> RadixValue(a, 10) < RadixValue(b, 10)
    ensures a == b <==> RadixValue(a, 10) == RadixValue(b, 10)
  {
    if a != [] {
      var n := |a| - 1;
      assert a == a[..n] + [a[n]] && b == b[..n] + [b[n]];
      DigitOrder(a[..n], b[..n]);
      StrLessConcat(a[..n], b[..n], [a[n]], [b[n]]);
      assert a == b <==> a[..n] == b[..n] && a[n] == b[n];
    }
  }

  /** `String(n).padStart(2, '0')` */
  function Pad2(s: string): (r: string)
    ensures |r| == if |s| < 2 then 2 else |s|
  {
    if |s| >= 2 then s else seq(2 - |s|, _ => '0') + s
  }

  /** The length of the longest prefix of `s` made of digits in the given radix. */
  function DigitRun(s: string, radix: nat): (n: nat)
    ensures n <= |s|
    ensures forall i :: 0 <= i < n ==> DigitValue(s[i]) < radix
    ensures n < |s| ==> DigitValue(s[n]) >= radix
  {
    if s != [] && DigitValue(s[0]) < radix then 1 + DigitRun(s[1..], radix) else 0
  }

  /**
   * `parseInt(s)` with no radix argument; None stands for NaN. Leading whitespace is
   * skipped, one sign is read, a `0x`/`0X` prefix switches to radix 16, and the longest
   * run of digits that follows is the number; nothing after it is looked at.
   */
  function ParseInt(s: string): Option<int> {
    ParseSigned(TrimStart(s))
  }

  /** `parseInt` after the leading whitespace: an optional sign, then the magnitude. */
  function ParseSigned(t: string): Option<int> {
    if t != [] && t[0] == '-' then
      match ParseMagnitude(t[1..])
      case None => None
      case Some(v) => Some(-v)
    else if t != [] && t[0] == '+' then ParseMagnitude(t[1..])
    else ParseMagnitude(t)
  }

  /** `parseInt` after the sign: a `0x`/`0X` prefix selects radix 16, otherwise radix 10. */
  function ParseMagnitude(u: string): Option<int> {
    var hex := |u| >= 2 && u[0] == '0' && (u[1] == 'x' || u[1] == 'X');
    var radix := if hex then 16 else 10;
    var v := if hex then u[2..] else u;
    var k := DigitRun(v, radix);
    if k == 0 then None else Some(RadixValue(v[..k], radix))
  }

  /** `parseInt(String(n))` gives `n` back for every integer. */
  lemma ParseIntOfIntToString(n: int)
    ensures ParseInt(IntToString(n)) == Some(n)
  {
    var m := if n < 0 then -n else n;
    var d := NatToString(m);
    ParseDigits(d, m);
    if n < 0 {
      var t := "-" + d;
      assert IntToString(n) == t;
      TrimStartKeeps(t);
      assert t[1..] == d;
    } else {
      TrimStartKeeps(d);
    }
  }

  lemma TrimStartKeeps(t: string)
    requires t != [] && (t[0] == '-' || IsDigit(t[0]))
    ensures TrimStart(t) == t
  {
  }

  /** The decimal digits of `m` are read back as `m`. */
  lemma ParseDigits(d: string, m: nat)
    requires d == NatToString(m)
    ensures ParseMagnitude(d) == Some(m)
  {
    NatToStringValue(m);
    AllDigitsRun(d);
    assert d[..|d|] == d;
  }

  lemma {:induction false} AllDigitsRun(s: string)
    requires AllDigits(s)
    ensures DigitRun(s, 10) == |s|
  {
    if s != [] {
      AllDigitsRun(s[1..]);
    }
  }

  /** A blank input has no digits, so `parseInt` gives NaN. */
  lemma BlankParsesToNaN(s: string)
    requires IsBlank(s)
    ensures ParseInt(s) == None
  {
    BlankIffAllWhitespace(s);
  }
}
