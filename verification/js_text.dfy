/** The JavaScript string operations the statistics page relies on:
    `trim`, `toLowerCase`, `includes`, `replace` with a one-character pattern,
    and the decimal digit runs that `parseInt`, `parseFloat` and the date
    parser read. */
module JsText {

  /** JavaScript's white space for `trim` and number parsing: the WhiteSpace
      and LineTerminator code points of ECMA-262. */
  predicate IsJsSpace(c: char) {
    c == '\t' || c == '\n' || c == '\U{B}' || c == '\U{C}' || c == '\r' || c == ' '
    || c == '\U{A0}' || c == '\U{1680}' || ('\U{2000}' <= c <= '\U{200A}')
    || c == '\U{2028}' || c == '\U{2029}' || c == '\U{202F}' || c == '\U{205F}'
    || c == '\U{3000}' || c == '\U{FEFF}'
  }

  predicate IsDigit(c: char) {
    '0' <= c <= '9'
  }

  predicate AllDigits(s: string) {
    forall i :: 0 <= i < |s| ==> IsDigit(s[i])
  }

  function DigitValue(c: char): nat
    requires IsDigit(c)
  {
    c as nat - '0' as nat
  }

  function DigitChar(d: nat): (c: char)
    requires d < 10
    ensures IsDigit(c) && DigitValue(c) == d
  {
    ('0' as nat + d) as char
  }

  /** The value of a run of decimal digits, most significant first. */
  function DigitsValue(s: string): nat
    requires AllDigits(s)
  {
    if s == [] then 0 else DigitsValue(s[..|s| - 1]) * 10 + DigitValue(s[|s| - 1])
  }

  /** `String(n)` for a non-negative integer: its shortest decimal form. */
  function NatToString(n: nat): (s: string)
    ensures |s| >= 1 && AllDigits(s)
    ensures n > 0 ==> s[0] != '0'
  {
    if n < 10 then [DigitChar(n)] else NatToString(n / 10) + [DigitChar(n % 10)]
  }

  /** `n` written in exactly `width` digits with leading zeros (the low
      `width` digits when `n` is wider). */
  function PadDigits(n: nat, width: nat): (s: string)
    ensures |s| == width && AllDigits(s)
  {
    if width == 0 then [] else PadDigits(n / 10, width - 1) + [DigitChar(n % 10)]
  }

  function Pow10(k: nat): (p: nat)
    ensures p >= 1
  {
    if k == 0 then 1 else 10 * Pow10(k - 1)
  }

  /** Reading back the decimal form of `n` gives `n`. */
  lemma {:induction false} DigitsValueOfNatToString(n: nat)
    ensures DigitsValue(NatToString(n)) == n
  {
    var s := NatToString(n);
    if n >= 10 {
      DigitsValueOfNatToString(n / 10);
      assert s[..|s| - 1] == NatToString(n / 10);
    }
  }

  /** The decimal form is injective: two numbers with the same text are equal. */
  lemma NatToStringInjective(m: nat, n: nat)
    requires NatToString(m) == NatToString(n)
    ensures m == n
  {
    DigitsValueOfNatToString(m);
    DigitsValueOfNatToString(n);
  }

  /** Reading back `n` padded to `width` digits gives `n` when it fits. */
  lemma {:induction false} DigitsValueOfPadDigits(n: nat, width: nat)
    requires n < Pow10(width)
    ensures DigitsValue(PadDigits(n, width)) == n
  {
    if width > 0 {
      var s := PadDigits(n, width);
      DigitsValueOfPadDigits(n / 10, width - 1);
      assert s[..|s| - 1] == PadDigits(n / 10, width - 1);
    }
  }

  /** A run of zeros has value zero. */
  lemma {:induction false} DigitsValueOfZeros(z: string)
    requires forall i :: 0 <= i < |z| ==> z[i] == '0'
    ensures AllDigits(z) && DigitsValue(z) == 0
  {
    if z != [] {
      DigitsValueOfZeros(z[..|z| - 1]);
    }
  }

  /** The length of the longest prefix of `s` made of decimal digits. */
  function DigitRun(s: string): (n: nat)
    ensures n <= |s| && AllDigits(s[..n])
    ensures n < |s| ==> !IsDigit(s[n])
  {
    if s != [] && IsDigit(s[0]) then
      var n := 1 + DigitRun(s[1..]);
      assert s[..n] == [s[0]] + s[1..][..n - 1];
      n
    else 0
  }

  /** The digit run of a text that is digits followed by a non-digit (or by
      nothing) is exactly those digits. */
  lemma {:induction false} DigitRunOf(d: string, rest: string)
    requires AllDigits(d)
    requires rest == [] || !IsDigit(rest[0])
    ensures DigitRun(d + rest) == |d|
  {
    if d != [] {
      assert (d + rest)[1..] == d[1..] + rest;
      DigitRunOf(d[1..], rest);
    } else {
      assert d + rest == rest;
    }
  }

  /** `s.trimStart()`: drops the longest white-space prefix. */
  function TrimStart(s: string): (r: string)
    ensures |r| <= |s| && r == s[|s| - |r|..]
    ensures forall i :: 0 <= i < |s| - |r| ==> IsJsSpace(s[i])
    ensures r == [] || !IsJsSpace(r[0])
  {
    if s != [] && IsJsSpace(s[0]) then TrimStart(s[1..]) else s
  }

  /** `s.trimEnd()`: drops the longest white-space suffix. */
  function TrimEnd(s: string): (r: string)
    ensures |r| <= |s| && r == s[..|r|]
    ensures forall i :: |r| <= i < |s| ==> IsJsSpace(s[i])
    ensures r == [] || !IsJsSpace(r[|r| - 1])
  {
    if s != [] && IsJsSpace(s[|s| - 1]) then TrimEnd(s[..|s| - 1]) else s
  }

  /** `s.trim()`. */
  function Trim(s: string): string {
    TrimEnd(TrimStart(s))
  }

  /** White space before a text that starts with a non-space is all that
      `trimStart` removes. */
  lemma {:induction false} TrimStartBefore(a: string, x: string)
    requires x != [] && !IsJsSpace(x[0])
    ensures TrimStart(a + x) == TrimStart(a) + x
  {
    if a == [] {
      assert a + x == x;
    } else {
      assert (a + x)[0] == a[0];
      if IsJsSpace(a[0]) {
        assert (a + x)[1..] == a[1..] + x;
        TrimStartBefore(a[1..], x);
      }
    }
  }

  /** White space after a text that ends with a non-space is all that
      `trimEnd` removes. */
  lemma {:induction false} TrimEndAfter(x: string, b: string)
    requires x != [] && !IsJsSpace(x[|x| - 1])
    ensures TrimEnd(x + b) == x + TrimEnd(b)
  {
    if b == [] {
      assert x + b == x;
    } else {
      assert (x + b)[|x + b| - 1] == b[|b| - 1];
      if IsJsSpace(b[|b| - 1]) {
        assert (x + b)[..|x + b| - 1] == x + b[..|b| - 1];
        TrimEndAfter(x, b[..|b| - 1]);
      }
    }
  }

  /** `trimStart` stops at a non-blank word, whatever follows it. */
  lemma TrimStartAround(a: string, w: string, b: string)
    requires w != [] && !IsJsSpace(w[0])
    ensures TrimStart(a + w + b) == TrimStart(a) + w + b
  {
    var x := w + b;
    assert x[0] == w[0];
    Regroup(a, w, b);
    TrimStartBefore(a, x);
    Regroup(TrimStart(a), w, b);
  }

  /** `trimEnd` stops at a non-blank word, whatever precedes it. */
  lemma TrimEndAround(s: string, w: string, b: string)
    requires w != [] && !IsJsSpace(w[|w| - 1])
    ensures TrimEnd(s + w + b) == s + w + TrimEnd(b)
  {
    assert (s + w)[|s + w| - 1] == w[|w| - 1];
    TrimEndAfter(s + w, b);
  }

  /** Trimming a text that has a non-blank word inside it only removes
      white space on either side of that word. */
  lemma TrimAround(a: string, w: string, b: string)
    requires w != [] && !IsJsSpace(w[0]) && !IsJsSpace(w[|w| - 1])
    ensures Trim(a + w + b) == TrimStart(a) + w + TrimEnd(b)
  {
    TrimStartAround(a, w, b);
    TrimEndAround(TrimStart(a), w, b);
  }

  function LowerChar(c: char): char {
    if 'A' <= c <= 'Z' then (c as int + 32) as char else c
  }

  /** `s.toLowerCase()` on the ASCII letters. */
  function ToLower(s: string): (r: string)
    ensures |r| == |s|
  {
    seq(|s|, i requires 0 <= i < |s| => LowerChar(s[i]))
  }

  lemma ToLowerConcat(a: string, b: string)
    ensures ToLower(a + b) == ToLower(a) + ToLower(b)
  {
    assert forall i :: 0 <= i < |a + b| ==> ToLower(a + b)[i] == (ToLower(a) + ToLower(b))[i];
  }

  /** `w` occurs in `s` starting at position `i`. */
  predicate OccursAt(s: string, w: string, i: int) {
    0 <= i <= |s| - |w| && s[i..i + |w|] == w
  }

  /** `s.includes(w)`: `w` occurs in `s` at some position. */
  function Contains(s: string, w: string): (r: bool)
    ensures r <==> exists i :: OccursAt(s, w, i)
  {
    if |w| > |s| then false
    else if s[..|w|] == w then
      assert OccursAt(s, w, 0);
      true
    else
      var r := Contains(s[1..], w);
      assert r ==> exists i :: OccursAt(s, w, i) by {
        if r {
          var j :| OccursAt(s[1..], w, j);
          assert OccursAt(s, w, j + 1);
        }
      }
      assert (exists i :: OccursAt(s, w, i)) ==> r by {
        if exists i :: OccursAt(s, w, i) {
          var i :| OccursAt(s, w, i);
          assert i != 0;
          assert OccursAt(s[1..], w, i - 1);
        }
      }
      r
  }

  /** A text contains every word written inside it. */
  lemma ContainsInside(a: string, w: string, b: string)
    ensures Contains(a + w + b, w)
  {
    var s := a + w + b;
    assert OccursAt(s, w, |a|);
  }

  /** After lower-casing, a text contains the lower-cased form of every word
      written inside it. */
  lemma ContainsLowered(a: string, w: string, b: string)
    ensures Contains(ToLower(a + w + b), ToLower(w))
  {
    ToLowerConcat(a + w, b);
    ToLowerConcat(a, w);
    ContainsInside(ToLower(a), ToLower(w), ToLower(b));
  }

  /** Concatenation regrouped to the left. */
  lemma Regroup(a: string, b: string, c: string)
    ensures a + (b + c) == a + b + c
  {
  }

  /** `s.replace(from, to)` with a one-character pattern: only the first
      occurrence of `from` is replaced. */
  function ReplaceFirst(s: string, from: char, to: char): (r: string)
    ensures |r| == |s|
    ensures from !in s ==> r == s
  {
    if s == [] then []
    else if s[0] == from then [to] + s[1..]
    else
      var t := ReplaceFirst(s[1..], from, to);
      assert from !in s ==> [s[0]] + s[1..] == s;
      [s[0]] + t
  }

  /** The occurrence after a text without `from` is the one replaced;
      everything after it is kept as it is. */
  lemma {:induction false} ReplaceFirstAt(a: string, b: string, from: char, to: char)
    requires from !in a
    ensures ReplaceFirst(a + [from] + b, from, to) == a + [to] + b
  {
    if a == [] {
      assert a + [from] + b == [from] + b;
      assert ([from] + b)[1..] == b;
    } else {
      var s := a + [from] + b;
      assert s[0] == a[0] && s[1..] == a[1..] + [from] + b;
      ReplaceFirstAt(a[1..], b, from, to);
      assert [a[0]] + (a[1..] + [to] + b) == a + [to] + b;
    }
  }
}
