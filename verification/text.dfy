/** The handful of Python `str` operations the catalog matcher and the
    mean-motion parser rely on: `strip`, `lower`, `in`, `split`, slicing,
    `isdigit` and `int` on digit strings. */
module Text {

  /** Python's `str.isspace` for a single character: the ASCII whitespace
      and separator controls plus the Unicode space separators. */
  predicate IsSpace(c: char) {
    || c == ' '
    || ('\t' <= c <= '\r')
    || ('\U{1C}' <= c <= '\U{1F}')
    || c == '\U{85}' || c == '\U{A0}' || c == '\U{1680}'
    || ('\U{2000}' <= c <= '\U{200A}')
    || c == '\U{2028}' || c == '\U{2029}' || c == '\U{202F}'
    || c == '\U{205F}' || c == '\U{3000}'
  }

  predicate AllSpace(s: string) {
    forall i :: 0 <= i < |s| ==> IsSpace(s[i])
  }

  /** `s.lstrip()`: the string without its leading whitespace. */
  function StripStart(s: string): (r: string)
    ensures |r| <= |s|
  {
    if |s| > 0 && IsSpace(s[0]) then StripStart(s[1..]) else s
  }

  /** `lstrip` drops a run of whitespace from the front and nothing else. */
  lemma {:induction false} StripStartSpec(s: string)
    ensures var r := StripStart(s);
              && r == s[|s| - |r|..]
              && AllSpace(s[..|s| - |r|])
              && (r == [] || !IsSpace(r[0]))
  {
    if |s| > 0 && IsSpace(s[0]) {
      StripStartSpec(s[1..]);
    }
  }

  /** `s.rstrip()`: the string without its trailing whitespace. */
  function StripEnd(s: string): (r: string)
    ensures |r| <= |s|
  {
    if |s| > 0 && IsSpace(s[|s| - 1]) then StripEnd(s[..|s| - 1]) else s
  }

  /** `rstrip` drops a run of whitespace from the back and nothing else. */
  lemma {:induction false} StripEndSpec(s: string)
    ensures var r := StripEnd(s);
              && r == s[..|r|]
              && AllSpace(s[|r|..])
              && (r == [] || !IsSpace(r[|r| - 1]))
  {
    if |s| > 0 && IsSpace(s[|s| - 1]) {
      var t := s[..|s| - 1];
      StripEndSpec(t);
      var r := StripEnd(t);
      assert s[|r|..] == t[|r|..] + [s[|s| - 1]];
    }
  }

  /** `s.strip()`: the part of `s` between its leading and its trailing
      whitespace. What that part is, is stated by `StripSpec`. */
  function Strip(s: string): (r: string)
    ensures |r| <= |s|
  {
    StripEnd(StripStart(s))
  }

  /** `strip` removes a leading and a trailing run of whitespace and keeps
      the rest unchanged, and what it keeps neither starts nor ends with
      whitespace. */
  lemma StripSpec(s: string)
    ensures var r := Strip(s);
            var lo := |s| - |StripStart(s)|;
              && lo + |r| <= |s| && r == s[lo..lo + |r|]
              && AllSpace(s[..lo]) && AllSpace(s[lo + |r|..])
              && (r == [] || (!IsSpace(r[0]) && !IsSpace(r[|r| - 1])))
  {
    StripKeepsMiddle(s);
    StripEndsNotSpace(s);
  }

  lemma StripKeepsMiddle(s: string)
    ensures var r := Strip(s);
            var lo := |s| - |StripStart(s)|;
              && lo + |r| <= |s| && r == s[lo..lo + |r|]
              && AllSpace(s[..lo]) && AllSpace(s[lo + |r|..])
  {
    var t := StripStart(s);
    var r := StripEnd(t);
    var lo := |s| - |t|;
    StripStartSpec(s);
    StripEndSpec(t);
    assert r == s[lo..lo + |r|];
    assert s[lo + |r|..] == t[|r|..];
  }

  lemma StripEndsNotSpace(s: string)
    ensures var r := Strip(s);
            r == [] || (!IsSpace(r[0]) && !IsSpace(r[|r| - 1]))
  {
    var t := StripStart(s);
    var r := StripEnd(t);
    StripStartSpec(s);
    StripEndSpec(t);
    if r != [] {
      assert r[0] == t[0];
    }
  }

  /** A string without surrounding whitespace is its own strip. */
  lemma {:induction false} StripUnchanged(s: string)
    requires s == [] || (!IsSpace(s[0]) && !IsSpace(s[|s| - 1]))
    ensures Strip(s) == s
  {
    assert StripStart(s) == s;
    assert StripEnd(s) == s;
  }

  /** Leading whitespace does not change what `strip` returns. */
  lemma {:induction false} StripSkipsLeadingSpace(pad: string, s: string)
    requires AllSpace(pad)
    ensures Strip(pad + s) == Strip(s)
    decreases |pad|
  {
    if pad != [] {
      assert (pad + s)[1..] == pad[1..] + s;
      StripSkipsLeadingSpace(pad[1..], s);
    } else {
      assert pad + s == s;
    }
  }

  /** Python's `str.lower` restricted to ASCII letters. */
  function LowerChar(c: char): char {
    if 'A' <= c <= 'Z' then (c as int + 32) as char else c
  }

  function Lower(s: string): (r: string)
    ensures |r| == |s|
    ensures forall i :: 0 <= i < |s| ==> r[i] == LowerChar(s[i])
    ensures forall i :: 0 <= i < |r| ==> !('A' <= r[i] <= 'Z')
  {
    seq(|s|, i requires 0 <= i < |s| => LowerChar(s[i]))
  }

  /** Python's `needle in hay` on strings: a contiguous occurrence. */
  predicate IsSubstring(needle: string, hay: string) {
    exists i :: 0 <= i <= |hay| - |needle| && OccursAt(needle, hay, i)
  }

  predicate OccursAt(needle: string, hay: string, i: int) {
    0 <= i <= |hay| - |needle| && hay[i..i + |needle|] == needle
  }

  /** Python's `s[lo:hi]` for 0 <= lo <= hi: out-of-range bounds clamp to
      the length instead of failing. */
  function Slice(s: string, lo: nat, hi: nat): (r: string)
    requires lo <= hi
    ensures |r| <= hi - lo
    ensures hi <= |s| ==> r == s[lo..hi]
    ensures lo >= |s| ==> r == []
    ensures lo < |s| < hi ==> r == s[lo..]
  {
    var a := if lo <= |s| then lo else |s|;
    var b := if hi <= |s| then hi else |s|;
    s[a..b]
  }

  /** `sep.join(parts)` for a one-character separator. */
  function Join(parts: seq<string>, sep: char): string
    requires |parts| >= 1
  {
    if |parts| == 1 then parts[0] else parts[0] + [sep] + Join(parts[1..], sep)
  }

  /** `s.split(sep)`: the pieces between separators, empty ones included. */
  function Split(s: string, sep: char): (r: seq<string>)
    ensures |r| >= 1
    ensures forall i :: 0 <= i < |r| ==> sep !in r[i]
    ensures Join(r, sep) == s
  {
    if |s| == 0 then [""]
    else
      var rest := Split(s[1..], sep);
      if s[0] == sep then
        [""] + rest
      else
        assert Join([[s[0]] + rest[0]] + rest[1..], sep) == [s[0]] + Join(rest, sep);
        [[s[0]] + rest[0]] + rest[1..]
  }

  /** Splitting undoes joining, so `split` loses nothing and invents nothing. */
  lemma {:induction false} SplitJoin(parts: seq<string>, sep: char)
    requires |parts| >= 1
    requires forall i :: 0 <= i < |parts| ==> sep !in parts[i]
    ensures Split(Join(parts, sep), sep) == parts
  {
    if |parts| == 1 {
      SplitNoSep(parts[0], sep);
    } else {
      var tail := Join(parts[1..], sep);
      SplitJoin(parts[1..], sep);
      SplitPrefix(parts[0], tail, sep);
    }
  }

  lemma {:induction false} SplitNoSep(s: string, sep: char)
    requires sep !in s
    ensures Split(s, sep) == [s]
  {
    if |s| > 0 {
      SplitNoSep(s[1..], sep);
    }
  }

  lemma {:induction false} SplitPrefix(head: string, tail: string, sep: char)
    requires sep !in head
    ensures Split(head + [sep] + tail, sep) == [head] + Split(tail, sep)
  {
    if |head| == 0 {
      assert head + [sep] + tail == [sep] + tail;
      assert ([sep] + tail)[1..] == tail;
    } else {
      assert (head + [sep] + tail)[1..] == head[1..] + [sep] + tail;
      SplitPrefix(head[1..], tail, sep);
      assert [head[0]] + head[1..] == head;
    }
  }

  /** Decimal digits as accepted by Python's `str.isdigit` and `int`
      (ASCII only). */
  predicate IsDigit(c: char) { '0' <= c <= '9' }

  /** At least one decimal digit somewhere in `s`. */
  predicate HasDigit(s: string) {
    exists i :: 0 <= i < |s| && IsDigit(s[i])
  }

  /** A digit inside a slice is a digit of the whole. */
  lemma HasDigitSlice(s: string, a: nat, b: nat)
    requires a <= b <= |s| && HasDigit(s[a..b])
    ensures HasDigit(s)
  {
    var i :| 0 <= i < b - a && IsDigit(s[a..b][i]);
    assert s[a + i] == s[a..b][i];
  }

  predicate AllDigits(s: string) {
    forall i :: 0 <= i < |s| ==> IsDigit(s[i])
  }

  /** `int(s)` for a string of digits; leading zeros are allowed. */
  function DigitsValue(s: string): nat
    requires AllDigits(s)
  {
    if |s| == 0 then 0
    else DigitsValue(s[..|s| - 1]) * 10 + (s[|s| - 1] as int - '0' as int)
  }

  /** `str(n)`: the shortest decimal spelling of `n`. */
  function NatDigits(n: nat): (r: string)
    ensures |r| >= 1 && AllDigits(r)
    ensures DigitsValue(r) == n
  {
    var d := [(n % 10 + '0' as int) as char];
    if n < 10 then d
    else
      var r := NatDigits(n / 10) + d;
      assert r[..|r| - 1] == NatDigits(n / 10);
      r
  }

  /** `n` written with exactly `width` digits, zero-padded on the left;
      `n` must fit. */
  function PadDigits(n: nat, width: nat): (r: string)
    requires n < Pow10(width)
    ensures |r| == width && AllDigits(r)
    ensures DigitsValue(r) == n
  {
    if width == 0 then ""
    else
      DivTenBelow(n, Pow10(width - 1));
      var r := PadDigits(n / 10, width - 1) + [(n % 10 + '0' as int) as char];
      assert r[..|r| - 1] == PadDigits(n / 10, width - 1);
      r
  }

  lemma DivTenBelow(n: nat, p: nat)
    requires n < 10 * p
    ensures n / 10 < p
  {
  }

  function Pow10(n: nat): (r: nat)
    ensures r >= 1
  {
    if n == 0 then 1 else 10 * Pow10(n - 1)
  }
}
