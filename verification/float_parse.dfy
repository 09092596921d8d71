/** Python's `float(text)` on the decimal notations a two-line element set
    can contain: surrounding whitespace, an optional sign, digits with an
    optional decimal point, and an optional exponent. */
module FloatParse {
  import opened Results
  import opened Text

  /** The first index of `s` holding one of `cs`, or `|s|` when there is none. */
  function IndexIn(s: string, cs: set<char>): (i: nat)
    ensures i <= |s|
    ensures forall j :: 0 <= j < i ==> s[j] !in cs
    ensures i < |s| ==> s[i] in cs
  {
    if |s| == 0 then 0
    else if s[0] in cs then 0
    else 1 + IndexIn(s[1..], cs)
  }

  /** `v * 10^e` for any integer exponent. */
  function Scale(v: real, e: int): real {
    if e >= 0 then v * Pow10(e) as real else v / Pow10(-e) as real
  }

  /** `digits[.digits]` or `.digits` or `digits.`: at least one digit on
      either side of an optional decimal point. */
  function ParseMantissa(s: string): Option<real> {
    var d := IndexIn(s, {'.'});
    if d < |s| then DigitsAroundPoint(s[..d], s[d + 1..]) else DigitsAroundPoint(s, "")
  }

  /** The value of `whole.frac`, provided both sides are digits and they are
      not both empty. */
  function DigitsAroundPoint(whole: string, frac: string): Option<real> {
    if AllDigits(whole) && AllDigits(frac) && |whole| + |frac| > 0 then
      Some(DigitsValue(whole) as real + DigitsValue(frac) as real / Pow10(|frac|) as real)
    else
      None
  }

  /** The exponent after `e` or `E`: an optional sign and at least one digit. */
  function ParseExponent(s: string): Option<int> {
    if |s| > 0 && (s[0] == '+' || s[0] == '-') then
      if |s| > 1 && AllDigits(s[1..]) then
        var v: int := DigitsValue(s[1..]);
        Some(if s[0] == '-' then -v else v)
      else
        None
    else if |s| > 0 && AllDigits(s) then
      Some(DigitsValue(s))
    else
      None
  }

  function ParseUnsigned(s: string): Option<real> {
    var e := IndexIn(s, {'e', 'E'});
    var m := ParseMantissa(s[..e]);
    if m.None? then None
    else if e == |s| then m
    else
      match ParseExponent(s[e + 1..])
      case None => None
      case Some(x) => Some(Scale(m.value, x))
  }

  /** U+001C–U+001F, the information separators. `str.isspace` counts
      them as whitespace, but `float()` strips only the ASCII blanks and the
      non-ASCII spaces, so one of these anywhere makes it raise. */
  predicate IsInfoSeparator(c: char) {
    '\U{1C}' <= c <= '\U{1F}'
  }

  predicate HasInfoSeparator(s: string) {
    exists i :: 0 <= i < |s| && IsInfoSeparator(s[i])
  }

  /** Padding `float()` strips: whitespace other than the information
      separators. */
  predicate FloatBlank(s: string) {
    AllSpace(s) && !HasInfoSeparator(s)
  }

  /** `float(s)`; `None` stands for the `ValueError` Python raises. */
  function ParseFloat(s: string): (r: Option<real>)
    ensures HasInfoSeparator(s) ==> r.None?
    ensures r.Some? ==> HasDigit(s)
  {
    if HasInfoSeparator(s) then None
    else
      var t := Strip(s);
      match ParseSigned(t)
      case None => None
      case Some(v) =>
        SignedHasDigit(t);
        StripSpec(s);
        HasDigitSlice(s, |s| - |StripStart(s)|, |s| - |StripStart(s)| + |t|);
        Some(v)
  }

  /** A field padded with an information separator is rejected, although
      the separator is whitespace to `str.strip`. */
  lemma InfoSeparatorPadRejected()
    ensures ParseFloat("\U{1C}1.00000000") == None
    ensures Strip("\U{1C}1.00000000") == "1.00000000"
  {
    assert IsInfoSeparator("\U{1C}1.00000000"[0]);
    StripSkipsLeadingSpace("\U{1C}", "1.00000000");
    StripUnchanged("1.00000000");
  }

  /** An optional sign in front of an unsigned number. */
  function ParseSigned(t: string): Option<real> {
    if |t| > 0 && (t[0] == '+' || t[0] == '-') then
      match ParseUnsigned(t[1..])
      case None => None
      case Some(v) => Some(if t[0] == '-' then -v else v)
    else
      ParseUnsigned(t)
  }

  // ---------------------------------------------------------------------
  // Every accepted number holds a digit; blank text is a `ValueError`.

  lemma AroundPointHasDigit(whole: string, frac: string)
    requires DigitsAroundPoint(whole, frac).Some?
    ensures HasDigit(whole) || HasDigit(frac)
  {
    if |whole| > 0 {
      assert IsDigit(whole[0]);
    } else {
      assert IsDigit(frac[0]);
    }
  }

  lemma MantissaHasDigit(s: string)
    requires ParseMantissa(s).Some?
    ensures HasDigit(s)
  {
    var d := IndexIn(s, {'.'});
    if d < |s| {
      AroundPointHasDigit(s[..d], s[d + 1..]);
      if HasDigit(s[..d]) {
        HasDigitSlice(s, 0, d);
      } else {
        assert s[d + 1..] == s[d + 1..|s|];
        HasDigitSlice(s, d + 1, |s|);
      }
    } else {
      AroundPointHasDigit(s, "");
    }
  }

  lemma UnsignedHasDigit(s: string)
    requires ParseUnsigned(s).Some?
    ensures HasDigit(s)
  {
    var e := IndexIn(s, {'e', 'E'});
    MantissaHasDigit(s[..e]);
    HasDigitSlice(s, 0, e);
  }

  lemma SignedHasDigit(t: string)
    requires ParseSigned(t).Some?
    ensures HasDigit(t)
  {
    if |t| > 0 && (t[0] == '+' || t[0] == '-') {
      UnsignedHasDigit(t[1..]);
      assert t[1..] == t[1..|t|];
      HasDigitSlice(t, 1, |t|);
    } else {
      UnsignedHasDigit(t);
    }
  }

  /** The fixed-point spelling `whole.frac` with exactly `places` digits
      after the point, as element sets write their mean motion. */
  function RenderFixed(whole: nat, frac: nat, places: nat): (r: string)
    requires frac < Pow10(places)
    ensures |r| >= 2 && IsDigit(r[0]) && FixedChars(r)
  {
    var w := NatDigits(whole);
    var f := PadDigits(frac, places);
    FixedCharsJoin(w, f);
    w + "." + f
  }

  /** The number a fixed-point spelling stands for. */
  function FixedValue(whole: nat, frac: nat, places: nat): real {
    whole as real + frac as real / Pow10(places) as real
  }

  /** Only digits and decimal points. */
  predicate FixedChars(r: string) {
    forall i :: 0 <= i < |r| ==> IsDigit(r[i]) || r[i] == '.'
  }

  lemma FixedCharsJoin(whole: string, frac: string)
    requires AllDigits(whole) && AllDigits(frac)
    ensures FixedChars(whole + "." + frac)
  {
    var r := whole + "." + frac;
    forall i | 0 <= i < |r|
      ensures IsDigit(r[i]) || r[i] == '.'
    {
      if i < |whole| {
        assert r[i] == whole[i];
      } else if i > |whole| {
        assert r[i] == frac[i - |whole| - 1];
      }
    }
  }

  /** Reading back a fixed-point field, with any leading padding, yields the
      number that was written. */
  lemma ParseRenderFixed(pad: string, whole: nat, frac: nat, places: nat)
    requires FloatBlank(pad) && frac < Pow10(places)
    ensures ParseFloat(pad + RenderFixed(whole, frac, places)) == Some(FixedValue(whole, frac, places))
  {
    var w := NatDigits(whole);
    var f := PadDigits(frac, places);
    assert RenderFixed(whole, frac, places) == w + "." + f;
    ParseFixedText(pad, w, f);
    PointValue(w, f);
  }

  lemma PointValue(whole: string, frac: string)
    requires AllDigits(whole) && AllDigits(frac) && |whole| >= 1
    ensures DigitsAroundPoint(whole, frac)
            == Some(FixedValue(DigitsValue(whole), DigitsValue(frac), |frac|))
  {
  }

  lemma ParseFixedText(pad: string, whole: string, frac: string)
    requires FloatBlank(pad) && AllDigits(whole) && AllDigits(frac) && |whole| >= 1
    ensures ParseFloat(pad + (whole + "." + frac)) == DigitsAroundPoint(whole, frac)
  {
    var r := whole + "." + frac;
    FixedCharsJoin(whole, frac);
    NoSeparatorInField(pad, r);
    calc {
      ParseFloat(pad + r);
      { StripSkipsLeadingSpace(pad, r); FixedIsStripped(r); }
      ParseSigned(r);
      ParseUnsigned(r);
      { UnsignedOfFixed(r); }
      ParseMantissa(r);
      { MantissaOfFixed(whole, frac); }
      DigitsAroundPoint(whole, frac);
    }
  }

  lemma NoSeparatorInField(pad: string, r: string)
    requires !HasInfoSeparator(pad) && FixedChars(r)
    ensures !HasInfoSeparator(pad + r)
  {
    forall i | 0 <= i < |pad + r|
      ensures !IsInfoSeparator((pad + r)[i])
    {
      if i < |pad| {
        assert (pad + r)[i] == pad[i];
      } else {
        assert (pad + r)[i] == r[i - |pad|];
      }
    }
  }

  lemma FixedIsStripped(r: string)
    requires |r| >= 2 && IsDigit(r[0]) && FixedChars(r)
    ensures Strip(r) == r
  {
    var last := r[|r| - 1];
    assert IsDigit(last) || last == '.';
    assert !IsSpace(last);
    StripUnchanged(r);
  }

  lemma UnsignedOfFixed(r: string)
    requires FixedChars(r)
    ensures ParseUnsigned(r) == ParseMantissa(r)
  {
    var i := IndexIn(r, {'e', 'E'});
    assert i == |r|;
    assert r[..i] == r;
  }

  lemma MantissaOfFixed(whole: string, frac: string)
    requires AllDigits(whole) && AllDigits(frac) && |whole| >= 1
    ensures ParseMantissa(whole + "." + frac) == DigitsAroundPoint(whole, frac)
  {
    var r := whole + "." + frac;
    PointAfterDigits(whole, frac);
    MantissaAtPoint(r, |whole|);
    assert r[..|whole|] == whole;
    assert r[|whole| + 1..] == frac;
  }

  lemma MantissaAtPoint(r: string, d: nat)
    requires d < |r| && IndexIn(r, {'.'}) == d
    ensures ParseMantissa(r) == DigitsAroundPoint(r[..d], r[d + 1..])
  {
  }

  lemma PointAfterDigits(whole: string, frac: string)
    requires AllDigits(whole)
    ensures IndexIn(whole + "." + frac, {'.'}) == |whole|
  {
    var r := whole + "." + frac;
    var d := IndexIn(r, {'.'});
    assert r[|whole|] == '.';
  }
}
