/**
  Values of Python's `decimal.Decimal` and the numeric-string grammar its
  constructor accepts: surrounding whitespace is stripped and every
  underscore dropped, then come an optional sign and either a decimal part
  with an optional exponent or one of the special names Inf, Infinity, NaN
  and sNaN (any letter case, NaN with an optional digit payload). Digits
  are the ASCII digits.
 */
module Decimals {
  import opened Options
  import opened Text

  /**
    A Decimal: a finite number `(-1)^negative * coefficient * 10^exponent`
    (the sign is kept apart so that -0 exists), a signed infinity, or a
    quiet or signalling NaN with its diagnostic payload.
   */
  datatype Decimal =
    | Finite(negative: bool, coefficient: nat, exponent: int)
    | Infinity(negative: bool)
    | NaN(negative: bool, signaling: bool, payload: nat)

  predicate IsDigit(c: char) {
    '0' <= c <= '9'
  }

  predicate AllDigits(s: string) {
    forall i :: 0 <= i < |s| ==> IsDigit(s[i])
  }

  /** The number a string of decimal digits denotes, most significant digit first. */
  function DigitsValue(s: string): nat
    requires AllDigits(s)
  {
    if s == [] then 0 else DigitsValue(s[..|s| - 1]) * 10 + (s[|s| - 1] as int - '0' as int)
  }

  function DigitChar(d: nat): (c: char)
    requires d < 10
    ensures IsDigit(c) && c as int - '0' as int == d
  {
    ('0' as int + d) as char
  }

  /** The decimal digits of `n` without leading zeros (Python's `str` of a non-negative int). */
  function NatDigits(n: nat): (r: string)
    ensures r != [] && AllDigits(r)
    ensures DigitsValue(r) == n
  {
    if n < 10 then [DigitChar(n)]
    else
      var r := NatDigits(n / 10) + [DigitChar(n % 10)];
      assert r[..|r| - 1] == NatDigits(n / 10);
      r
  }

  /** Python's `str` of an int. */
  function IntText(i: int): (r: string)
    ensures r != [] && IsDigit(r[|r| - 1])
  {
    if i < 0 then "-" + NatDigits(-i) else NatDigits(i)
  }

  /** The index of the first character of `s` that is `a` or `b`, or `|s|` when there is none. */
  function FindEither(s: string, a: char, b: char): (i: nat)
    ensures i <= |s|
    ensures i < |s| ==> s[i] == a || s[i] == b
    ensures forall j :: 0 <= j < i ==> s[j] != a && s[j] != b
  {
    if s == [] then 0
    else if s[0] == a || s[0] == b then 0
    else 1 + FindEither(s[1..], a, b)
  }

  /** The exponent part after the indicator: `[sign] digits`. */
  function ParseExponent(s: string): Option<int> {
    if s != [] && (s[0] == '+' || s[0] == '-') then
      if |s| > 1 && AllDigits(s[1..]) then
        Some(if s[0] == '-' then -(DigitsValue(s[1..]) as int) else DigitsValue(s[1..]))
      else None
    else if s != [] && AllDigits(s) then Some(DigitsValue(s))
    else None
  }

  /** `decimal-part [exponent-part]`: the exponent part, when there is one, must be readable. */
  function ParseFinite(negative: bool, s: string): Option<Decimal> {
    var e := FindEither(s, 'e', 'E');
    var exponent := if e < |s| then ParseExponent(s[e + 1..]) else Some(0);
    match exponent
    case None => None
    case Some(x) => ParseMantissa(negative, s[..e], x)
  }

  /**
    The decimal part, `digits '.' [digits]` or `['.'] digits`: the digits
    on both sides of the point form the coefficient and every fraction
    digit lowers the exponent by one.
   */
  function ParseMantissa(negative: bool, mantissa: string, exponent: int): Option<Decimal> {
    var p := FindEither(mantissa, '.', '.');
    if p == |mantissa| then
      if mantissa != [] && AllDigits(mantissa) then Some(Finite(negative, DigitsValue(mantissa), exponent))
      else None
    else
      var whole, fraction := mantissa[..p], mantissa[p + 1..];
      if AllDigits(whole) && AllDigits(fraction) && |whole| + |fraction| > 0 then
        Some(Finite(negative, DigitsValue(whole + fraction), exponent - |fraction|))
      else None
  }

  /**
    `Decimal(text)` for a string: the Decimal it denotes, or None where
    Python raises InvalidOperation. Surrounding whitespace is stripped and
    every underscore dropped before the sign is split off; the empty text
    is refused.
   */
  function ParseDecimalText(text: string): (r: Option<Decimal>)
    ensures text == [] ==> r == None
  {
    var t := Remove(Strip(text), '_');
    if t != [] && (t[0] == '+' || t[0] == '-') then ParseUnsigned(t[0] == '-', t[1..])
    else BlankRefused(); ParseUnsigned(false, t)
  }

  /** A text left blank once stripped of its surrounding whitespace and of every underscore is not a number. */
  lemma BlankIsNotANumber(text: string)
    requires Remove(Strip(text), '_') == []
    ensures ParseDecimalText(text) == None
  {
    BlankRefused();
  }

  /** The empty text is no special name and has no digits. */
  lemma BlankRefused()
    ensures ParseUnsigned(false, []) == None
  {
    assert Lower([]) == [];
    MantissaNotStart(false, [], 0);
  }

  /** What follows the sign: a special name in any letter case, or a finite number. */
  function ParseUnsigned(negative: bool, body: string): Option<Decimal> {
    var lower := Lower(body);
    if lower == "inf" || lower == "infinity" then Some(Infinity(negative))
    else if StartsWith(lower, "nan") && AllDigits(lower[3..]) then
      Some(NaN(negative, false, DigitsValue(lower[3..])))
    else if StartsWith(lower, "snan") && AllDigits(lower[4..]) then
      Some(NaN(negative, true, DigitsValue(lower[4..])))
    else ParseFinite(negative, body)
  }

  /**
    A canonical text for a Decimal, the model's own rather than Python's
    `str(d)`: the sign, then the coefficient digits, `E` and the exponent
    for a finite value (`100E0`, `1E5`), `Infinity` for an infinity, and
    `NaN` or `sNaN` followed by the payload digits for a NaN. It is a text
    the grammar reads back as the same value.
   */
  function DecimalText(d: Decimal): string {
    SignText(d.negative) + UnsignedText(d)
  }

  /** The sign of a canonical text: `-` for a negative value, nothing otherwise. */
  function SignText(negative: bool): string {
    if negative then "-" else ""
  }

  /** The canonical text after the sign. */
  function UnsignedText(d: Decimal): string {
    match d
    case Finite(_, c, e) => NatDigits(c) + "E" + IntText(e)
    case Infinity(_) => "Infinity"
    case NaN(_, signaling, p) => (if signaling then "sNaN" else "NaN") + NatDigits(p)
  }

  /** A string of digits holds no underscore. */
  lemma DigitsNoUnderscore(s: string)
    requires AllDigits(s)
    ensures '_' !in s
  {
  }

  lemma LowerOfDigits(s: string)
    requires AllDigits(s)
    ensures Lower(s) == s
  {
    LowerFixedPoint(s);
  }

  lemma LowerConcat(a: string, b: string)
    ensures Lower(a + b) == Lower(a) + Lower(b)
  {
    var l, r := Lower(a + b), Lower(a) + Lower(b);
    forall i | 0 <= i < |a + b|
      ensures l[i] == r[i]
    {
      if i < |a| {
        assert (a + b)[i] == a[i];
      } else {
        assert (a + b)[i] == b[i - |a|];
      }
    }
    assert l == r;
  }

  lemma ParseExponentOfIntText(e: int)
    ensures ParseExponent(IntText(e)) == Some(e)
  {
    if e < 0 {
      assert IntText(e)[1..] == NatDigits(-e);
    }
  }

  /** The first exponent indicator after a run of digits is the one right after them. */
  lemma FindAfterDigits(digits: string, rest: string)
    requires AllDigits(digits) && rest != [] && (rest[0] == 'e' || rest[0] == 'E')
    ensures FindEither(digits + rest, 'e', 'E') == |digits|
  {
    var s := digits + rest;
    assert s[|digits|] == rest[0];
    assert forall j :: 0 <= j < |digits| ==> s[j] == digits[j];
  }

  /** A string of digits holds neither an exponent indicator nor a point. */
  lemma DigitsHaveNoMarks(digits: string)
    requires AllDigits(digits)
    ensures FindEither(digits, 'e', 'E') == |digits|
    ensures FindEither(digits, '.', '.') == |digits|
  {
    var e := FindEither(digits, 'e', 'E');
    var p := FindEither(digits, '.', '.');
    assert e < |digits| ==> IsDigit(digits[e]);
    assert p < |digits| ==> IsDigit(digits[p]);
  }

  /** A decimal part made of digits alone is the number they denote. */
  lemma MantissaOfDigits(negative: bool, digits: string, exponent: int)
    requires digits != [] && AllDigits(digits)
    ensures ParseMantissa(negative, digits, exponent) == Some(Finite(negative, DigitsValue(digits), exponent))
  {
    DigitsHaveNoMarks(digits);
  }

  /** Reading the text of a finite Decimal whose sign has been split off. */
  lemma ParseFiniteText(negative: bool, c: nat, e: int)
    ensures ParseFinite(negative, NatDigits(c) + "E" + IntText(e)) == Some(Finite(negative, c, e))
  {
    var digits, exponent := NatDigits(c), IntText(e);
    var s := digits + "E" + exponent;
    assert s == digits + ("E" + exponent);
    assert s[..|digits|] == digits && s[|digits| + 1..] == exponent;
    FindAfterDigits(digits, "E" + exponent);
    ParseExponentOfIntText(e);
    MantissaOfDigits(negative, digits, e);
  }

  /** A digit string is read as the number it denotes, with exponent 0. */
  lemma ParseFiniteDigits(negative: bool, digits: string)
    requires digits != [] && AllDigits(digits)
    ensures ParseFinite(negative, digits) == Some(Finite(negative, DigitsValue(digits), 0))
  {
    DigitsHaveNoMarks(digits);
    assert digits[..|digits|] == digits;
    MantissaOfDigits(negative, digits, 0);
  }

  /** A body starting with a digit is never one of the special names. */
  lemma ParseUnsignedNumeric(negative: bool, body: string)
    requires body != [] && IsDigit(body[0])
    ensures ParseUnsigned(negative, body) == ParseFinite(negative, body)
  {
    var lower := Lower(body);
    assert lower[0] == body[0];
    assert !StartsWith(lower, "nan") && !StartsWith(lower, "snan");
    assert lower != "inf" && lower != "infinity";
  }

  /** A trimmed text that starts with neither sign is read as it stands. */
  lemma ParsePositive(body: string)
    requires body != [] && body[0] != '+' && body[0] != '-' && Trimmed(body) && '_' !in body
    ensures ParseDecimalText(body) == ParseUnsigned(false, body)
  {
    StripUnchanged(body);
    RemoveAbsent(body, '_');
  }

  /** A `-` in front of a trimmed text that starts with neither sign makes the value negative. */
  lemma ParseNegative(body: string)
    requires body != [] && body[0] != '+' && body[0] != '-' && Trimmed(body) && '_' !in body
    ensures ParseDecimalText("-" + body) == ParseUnsigned(true, body)
  {
    var text := "-" + body;
    assert text[0] == '-' && text[1..] == body;
    assert '_' !in text;
    assert text[|text| - 1] == body[|body| - 1];
    VisibleNotSpace('-');
    StripUnchanged(text);
    ParseStripped(text);
  }

  lemma ParseStripped(text: string)
    requires Strip(text) == text && '_' !in text
    ensures ParseDecimalText(text) ==
      if text != [] && (text[0] == '+' || text[0] == '-') then ParseUnsigned(text[0] == '-', text[1..])
      else ParseUnsigned(false, text)
  {
    RemoveAbsent(text, '_');
  }

  /** A text without surrounding whitespace or underscores is read by splitting off its sign. */
  lemma ParseSigned(negative: bool, body: string)
    requires body != [] && body[0] != '+' && body[0] != '-' && Trimmed(body) && '_' !in body
    ensures ParseDecimalText(SignText(negative) + body) == ParseUnsigned(negative, body)
  {
    if negative {
      ParseNegative(body);
    } else {
      assert SignText(false) + body == body;
      ParsePositive(body);
    }
  }

  /** `NaN` followed by digits is a quiet NaN with those digits as its payload. */
  lemma ParseQuietNaN(negative: bool, p: nat)
    ensures ParseUnsigned(negative, "NaN" + NatDigits(p)) == Some(NaN(negative, false, p))
  {
    var digits := NatDigits(p);
    var lower := Lower("NaN" + digits);
    LowerConcat("NaN", digits);
    LowerOfDigits(digits);
    assert Lower("NaN") == "nan";
    assert lower == "nan" + digits;
    assert lower[3..] == digits;
    assert |lower| > 3 && lower[..3] == "nan";
  }

  /** `sNaN` followed by digits is a signalling NaN with those digits as its payload. */
  lemma ParseSignalingNaN(negative: bool, p: nat)
    ensures ParseUnsigned(negative, "sNaN" + NatDigits(p)) == Some(NaN(negative, true, p))
  {
    var digits := NatDigits(p);
    var lower := Lower("sNaN" + digits);
    LowerConcat("sNaN", digits);
    LowerOfDigits(digits);
    assert Lower("sNaN") == "snan";
    assert lower == "snan" + digits;
    assert lower[4..] == digits;
    assert lower[0] == 's' && !StartsWith(lower, "nan");
    assert |lower| > 4 && lower[..4] == "snan";
  }

  lemma LowerInfinity()
    ensures Lower("Infinity") == "infinity"
  {
    var l := Lower("Infinity");
    assert l[0] == 'i' && l[1] == 'n' && l[2] == 'f' && l[3] == 'i';
    assert l[4] == 'n' && l[5] == 'i' && l[6] == 't' && l[7] == 'y';
  }

  /** The text after the sign is non-empty, trimmed, free of underscores, and starts with a digit or a letter. */
  lemma UnsignedTextShape(d: Decimal)
    ensures var body := UnsignedText(d);
      body != [] && body[0] != '+' && body[0] != '-' && Trimmed(body) && '_' !in body
  {
    var body := UnsignedText(d);
    match d
    case Finite(_, c, e) =>
      var digits, exponent := NatDigits(c), IntText(e);
      assert body == digits + "E" + exponent;
      DigitsNoUnderscore(digits);
      DigitsNoUnderscore(NatDigits(if e < 0 then -e else e));
      assert body[0] == digits[0] && body[|body| - 1] == exponent[|exponent| - 1];
      VisibleNotSpace(body[0]);
      VisibleNotSpace(body[|body| - 1]);
    case Infinity(_) =>
      VisibleNotSpace(body[0]);
      VisibleNotSpace(body[|body| - 1]);
    case NaN(_, signaling, p) =>
      var name, digits := if signaling then "sNaN" else "NaN", NatDigits(p);
      assert body == name + digits;
      DigitsNoUnderscore(digits);
      assert body[0] == name[0] && body[|body| - 1] == digits[|digits| - 1];
      VisibleNotSpace(body[0]);
      VisibleNotSpace(body[|body| - 1]);
  }

  /** The text after the sign is read back as the value, given the sign. */
  lemma UnsignedTextRoundTrip(d: Decimal)
    ensures ParseUnsigned(d.negative, UnsignedText(d)) == Some(d)
  {
    match d
    case Finite(negative, c, e) =>
      var body := NatDigits(c) + "E" + IntText(e);
      assert body[0] == NatDigits(c)[0];
      ParseUnsignedNumeric(negative, body);
      ParseFiniteText(negative, c, e);
    case Infinity(negative) =>
      LowerInfinity();
    case NaN(negative, signaling, p) =>
      if signaling {
        ParseSignalingNaN(negative, p);
      } else {
        ParseQuietNaN(negative, p);
      }
  }

  /** Every Decimal is read back from its canonical text. */
  lemma DecimalTextRoundTrip(d: Decimal)
    ensures ParseDecimalText(DecimalText(d)) == Some(d)
  {
    UnsignedTextShape(d);
    ParseSigned(d.negative, UnsignedText(d));
    UnsignedTextRoundTrip(d);
  }

  /** The text Python gives an int is read as that integer with exponent 0. */
  lemma IntTextParses(i: int)
    ensures ParseDecimalText(IntText(i)) == Some(Finite(i < 0, if i < 0 then -i else i, 0))
  {
    var n: nat := if i < 0 then -i else i;
    var body := NatDigits(n);
    assert IntText(i) == SignText(i < 0) + body;
    DigitsNoUnderscore(body);
    VisibleNotSpace(body[0]);
    VisibleNotSpace(body[|body| - 1]);
    ParseSigned(i < 0, body);
    ParseUnsignedNumeric(i < 0, body);
    ParseFiniteDigits(i < 0, body);
  }

  /** A number's decimal part begins with a digit or the point, so any other first character is refused. */
  lemma NotNumberStart(negative: bool, s: string)
    requires s != [] && !IsDigit(s[0]) && s[0] != '.'
    ensures ParseFinite(negative, s) == None
  {
    var e := FindEither(s, 'e', 'E');
    var exponent := if e < |s| then ParseExponent(s[e + 1..]) else Some(0);
    if exponent.Some? {
      MantissaNotStart(negative, s[..e], exponent.value);
    }
  }

  /** A decimal part that is empty or starts with neither a digit nor the point is refused. */
  lemma MantissaNotStart(negative: bool, mantissa: string, exponent: int)
    requires mantissa == [] || (!IsDigit(mantissa[0]) && mantissa[0] != '.')
    ensures ParseMantissa(negative, mantissa, exponent) == None
  {
    var p := FindEither(mantissa, '.', '.');
    if mantissa != [] {
      assert p > 0;
      assert mantissa[..p][0] == mantissa[0];
    }
  }

  /**
    A text without surrounding whitespace that, once its underscores are
    dropped, starts with an ASCII character that is neither a sign nor a
    digit nor the point, and is none of the special names, is not a number.
   */
  lemma NotANumber(text: string)
    requires Trimmed(text)
    requires var w := Remove(text, '_');
      && w != [] && (w[0] as int) < 128 && !IsDigit(w[0]) && w[0] !in "+-."
      && Lower(w) != "inf" && Lower(w) != "infinity"
      && !StartsWith(Lower(w), "nan") && !StartsWith(Lower(w), "snan")
    ensures ParseDecimalText(text) == None
  {
    StripUnchanged(text);
    var w := Remove(text, '_');
    assert ParseDecimalText(text) == ParseUnsigned(false, w);
    NotNumberStart(false, w);
  }

  /**
    A word that starts with a lower-case letter other than `n` and `s`,
    ends with a visible character and holds, at index `k`, a lower-case
    letter that `infinity` lacks is not a number, whatever underscores it
    holds.
   */
  lemma WordIsNotANumber(text: string, k: nat)
    requires text != [] && 'a' <= text[0] <= 'z' && text[0] != 'n' && text[0] != 's'
    requires '!' <= text[|text| - 1] <= '~'
    requires k < |text| && 'a' <= text[k] <= 'z' && text[k] !in "infty"
    ensures ParseDecimalText(text) == None
  {
    VisibleNotSpace(text[0]);
    VisibleNotSpace(text[|text| - 1]);
    var w := Remove(text, '_');
    RemoveHead(text, '_');
    RemoveMembers(text, '_', text[k]);
    var j :| 0 <= j < |w| && w[j] == text[k];
    NoSpecialName(w, j);
    NotANumber(text);
  }

  /**
    A word starting with a lower-case letter other than `n` and `s`, with a
    lower-case letter that `infinity` lacks at index `j`, is none of the
    special names in any letter case.
   */
  lemma NoSpecialName(w: string, j: nat)
    requires w != [] && 'a' <= w[0] <= 'z' && w[0] != 'n' && w[0] != 's'
    requires j < |w| && 'a' <= w[j] <= 'z' && w[j] !in "infty"
    ensures Lower(w) != "inf" && Lower(w) != "infinity"
    ensures !StartsWith(Lower(w), "nan") && !StartsWith(Lower(w), "snan")
  {
    var lower := Lower(w);
    assert lower[0] == w[0] && lower[j] == w[j];
    assert forall i :: 0 <= i < |"infinity"| ==> "infinity"[i] in "infty";
  }

  /** Dropping the underscore between two groups of digits joins them. */
  lemma Ungrouped(a: string, b: string)
    requires AllDigits(a) && AllDigits(b)
    ensures Remove(a + "_" + b, '_') == a + b
  {
    DigitsNoUnderscore(a);
    DigitsNoUnderscore(b);
    var rest := "_" + b;
    assert a + "_" + b == a + rest;
    assert rest[0] == '_' && rest[1..] == b;
    assert Remove(rest, '_') == Remove(b, '_');
    RemoveConcat(a, rest, '_');
    RemoveAbsent(a, '_');
    RemoveAbsent(b, '_');
  }

  /** Two groups of digits joined are digits. */
  lemma DigitsConcat(a: string, b: string)
    requires AllDigits(a) && AllDigits(b)
    ensures AllDigits(a + b)
  {
    var digits := a + b;
    assert forall i :: 0 <= i < |a| ==> digits[i] == a[i];
    assert forall i :: |a| <= i < |digits| ==> digits[i] == b[i - |a|];
  }

  /** Underscores between groups of digits are dropped: `1_000` reads as `1000`. */
  lemma GroupedDigits(a: string, b: string)
    requires a != [] && b != [] && AllDigits(a) && AllDigits(b)
    ensures ParseDecimalText(a + "_" + b) == Some(Finite(false, DigitsValue(a + b), 0))
  {
    var text, digits := a + "_" + b, a + b;
    assert text[0] == a[0] && text[|text| - 1] == b[|b| - 1];
    VisibleNotSpace(a[0]);
    VisibleNotSpace(b[|b| - 1]);
    StripUnchanged(text);
    Ungrouped(a, b);
    DigitsConcat(a, b);
    assert digits[0] == a[0];
    ParseUnsignedNumeric(false, digits);
    ParseFiniteDigits(false, digits);
  }
}
