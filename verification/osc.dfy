/** OSC message arguments and the Python conversions the handlers apply to
    the first one: `int(args[0])` for DMX levels and `float(args[0])` for
    solenoid values. A missing argument (`IndexError`) or one the conversion
    rejects (`ValueError`, `TypeError`) gives nothing. */
module Osc {
  import opened Wrappers
  import opened Text

  /** The argument types an OSC message carries; blobs, timetags, nil and
      the rest are `OtherArg`. */
  datatype Arg =
    | IntArg(i: int)
    | FloatArg(x: real)
    | StrArg(s: string)
    | BoolArg(b: bool)
    | OtherArg

  /** `args[0]`. */
  function FirstArg(args: seq<Arg>): Option<Arg> {
    if args == [] then None else Some(args[0])
  }

  /** `int(x)` of a float: truncation toward zero. */
  function Truncate(x: real): (n: int)
    ensures 0.0 <= x ==> 0 <= n && n as real <= x < n as real + 1.0
    ensures x < 0.0 ==> n <= 0 && n as real - 1.0 < x <= n as real
  {
    if x >= 0.0 then x.Floor else -((-x).Floor)
  }

  /** An optional sign: the sign factor and the rest of the text. */
  function SplitSign(s: string): (r: (int, string))
    ensures r.0 == 1 || r.0 == -1
    ensures |r.1| <= |s|
  {
    if s != [] && s[0] == '-' then (-1, s[1..])
    else if s != [] && s[0] == '+' then (1, s[1..])
    else (1, s)
  }

  /** Text in which no character is an ASCII digit. */
  predicate NoDigit(s: string) {
    forall i :: 0 <= i < |s| ==> !IsDigit(s[i])
  }

  /** `int(s)` for ASCII decimal text: surrounding whitespace, then an
      optional sign, then one or more digits. Text without a digit (a sign
      alone, blanks, words) is rejected. */
  function ParseInt(s: string): (r: Option<int>)
    ensures NoDigit(s) ==> r.None?
  {
    var (sign, body) := SplitSign(Strip(s));
    if IsDigits(body) then Some(sign * DigitsValue(body)) else None
  }

  /** `str(n)`. */
  function ShowInt(n: int): (s: string)
    ensures s != [] && (IsDigit(s[0]) || s[0] == '-')
  {
    if n < 0 then "-" + ShowNat(-n) else ShowNat(n)
  }

  /** `int(str(n)) == n`. */
  lemma ParseShowInt(n: int)
    ensures ParseInt(ShowInt(n)) == Some(n)
  {
    var m: nat := if n < 0 then -n else n;
    var body := ShowNat(m);
    ShowIntParts(n);
    ShowNatRoundTrip(m);
    assert SplitSign(Strip(ShowInt(n))) == (if n < 0 then -1 else 1, body);
  }

  /** `str(n)` is its own stripped form and splits into a sign and the
      digits of |n|. */
  lemma ShowIntParts(n: int)
    ensures var m: nat := if n < 0 then -n else n;
            && Strip(ShowInt(n)) == ShowInt(n)
            && SplitSign(ShowInt(n)) == (if n < 0 then -1 else 1, ShowNat(m))
  {
    var m: nat := if n < 0 then -n else n;
    var s := ShowInt(n);
    var body := ShowNat(m);
    assert !IsSpace(body[|body| - 1]);
    assert s[|s| - 1] == body[|body| - 1];
    if n < 0 {
      assert s[0] == '-' && s[1..] == body;
    } else {
      assert s == body;
      assert !IsSpace(body[0]);
    }
    StripUnpadded(s);
  }

  function Pow10(k: nat): (p: nat)
    ensures p >= 1
  {
    if k == 0 then 1 else 10 * Pow10(k - 1)
  }

  predicate AllDigits(s: string) {
    forall i :: 0 <= i < |s| ==> IsDigit(s[i])
  }

  /** Position of the first ".", or |s| when there is none. */
  function DotIndex(s: string): (k: nat)
    ensures k <= |s| && '.' !in s[..k]
    ensures k < |s| ==> s[k] == '.'
  {
    if s == [] then 0
    else if s[0] == '.' then 0
    else
      var k := 1 + DotIndex(s[1..]);
      assert s[..k] == [s[0]] + s[1..][..k - 1];
      k
  }

  /** `float(s)` for ASCII decimal text: surrounding whitespace, an optional
      sign, digits, and an optional "." with more digits, at least one digit
      in all. Text without a digit (a sign alone, a lone ".", blanks,
      words) is rejected. */
  function ParseReal(s: string): (r: Option<real>)
    ensures NoDigit(s) ==> r.None?
  {
    var (sign, body) := SplitSign(Strip(s));
    match ParseUnsigned(body)
    case None => None
    case Some(v) => Some(Signed(sign, v))
  }

  /** Unsigned decimal text: digits, optionally "." and more digits. */
  function ParseUnsigned(body: string): Option<real> {
    var k := DotIndex(body);
    var whole := body[..k];
    var frac := if k < |body| then body[k + 1..] else [];
    if AllDigits(whole) && AllDigits(frac) && |whole| + |frac| > 0 then
      Some(DecimalValue(whole, frac))
    else None
  }

  /** The value of digits `whole` "." digits `frac`. */
  function DecimalValue(whole: string, frac: string): (v: real)
    requires AllDigits(whole) && AllDigits(frac)
    ensures v >= 0.0
    ensures frac == [] ==> v == DigitsValue(whole) as real
  {
    DigitsValue(whole) as real + DigitsValue(frac) as real / Pow10(|frac|) as real
  }

  function Signed(sign: int, v: real): real {
    if sign < 0 then -v else v
  }

  /** `int(args[0])`. */
  function ToInt(a: Arg): (r: Option<int>)
    ensures a.IntArg? ==> r == Some(a.i)
    ensures a.FloatArg? ==> r == Some(Truncate(a.x))
    ensures a.StrArg? ==> r == ParseInt(a.s)
    ensures a.BoolArg? ==> r == Some(if a.b then 1 else 0)
    ensures a.OtherArg? ==> r.None?
  {
    match a
    case IntArg(i) => Some(i)
    case FloatArg(x) => Some(Truncate(x))
    case StrArg(s) => ParseInt(s)
    case BoolArg(b) => Some(if b then 1 else 0)
    case OtherArg => None
  }

  /** `float(args[0])`. */
  function ToReal(a: Arg): (r: Option<real>)
    ensures a.IntArg? ==> r == Some(a.i as real)
    ensures a.FloatArg? ==> r == Some(a.x)
    ensures a.StrArg? ==> r == ParseReal(a.s)
    ensures a.BoolArg? ==> r == Some(if a.b then 1.0 else 0.0)
    ensures a.OtherArg? ==> r.None?
  {
    match a
    case IntArg(i) => Some(i as real)
    case FloatArg(x) => Some(x)
    case StrArg(s) => ParseReal(s)
    case BoolArg(b) => Some(if b then 1.0 else 0.0)
    case OtherArg => None
  }

  /** `float(str(n)) == n` for integer text. */
  lemma ParseRealOfInt(n: int)
    ensures ParseReal(ShowInt(n)) == Some(n as real)
  {
    var m: nat := if n < 0 then -n else n;
    ShowIntParts(n);
    ShowNatRoundTrip(m);
    ParseRealOfDigits(ShowInt(n), if n < 0 then -1 else 1, ShowNat(m));
  }

  /** Text without a "." reads as its integer value. */
  lemma ParseRealOfDigits(s: string, sign: int, body: string)
    requires Strip(s) == s && SplitSign(s) == (sign, body) && IsDigits(body)
    ensures ParseReal(s) == Some(Signed(sign, DigitsValue(body) as real))
  {
    UnsignedOfDigits(body);
  }

  lemma UnsignedOfDigits(body: string)
    requires IsDigits(body)
    ensures ParseUnsigned(body) == Some(DigitsValue(body) as real)
  {
    NoDot(body);
  }

  lemma NoDot(s: string)
    requires IsDigits(s)
    ensures DotIndex(s) == |s| && s[..DotIndex(s)] == s && AllDigits(s)
  {
    assert s[..|s|] == s;
  }
}
