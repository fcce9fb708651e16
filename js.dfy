/** The few JavaScript built-ins the application relies on, stated as Dafny
    functions: optional values, `String.prototype.trim`, string truthiness,
    the `Number(x) || 0` idiom and `Number.prototype.toString` on integers. */
module Js {

  /** A value that may be missing (`null`/`undefined` in the source). */
  datatype Option<+T> = None | Some(value: T) {
    /** `x ?? d`: the value when present, otherwise the default. */
    function GetOr(default: T): T {
      match this
      case Some(v) => v
      case None => default
    }
  }

  /** The result of `Number(text)`, restricted to integral values: either
      not-a-number or an integer. */
  datatype JsNumber = NaN | Num(n: int)

  /** `Number(text) || 0`: zero and not-a-number both fall back to 0. */
  function OrZero(x: JsNumber): (r: int)
    ensures x.NaN? ==> r == 0
    ensures x.Num? ==> r == x.n
  {
    match x
    case NaN => 0
    case Num(n) => if n == 0 then 0 else n
  }

  /** The characters `trim()` removes: ECMAScript WhiteSpace (tab, vertical
      tab, form feed, space, no-break space, byte-order mark and every
      Unicode space separator) and LineTerminator (LF, CR, LS, PS). */
  predicate IsWhitespace(c: char) {
    || '\t' <= c <= '\r'                  // tab, LF, vertical tab, form feed, CR
    || c == ' ' || c == '\U{A0}' || c == '\U{1680}'
    || '\U{2000}' <= c <= '\U{200A}'      // en quad .. hair space
    || c == '\U{2028}' || c == '\U{2029}'  // line and paragraph separators
    || c == '\U{202F}' || c == '\U{205F}' || c == '\U{3000}' || c == '\U{FEFF}'
  }

  predicate AllWhitespace(s: string) {
    forall i :: 0 <= i < |s| ==> IsWhitespace(s[i])
  }

  /** Drops leading whitespace. */
  function TrimStart(s: string): (r: string)
    ensures |r| <= |s| && r == s[|s| - |r|..]
    ensures r == [] || !IsWhitespace(r[0])
    ensures forall k :: 0 <= k < |s| - |r| ==> IsWhitespace(s[k])
  {
    if s != [] && IsWhitespace(s[0]) then TrimStart(s[1..]) else s
  }

  /** Drops trailing whitespace. */
  function TrimEnd(s: string): (r: string)
    ensures |r| <= |s| && r == s[..|r|]
    ensures r == [] || !IsWhitespace(r[|r| - 1])
    ensures forall k :: |r| <= k < |s| ==> IsWhitespace(s[k])
  {
    if s != [] && IsWhitespace(s[|s| - 1]) then TrimEnd(s[..|s| - 1]) else s
  }

  /** `s.trim()`. */
  function Trim(s: string): string {
    TrimEnd(TrimStart(s))
  }

  /** `trim()` keeps a contiguous piece of its input, with only whitespace cut
      off on either side, and the piece neither starts nor ends with
      whitespace. */
  lemma TrimIsInfix(s: string)
    ensures exists i, j :: 0 <= i <= j <= |s| && Trim(s) == s[i..j]
                           && AllWhitespace(s[..i]) && AllWhitespace(s[j..])
    ensures Trim(s) == [] || (!IsWhitespace(Trim(s)[0]) && !IsWhitespace(Trim(s)[|Trim(s)| - 1]))
  {
    var i, j := TrimBounds(s);
    TrimEnds(s);
  }

  /** The two cut points of `trim()`. */
  lemma TrimBounds(s: string) returns (i: nat, j: nat)
    ensures i <= j <= |s| && Trim(s) == s[i..j]
    ensures AllWhitespace(s[..i]) && AllWhitespace(s[j..])
  {
    var t := TrimStart(s);
    var e := TrimEnd(t);
    i := |s| - |t|;
    j := i + |e|;
    CutPoints(s, t, e, i, j);
  }

  lemma CutPoints(s: string, t: string, e: string, i: nat, j: nat)
    requires i + |t| == |s| && t == s[i..]
    requires |e| <= |t| && e == t[..|e|] && j == i + |e|
    requires forall k :: 0 <= k < i ==> IsWhitespace(s[k])
    requires forall k :: |e| <= k < |t| ==> IsWhitespace(t[k])
    ensures e == s[i..j] && AllWhitespace(s[..i]) && AllWhitespace(s[j..])
  {
    SuffixSlices(s, i, |e|);
    forall k | 0 <= k < i ensures IsWhitespace(s[..i][k]) {
      assert s[..i][k] == s[k];
    }
    forall k | 0 <= k < |s| - j ensures IsWhitespace(s[j..][k]) {
      assert s[j..][k] == t[|e| + k];
    }
  }

  /** What `trim()` keeps neither starts nor ends with whitespace. */
  lemma TrimEnds(s: string)
    ensures Trim(s) == [] || (!IsWhitespace(Trim(s)[0]) && !IsWhitespace(Trim(s)[|Trim(s)| - 1]))
  {
    var t := TrimStart(s);
    var e := TrimEnd(t);
    if e != [] {
      assert e[0] == t[0];
    }
  }

  lemma SuffixSlices(s: string, i: nat, k: nat)
    requires i + k <= |s|
    ensures s[i..][..k] == s[i..i + k] && s[i..][k..] == s[i + k..]
  {
  }

  /** Trimming twice is trimming once. */
  lemma TrimIdempotent(s: string)
    ensures Trim(Trim(s)) == Trim(s)
  {
    TrimIsInfix(s);
    var r := Trim(s);
    if r != [] {
      assert TrimStart(r) == r;
      assert TrimEnd(r) == r;
    }
  }

  /** A string trims to the empty string exactly when it is all whitespace. */
  lemma TrimEmptyIff(s: string)
    ensures Trim(s) == [] <==> AllWhitespace(s)
  {
    TrimIsInfix(s);
  }

  /** A string with no whitespace at either end is left as it is. */
  lemma TrimOfTrimmed(s: string)
    requires s == [] || (!IsWhitespace(s[0]) && !IsWhitespace(s[|s| - 1]))
    ensures Trim(s) == s
  {
  }

  // Decimal notation of integers, as `toString()` writes them.

  function DigitChar(d: int): (c: char)
    requires 0 <= d < 10
    ensures DigitValue(c) == d
  {
    ('0' as int + d) as char
  }

  function DigitValue(c: char): int {
    if '0' <= c <= '9' then c as int - '0' as int else -1
  }

  /** The decimal digits of a natural number, most significant first. */
  function Digits(n: nat): (r: string)
    ensures |r| >= 1
    ensures forall i :: 0 <= i < |r| ==> 0 <= DigitValue(r[i]) < 10
    decreases n
  {
    if n < 10 then [DigitChar(n)] else Digits(n / 10) + [DigitChar(n % 10)]
  }

  /** `n.toString()` for an integer `n`: an optional minus sign and digits. */
  function IntToString(n: int): (r: string) {
    if n < 0 then "-" + Digits(-n) else Digits(n)
  }

  /** The value of a non-empty run of decimal digits. */
  function DigitsValue(s: string): (r: Option<int>)
    decreases |s|
  {
    if s == [] then None
    else if !(0 <= DigitValue(s[|s| - 1]) < 10) then None
    else if |s| == 1 then Some(DigitValue(s[0]))
    else match DigitsValue(s[..|s| - 1])
         case None => None
         case Some(v) => Some(v * 10 + DigitValue(s[|s| - 1]))
  }

  /** Reads a plain decimal integer: an optional `-` then one or more digits.
      `Number(text)` gives the same value on every such text. */
  function ReadDecimal(s: string): (r: Option<int>) {
    if |s| > 0 && s[0] == '-' then
      match DigitsValue(s[1..])
      case None => None
      case Some(v) => Some(-v)
    else match DigitsValue(s)
         case None => None
         case Some(v) => Some(v)
  }

  lemma {:induction false} DigitsRoundTrip(n: nat)
    ensures DigitsValue(Digits(n)) == Some(n)
    decreases n
  {
    if n >= 10 {
      DigitsRoundTrip(n / 10);
      var d := Digits(n);
      assert d[..|d| - 1] == Digits(n / 10);
    }
  }

  /** Printing an integer and reading the text back gives the integer. */
  lemma IntToStringRoundTrip(n: int)
    ensures ReadDecimal(IntToString(n)) == Some(n)
  {
    if n < 0 {
      NegativeRoundTrip(n);
    } else {
      NonNegativeRoundTrip(n);
    }
  }

  lemma NegativeRoundTrip(n: int)
    requires n < 0
    ensures ReadDecimal(IntToString(n)) == Some(n)
  {
    var d := Digits(-n);
    assert IntToString(n) == "-" + d;
    DigitsRoundTrip(-n);
    assert DigitsValue(d) == Some(-n);
    ReadSigned(d);
  }

  /** A leading minus sign negates the digits after it. */
  lemma ReadSigned(d: string)
    ensures ReadDecimal("-" + d) == match DigitsValue(d) case None => None case Some(v) => Some(-v)
  {
    var s := "-" + d;
    assert s[0] == '-';
    assert s[1..] == d;
  }

  lemma NonNegativeRoundTrip(n: nat)
    ensures ReadDecimal(IntToString(n)) == Some(n)
  {
    var s := Digits(n);
    assert IntToString(n) == s;
    DigitsRoundTrip(n);
    assert 0 <= DigitValue(s[0]) < 10;
    assert s[0] != '-';
    assert DigitsValue(s) == Some(n);
  }
}
