/** `parseInt(s, 10)` as section 18.2.5 of ECMAScript 2015 (19.2.5 in later editions)
    defines it, for the integer part: leading white space is skipped, one
    sign is read, then the longest run of decimal digits; without a digit
    the result is NaN. */
module JsNumbers {
  import opened LintTypes

  predicate IsDigit(c: char)
  {
    '0' <= c <= '9'
  }

  /** The WhiteSpace and LineTerminator code points `parseInt` skips. */
  predicate IsWhite(c: char)
  {
    c == '\t' || c == '\n' || c == '\U{000B}' || c == '\U{000C}' || c == '\r' || c == ' ' ||
    c == '\U{00A0}' || c == '\U{1680}' || ('\U{2000}' <= c <= '\U{200A}') ||
    c == '\U{2028}' || c == '\U{2029}' || c == '\U{202F}' || c == '\U{205F}' ||
    c == '\U{3000}' || c == '\U{FEFF}'
  }

  predicate AllDigits(s: string)
  {
    forall k :: 0 <= k < |s| ==> IsDigit(s[k])
  }

  predicate AllWhite(s: string)
  {
    forall k :: 0 <= k < |s| ==> IsWhite(s[k])
  }

  /** `s` without its leading white space. */
  function TrimStart(s: string): (r: string)
    ensures |r| <= |s| && r == s[|s| - |r|..]
    ensures AllWhite(s[..|s| - |r|])
    ensures r == [] || !IsWhite(r[0])
  {
    if s != [] && IsWhite(s[0]) then
      var r := TrimStart(s[1..]);
      assert s[..|s| - |r|] == [s[0]] + s[1..][..|s| - 1 - |r|];
      r
    else s
  }

  /** The longest prefix of `s` made of decimal digits. */
  function DigitPrefix(s: string): (r: string)
    ensures |r| <= |s| && r == s[..|r|] && AllDigits(r)
    ensures |r| < |s| ==> !IsDigit(s[|r|])
  {
    if s != [] && IsDigit(s[0]) then [s[0]] + DigitPrefix(s[1..]) else []
  }

  /** The value of a string of decimal digits, most significant first. */
  function DigitsValue(ds: string): nat
    requires AllDigits(ds)
  {
    if ds == [] then 0 else DigitsValue(ds[..|ds| - 1]) * 10 + (ds[|ds| - 1] - '0') as int
  }

  /** `parseInt(s, 10)`, with `None` standing for NaN. */
  function ParseInt10(s: string): Option<int>
  {
    ParseSigned(TrimStart(s))
  }

  /** The rest of `parseInt` once the white space is gone: an optional sign
      and the digits after it. A negative zero is returned as 0. */
  function ParseSigned(t: string): Option<int>
  {
    if t != [] && t[0] == '-' then Negate(ParseDigits(t[1..]))
    else if t != [] && t[0] == '+' then ParseDigits(t[1..])
    else ParseDigits(t)
  }

  /** The value of the leading digits, or NaN without one. */
  function ParseDigits(u: string): Option<int>
  {
    var digits := DigitPrefix(u);
    if digits == [] then None else Some(DigitsValue(digits))
  }

  function Negate(v: Option<int>): Option<int>
  {
    if v.Some? then Some(-v.value) else None
  }

  /** The decimal rendering of a natural number. */
  function NatToString(n: nat): (r: string)
    ensures r != [] && AllDigits(r)
  {
    var d := ['0' + (n % 10) as char];
    if n < 10 then d else NatToString(n / 10) + d
  }

  /** The decimal rendering of an integer, as `String(n)` writes it. */
  function IntToString(n: int): (r: string)
    ensures r != [] && (r[0] == '-' || IsDigit(r[0]))
  {
    if n < 0 then "-" + NatToString(-n) else NatToString(n)
  }

  lemma {:induction false} NatToStringValue(n: nat)
    ensures DigitsValue(NatToString(n)) == n
  {
    var s := NatToString(n);
    if n >= 10 {
      NatToStringValue(n / 10);
      assert s[..|s| - 1] == NatToString(n / 10);
    }
  }

  lemma {:induction false} DigitPrefixOf(ds: string, rest: string)
    requires AllDigits(ds) && (rest == [] || !IsDigit(rest[0]))
    ensures DigitPrefix(ds + rest) == ds
  {
    if ds != [] {
      assert (ds + rest)[1..] == ds[1..] + rest;
      DigitPrefixOf(ds[1..], rest);
    } else {
      assert ds + rest == rest;
    }
  }

  lemma {:induction false} TrimStartOf(ws: string, t: string)
    requires AllWhite(ws) && (t == [] || !IsWhite(t[0]))
    ensures TrimStart(ws + t) == t
  {
    if ws != [] {
      assert (ws + t)[1..] == ws[1..] + t;
      TrimStartOf(ws[1..], t);
    } else {
      assert ws + t == t;
    }
  }

  lemma DigitsRendered(n: nat, rest: string)
    requires rest == [] || !IsDigit(rest[0])
    ensures ParseDigits(NatToString(n) + rest) == Some(n)
  {
    NatToStringValue(n);
    DigitPrefixOf(NatToString(n), rest);
  }

  lemma UnsignedRendered(n: nat, rest: string)
    requires rest == [] || !IsDigit(rest[0])
    ensures ParseSigned(NatToString(n) + rest) == Some(n)
  {
    var t := NatToString(n) + rest;
    assert t[0] == NatToString(n)[0];
    DigitsRendered(n, rest);
  }

  lemma NegativeRendered(n: int, rest: string)
    requires n < 0 && (rest == [] || !IsDigit(rest[0]))
    ensures ParseSigned(IntToString(n) + rest) == Some(n)
  {
    var m: nat := -n;
    var u := NatToString(m) + rest;
    assert IntToString(n) + rest == "-" + u;
    MinusSign(u);
    DigitsRendered(m, rest);
  }

  /** A leading `-` negates what the digits after it read as. */
  lemma MinusSign(u: string)
    ensures ParseSigned("-" + u) == Negate(ParseDigits(u))
  {
  }

  lemma SignedRendered(n: int, rest: string)
    requires rest == [] || !IsDigit(rest[0])
    ensures ParseSigned(IntToString(n) + rest) == Some(n)
  {
    if n < 0 {
      NegativeRendered(n, rest);
    } else {
      UnsignedRendered(n, rest);
    }
  }

  /** `parseInt` reads back what `String` writes, after any white space and
      before any text that does not continue the number. */
  lemma ParseRendered(ws: string, n: int, rest: string)
    requires AllWhite(ws) && (rest == [] || !IsDigit(rest[0]))
    ensures ParseInt10(ws + IntToString(n) + rest) == Some(n)
  {
    var t := IntToString(n) + rest;
    assert ws + IntToString(n) + rest == ws + t;
    assert t[0] == IntToString(n)[0];
    TrimStartOf(ws, t);
    SignedRendered(n, rest);
  }

  /** Text that starts with a sign or a digit is read with no white space
      to skip. */
  lemma NothingToTrim(t: string)
    requires t != [] && (t[0] == '-' || IsDigit(t[0]))
    ensures ParseInt10(t) == ParseSigned(t)
  {
  }

  /** `parseInt` reads back what `String` writes before any text that does
      not continue the number. */
  lemma ParseRenderedPrefix(n: int, rest: string)
    requires rest == [] || !IsDigit(rest[0])
    ensures ParseInt10(IntToString(n) + rest) == Some(n)
  {
    var t := IntToString(n) + rest;
    assert t[0] == IntToString(n)[0];
    NothingToTrim(t);
    SignedRendered(n, rest);
  }

  /** The plain round trip. */
  lemma ParseRoundTrip(n: int)
    ensures ParseInt10(IntToString(n)) == Some(n)
  {
    ParseRendered("", n, "");
    assert "" + IntToString(n) + "" == IntToString(n);
  }

  /** A string whose first character after the white space is neither a
      digit nor a sign followed by a digit is NaN. */
  lemma NotANumber(ws: string, rest: string)
    requires AllWhite(ws)
    requires rest == [] || (!IsDigit(rest[0]) && !IsWhite(rest[0]) &&
                            ((rest[0] == '-' || rest[0] == '+') ==> |rest| == 1 || !IsDigit(rest[1])))
    ensures ParseInt10(ws + rest) == None
  {
    TrimStartOf(ws, rest);
  }
}
