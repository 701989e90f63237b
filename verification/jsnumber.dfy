/** JavaScript's loose comparison `s != 0` for a query-string value s: the string is converted
    with ToNumber (section 7.1.4.1.1, StringToNumber, of ECMA-262) and compared with zero. */
module JsNumber {

  /** The StrWhiteSpaceChar set of ECMA-262: WhiteSpace and LineTerminator code points. */
  predicate IsWhiteSpace(c: char)
  {
    || c == '\t' || c == '\n' || c == '\U{B}' || c == '\U{C}' || c == '\r' || c == ' '
    || c == '\U{A0}' || c == '\U{1680}' || ('\U{2000}' <= c <= '\U{200A}')
    || c == '\U{2028}' || c == '\U{2029}' || c == '\U{202F}' || c == '\U{205F}'
    || c == '\U{3000}' || c == '\U{FEFF}'
  }

  predicate AllWhiteSpace(s: string)
  {
    forall i :: 0 <= i < |s| ==> IsWhiteSpace(s[i])
  }

  /** s without its leading white space. */
  function TrimStart(s: string): (r: string)
    ensures |r| <= |s|
    ensures r == s[|s| - |r|..]
    ensures r == [] || !IsWhiteSpace(r[0])
    ensures AllWhiteSpace(s[..|s| - |r|])
  {
    if s != [] && IsWhiteSpace(s[0]) then
      var r := TrimStart(s[1..]);
      assert s[..|s| - |r|] == [s[0]] + s[1..][..|s[1..]| - |r|];
      r
    else s
  }

  /** s without its trailing white space. */
  function TrimEnd(s: string): (r: string)
    ensures |r| <= |s|
    ensures r == s[..|r|]
    ensures r == [] || !IsWhiteSpace(r[|r| - 1])
    ensures AllWhiteSpace(s[|r|..])
  {
    if s != [] && IsWhiteSpace(s[|s| - 1]) then
      var p := s[..|s| - 1];
      var r := TrimEnd(p);
      assert p[..|r|] == s[..|r|];
      assert AllWhiteSpace(s[|r|..]) by {
        forall i | 0 <= i < |s| - |r| ensures IsWhiteSpace(s[|r|..][i]) {
          if i < |p| - |r| {
            assert s[|r|..][i] == p[|r|..][i];
          } else {
            assert s[|r|..][i] == s[|s| - 1];
          }
        }
      }
      r
    else s
  }

  function Trim(s: string): string
  {
    TrimEnd(TrimStart(s))
  }

  predicate IsDigit(c: char)
  {
    '0' <= c <= '9'
  }

  predicate IsDigits(s: string)
  {
    |s| > 0 && forall i :: 0 <= i < |s| ==> IsDigit(s[i])
  }

  /** An ExponentPart (e or E, an optional sign, decimal digits), or nothing. */
  predicate IsExponentPart(s: string)
  {
    || s == []
    || (&& |s| >= 2 && (s[0] == 'e' || s[0] == 'E')
        && (IsDigits(s[1..]) || (|s| >= 3 && (s[1] == '+' || s[1] == '-') && IsDigits(s[2..]))))
  }

  /** The index of the first e or E in s, or |s|. */
  function ExponentStart(s: string): (k: nat)
    ensures k <= |s|
    ensures forall i :: 0 <= i < k ==> s[i] != 'e' && s[i] != 'E'
    ensures k < |s| ==> s[k] == 'e' || s[k] == 'E'
  {
    if s == [] || s[0] == 'e' || s[0] == 'E' then 0 else 1 + ExponentStart(s[1..])
  }

  /** The digits-and-point part of an unsigned decimal literal whose value is zero:
      at least one digit, all digits 0, at most one decimal point. */
  predicate IsZeroMantissa(m: string)
  {
    && m != [] && m != "."
    && (forall i :: 0 <= i < |m| ==> m[i] == '0' || m[i] == '.')
    && multiset(m)['.'] <= 1
  }

  /** A StrUnsignedDecimalLiteral that denotes zero. */
  predicate IsZeroUnsignedDecimal(s: string)
  {
    var k := ExponentStart(s);
    IsZeroMantissa(s[..k]) && IsExponentPart(s[k..])
  }

  /** A StrDecimalLiteral (optionally signed) that denotes zero. */
  predicate IsZeroDecimal(s: string)
  {
    if s != [] && (s[0] == '+' || s[0] == '-') then IsZeroUnsignedDecimal(s[1..])
    else IsZeroUnsignedDecimal(s)
  }

  /** A NonDecimalIntegerLiteral (0x, 0o or 0b and digits) that denotes zero. */
  predicate IsZeroNonDecimal(s: string)
  {
    && |s| >= 3 && s[0] == '0'
    && (s[1] == 'x' || s[1] == 'X' || s[1] == 'o' || s[1] == 'O' || s[1] == 'b' || s[1] == 'B')
    && forall i :: 2 <= i < |s| ==> s[i] == '0'
  }

  /** Whether ToNumber(s) is +0 or -0, that is, whether `s == 0` holds in JavaScript.
      White space alone converts to 0; anything that is not a numeric literal converts to NaN.
      So a string equal to 0 is blank or has a 0 digit somewhere in its trimmed text. */
  function LooselyEqualsZero(s: string): (b: bool)
    ensures Trim(s) == [] ==> b
    ensures b ==> Trim(s) == [] || '0' in Trim(s)
  {
    var t := Trim(s);
    if IsZeroDecimal(t) || IsZeroNonDecimal(t) then
      ZeroLiteralHasZeroDigit(t);
      true
    else t == []
  }

  /** Every numeric literal that denotes zero has a 0 among its digits. */
  lemma ZeroLiteralHasZeroDigit(t: string)
    requires IsZeroDecimal(t) || IsZeroNonDecimal(t)
    ensures '0' in t
  {
    if IsZeroNonDecimal(t) {
      assert t[0] == '0';
    } else {
      var signed := t != [] && (t[0] == '+' || t[0] == '-');
      var u := if signed then t[1..] else t;
      var m := u[..ExponentStart(u)];
      ZeroMantissaHasZeroDigit(m);
      var j :| 0 <= j < |m| && m[j] == '0';
      if signed {
        assert t[j + 1] == m[j];
      } else {
        assert t[j] == m[j];
      }
    }
  }

  /** A zero mantissa is not all decimal points, since it has at most one and is not ".". */
  lemma ZeroMantissaHasZeroDigit(m: string)
    requires IsZeroMantissa(m)
    ensures '0' in m
  {
    if |m| == 1 {
      assert m == [m[0]];
    } else if m[0] != '0' {
      assert m == [m[0], m[1]] + m[2..];
      assert multiset(m)['.'] >= multiset([m[0], m[1]])['.'];
    }
  }

  /** Surrounding white space never changes whether a string converts to zero. */
  lemma {:induction false} WhiteSpaceIsIgnored(w1: string, s: string, w2: string)
    requires AllWhiteSpace(w1) && AllWhiteSpace(w2)
    ensures LooselyEqualsZero(w1 + s + w2) == LooselyEqualsZero(s)
  {
    TrimIgnoresWhiteSpace(w1, s, w2);
    SameTrimSameAnswer(w1 + s + w2, s);
  }

  /** Whether a string converts to zero depends only on its trimmed text. */
  lemma SameTrimSameAnswer(a: string, b: string)
    requires Trim(a) == Trim(b)
    ensures LooselyEqualsZero(a) == LooselyEqualsZero(b)
  {
  }

  /** Trimming removes any white space added around a string. */
  lemma {:induction false} TrimIgnoresWhiteSpace(w1: string, s: string, w2: string)
    requires AllWhiteSpace(w1) && AllWhiteSpace(w2)
    ensures Trim(w1 + s + w2) == Trim(s)
  {
    assert w1 + s + w2 == w1 + (s + w2);
    TrimStartPrefix(w1, s + w2);
    assert Trim(w1 + s + w2) == TrimEnd(TrimStart(s + w2));
    TrimStartSuffix(s, w2);
    if TrimStart(s + w2) == TrimStart(s) + w2 {
      TrimEndSuffix(TrimStart(s), w2);
    } else {
      TrimEndAllWhiteSpace(TrimStart(s + w2));
    }
    assert Trim(w1 + s + w2) == Trim(s);
  }

  lemma {:induction false} TrimEndAllWhiteSpace(s: string)
    requires AllWhiteSpace(s)
    ensures TrimEnd(s) == []
    decreases |s|
  {
    if s != [] {
      TrimEndAllWhiteSpace(s[..|s| - 1]);
    }
  }

  lemma {:induction false} TrimStartAllWhiteSpace(s: string)
    requires AllWhiteSpace(s)
    ensures TrimStart(s) == []
    decreases |s|
  {
    if s != [] {
      TrimStartAllWhiteSpace(s[1..]);
    }
  }

  lemma {:induction false} TrimStartPrefix(w: string, s: string)
    requires AllWhiteSpace(w)
    ensures TrimStart(w + s) == TrimStart(s)
    decreases |w|
  {
    if w != [] {
      assert (w + s)[1..] == w[1..] + s;
      TrimStartPrefix(w[1..], s);
    } else {
      assert w + s == s;
    }
  }

  /** White space at the end survives TrimStart unless everything is white space. */
  lemma {:induction false} TrimStartSuffix(s: string, w: string)
    requires AllWhiteSpace(w)
    ensures TrimStart(s + w) == TrimStart(s) + w || (TrimStart(s) == [] && AllWhiteSpace(TrimStart(s + w)))
    decreases |s|
  {
    if s == [] {
      assert s + w == w;
      TrimStartAllWhiteSpace(w);
    } else if IsWhiteSpace(s[0]) {
      assert (s + w)[0] == s[0];
      assert (s + w)[1..] == s[1..] + w;
      assert TrimStart(s + w) == TrimStart(s[1..] + w);
      assert TrimStart(s) == TrimStart(s[1..]);
      TrimStartSuffix(s[1..], w);
    } else {
      assert (s + w)[0] == s[0];
    }
  }

  lemma {:induction false} TrimEndSuffix(s: string, w: string)
    requires AllWhiteSpace(w)
    ensures TrimEnd(s + w) == TrimEnd(s)
    decreases |w|
  {
    if w != [] {
      var w' := w[..|w| - 1];
      assert (s + w)[..|s + w| - 1] == s + w';
      TrimEndSuffix(s, w');
    } else {
      assert s + w == s;
    }
  }

  /** A string that neither starts nor ends with white space is its own trim. */
  lemma TrimmedAlready(s: string)
    requires s != [] && !IsWhiteSpace(s[0]) && !IsWhiteSpace(s[|s| - 1])
    ensures Trim(s) == s
  {
  }

  /** A value such as "asc" or "desc", which does not start like a number, is never 0. */
  lemma {:induction false} WordIsNotZero(s: string)
    requires var t := Trim(s); t != [] && !IsDigit(t[0]) && t[0] !in ".+-"
    ensures !LooselyEqualsZero(s)
  {
    WordIsNotDecimalZero(Trim(s));
  }

  lemma ZeroIsZero()
    ensures LooselyEqualsZero("0")
  {
    TrimmedAlready("0");
    ZeroLiteral();
  }

  lemma ZeroLiteral()
    ensures IsZeroDecimal("0")
  {
    assert ExponentStart("0") == 1;
    assert "0"[..1] == "0" && "0"[1..] == [];
    assert multiset("0")['.'] == 0;
  }

  lemma EmptyIsZero()
    ensures LooselyEqualsZero("")
  {
  }

  lemma OneIsNotZero()
    ensures !LooselyEqualsZero("1")
  {
    TrimmedAlready("1");
    OneIsNotDecimalZero();
  }

  lemma OneIsNotDecimalZero()
    ensures !IsZeroDecimal("1") && !IsZeroNonDecimal("1")
  {
    assert ExponentStart("1") == 1;
    assert "1"[..1] == "1";
  }

  lemma MinusOneIsNotZero()
    ensures !LooselyEqualsZero("-1")
  {
    TrimmedAlready("-1");
    MinusOneIsNotDecimalZero();
  }

  lemma MinusOneIsNotDecimalZero()
    ensures !IsZeroDecimal("-1") && !IsZeroNonDecimal("-1")
  {
    assert "-1"[1..] == "1";
    OneIsNotDecimalZero();
  }

  lemma AscIsNotZero()
    ensures !LooselyEqualsZero("asc")
  {
    TrimmedAlready("asc");
    AscIsNotDecimalZero();
  }

  lemma AscIsNotDecimalZero()
    ensures !IsZeroDecimal("asc") && !IsZeroNonDecimal("asc")
  {
    WordIsNotDecimalZero("asc");
  }

  lemma DescIsNotZero()
    ensures !LooselyEqualsZero("desc")
  {
    TrimmedAlready("desc");
    DescIsNotDecimalZero();
  }

  lemma DescIsNotDecimalZero()
    ensures !IsZeroDecimal("desc") && !IsZeroNonDecimal("desc")
  {
    WordIsNotDecimalZero("desc");
  }

  lemma WordIsNotDecimalZero(s: string)
    requires s != [] && !IsDigit(s[0]) && s[0] !in ".+-"
    ensures !IsZeroDecimal(s) && !IsZeroNonDecimal(s)
  {
    var k := ExponentStart(s);
    if k > 0 {
      assert s[..k][0] == s[0];
    }
  }
}
