/** The usual optional value; None stands for a JavaScript NaN where a score is derived. */
module Options {
  datatype Option<T> = None | Some(value: T)
}

/** The part of JavaScript's number conversions that the lexicon build relies on:
    `Number(text)` (and the implicit conversion done by `/`), `parseFloat(text)`, and
    `Math.floor`, with numbers kept as exact decimals instead of doubles. */
module JsNumbers {
  import opened Options

  function Pow10(k: nat): (p: nat)
    ensures p >= 1
  {
    if k == 0 then 1 else 10 * Pow10(k - 1)
  }

  /** A number as the build sees it: the finite decimal mantissa / 10^scale, or NaN. */
  datatype Number = Finite(mantissa: int, scale: nat) | NaN
  {
    /** `x === 0` in JavaScript (which also holds for -0). */
    predicate IsZero() {
      Finite? && mantissa == 0
    }
  }

  /** The exact value a finite number denotes. */
  function Value(x: Number): real
    requires x.Finite?
  {
    x.mantissa as real / Pow10(x.scale) as real
  }

  /** `s` is `Math.floor(x)`. */
  ghost predicate IsFloor(s: int, x: real)
  {
    s as real <= x < s as real + 1.0
  }

  /** Math.floor gives 0 exactly on [0, 1). */
  lemma FloorIsZero(s: int, x: real)
    requires IsFloor(s, x)
    ensures s == 0 <==> 0.0 <= x < 1.0
  {
  }

  lemma {:induction false} FloorOfQuotient(a: int, b: int, q: int)
    requires b > 0
    requires q * b <= a < q * b + b
    ensures IsFloor(q, a as real / b as real)
  {
    var x := a as real / b as real;
    assert x * (b as real) == a as real;
    assert (q * b) as real == q as real * b as real;
    assert (q * b + b) as real == q as real * b as real + b as real;
    assert (x - q as real) * (b as real) >= 0.0;
    var y := q as real + 1.0 - x;
    assert y * (b as real) == (q * b + b) as real - a as real;
    assert y * (b as real) > 0.0;
  }

  /** Floor of the quotient of two integers, `Math.floor(a / b)` taken exactly. */
  function FloorDiv(a: int, b: int): (q: int)
    requires b != 0
    ensures IsFloor(q, a as real / b as real)
  {
    if b > 0 then
      FloorOfQuotient(a, b, a / b);
      a / b
    else
      FloorOfQuotient(-a, -b, (-a) / (-b));
      assert (-a) as real / (-b) as real == a as real / b as real;
      (-a) / (-b)
  }

  /** JavaScript's StrWhiteSpaceChar: white space and line terminators, which
      `Number()` trims on both sides and `parseFloat()` skips at the start. */
  predicate IsSpace(c: char)
  {
    || c == '\t' || c == '\n' || c == '\U{000B}' || c == '\U{000C}' || c == '\r'
    || c == ' ' || c == '\U{00A0}' || c == '\U{1680}' || ('\U{2000}' <= c <= '\U{200A}')
    || c == '\U{2028}' || c == '\U{2029}' || c == '\U{202F}' || c == '\U{205F}'
    || c == '\U{3000}' || c == '\U{FEFF}'
  }

  function TrimStart(s: string): (t: string)
    ensures |t| <= |s| && t == s[|s| - |t|..]
    ensures forall i :: 0 <= i < |s| - |t| ==> IsSpace(s[i])
    ensures t != [] ==> !IsSpace(t[0])
    decreases |s|
  {
    if s != [] && IsSpace(s[0]) then TrimStart(s[1..]) else s
  }

  function TrimEnd(s: string): (t: string)
    ensures |t| <= |s| && t == s[..|t|]
    ensures forall i :: |t| <= i < |s| ==> IsSpace(s[i])
    ensures t != [] ==> !IsSpace(t[|t| - 1])
    decreases |s|
  {
    if s != [] && IsSpace(s[|s| - 1]) then TrimEnd(s[..|s| - 1]) else s
  }

  /** `s.trim()`. */
  function Trim(s: string): string
  {
    TrimEnd(TrimStart(s))
  }

  predicate IsDigit(c: char)
  {
    '0' <= c <= '9'
  }

  predicate AllDigits(s: string)
  {
    forall i :: 0 <= i < |s| ==> IsDigit(s[i])
  }

  /** The value of a run of decimal digits, most significant first. */
  function DigitsValue(ds: string): nat
    requires AllDigits(ds)
  {
    if ds == [] then 0
    else DigitsValue(ds[..|ds| - 1]) * 10 + (ds[|ds| - 1] as int - '0' as int)
  }

  /** Length of the longest run of digits at the start of `s`. */
  function LeadingDigits(s: string): (n: nat)
    ensures n <= |s| && AllDigits(s[..n])
    ensures n < |s| ==> !IsDigit(s[n])
    decreases |s|
  {
    if s == [] || !IsDigit(s[0]) then 0 else 1 + LeadingDigits(s[1..])
  }

  /** A decimal literal found at the start of a text: its value and how many
      characters it spans. */
  datatype Literal = Literal(value: Number, length: nat)

  predicate IsSign(c: char)
  {
    c == '+' || c == '-'
  }

  /** A text without the one sign character it may start with. */
  function Unsigned(s: string): string
  {
    if |s| > 0 && IsSign(s[0]) then s[1..] else s
  }

  /** `u` is digits and at most one '.', with at least one digit. */
  ghost predicate DecimalBody(u: string)
  {
    && (forall k :: 0 <= k < |u| ==> IsDigit(u[k]) || u[k] == '.')
    && (forall j, k :: 0 <= j < k < |u| && u[j] == '.' ==> u[k] != '.')
    && (exists k :: 0 <= k < |u| && IsDigit(u[k]))
  }

  /** `s` is one whole decimal literal of the kind `parseFloat` and `Number()`
      read: an optional sign, then digits and at most one '.', with at least one
      digit among them. */
  ghost predicate IsDecimal(s: string)
  {
    DecimalBody(Unsigned(s))
  }

  lemma UnsignedPrefix(t: string, n: nat)
    requires 0 < n <= |t|
    ensures Unsigned(t[..n]) == t[(if IsSign(t[0]) then 1 else 0)..n]
  {
  }

  /** The parts a scan finds in an unsigned text: `i` leading digits, then
      perhaps a dot and `f` more digits. */
  ghost predicate ScanParts(u: string, i: nat, hasDot: bool, f: nat)
  {
    && i == LeadingDigits(u)
    && hasDot == (i < |u| && u[i] == '.')
    && f == (if hasDot then LeadingDigits(u[i + 1..]) else 0)
  }

  function PartsLength(i: nat, hasDot: bool, f: nat): nat
  {
    i + (if hasDot then 1 + f else 0)
  }

  /** The parts found span a decimal body when they hold a digit. */
  lemma PartsDecimal(u: string, i: nat, hasDot: bool, f: nat)
    requires ScanParts(u, i, hasDot, f) && i + f > 0
    ensures PartsLength(i, hasDot, f) <= |u| && DecimalBody(u[..PartsLength(i, hasDot, f)])
  {
    var p := PartsLength(i, hasDot, f);
    var v := u[..p];
    assert AllDigits(u[..i]);
    forall k | 0 <= k < |v| ensures IsDigit(v[k]) || v[k] == '.' {
      if k < i {
        assert u[..i][k] == v[k];
      } else if k > i {
        assert AllDigits(u[i + 1..][..f]);
        assert u[i + 1..][..f][k - i - 1] == v[k];
      }
    }
    assert IsDigit(v[if i > 0 then 0 else i + 1]) by {
      if i == 0 {
        assert AllDigits(u[i + 1..][..f]);
        assert u[i + 1..][..f][0] == v[1];
      } else {
        assert u[..i][0] == v[0];
      }
    }
  }

  /** No prefix of `u` longer than the parts found is a decimal body; when the
      parts hold no digit, no prefix at all is. */
  lemma PartsLongest(u: string, i: nat, hasDot: bool, f: nat, m: nat)
    requires ScanParts(u, i, hasDot, f) && m <= |u|
    requires i + f > 0 ==> PartsLength(i, hasDot, f) < m
    ensures !DecimalBody(u[..m])
  {
    var v := u[..m];
    var p := PartsLength(i, hasDot, f);
    if i + f > 0 {
      assert v[p] == u[p];
      if hasDot {
        assert u[i + 1..][f] == u[p];
        assert v[i] == '.';
      }
    } else if m > 0 {
      assert v[0] == u[0];
      if u[0] == '.' && m > 1 {
        assert u[1..][0] == u[1] == v[1];
      } else if u[0] == '.' {
        assert forall k :: 0 <= k < |v| ==> !IsDigit(v[k]);
      }
    }
  }

  /** The sign and the parts found span a decimal literal when the parts hold a
      digit. */
  lemma SignedFound(t: string, signLen: nat, i: nat, hasDot: bool, f: nat)
    requires signLen == (if |t| > 0 && IsSign(t[0]) then 1 else 0)
    requires ScanParts(t[signLen..], i, hasDot, f) && i + f > 0
    ensures signLen + PartsLength(i, hasDot, f) <= |t|
    ensures IsDecimal(t[..signLen + PartsLength(i, hasDot, f)])
  {
    PartsDecimal(t[signLen..], i, hasDot, f);
    SignedPrefix(t, signLen, signLen + PartsLength(i, hasDot, f));
  }

  /** No prefix of `t` longer than the sign and the parts found is a decimal
      literal; when the parts hold no digit, no prefix at all is. */
  lemma SignedLongest(t: string, signLen: nat, i: nat, hasDot: bool, f: nat)
    requires signLen == (if |t| > 0 && IsSign(t[0]) then 1 else 0)
    requires ScanParts(t[signLen..], i, hasDot, f)
    ensures forall n :: (if i + f > 0 then signLen + PartsLength(i, hasDot, f) else 0) < n <= |t| ==> !IsDecimal(t[..n])
  {
    forall n | (if i + f > 0 then signLen + PartsLength(i, hasDot, f) else 0) < n <= |t| ensures !IsDecimal(t[..n]) {
      SignedLonger(t, signLen, i, hasDot, f, n);
    }
  }

  lemma SignedLonger(t: string, signLen: nat, i: nat, hasDot: bool, f: nat, n: nat)
    requires signLen == (if |t| > 0 && IsSign(t[0]) then 1 else 0)
    requires ScanParts(t[signLen..], i, hasDot, f)
    requires (if i + f > 0 then signLen + PartsLength(i, hasDot, f) else 0) < n <= |t|
    ensures !IsDecimal(t[..n])
  {
    SignedPrefix(t, signLen, n);
    PartsLongest(t[signLen..], i, hasDot, f, n - signLen);
  }

  /** A prefix of `t` past its sign is a decimal literal when the unsigned part is
      a decimal body. */
  lemma SignedPrefix(t: string, signLen: nat, n: nat)
    requires signLen == (if |t| > 0 && IsSign(t[0]) then 1 else 0)
    requires 0 < n <= |t| && signLen <= n
    ensures IsDecimal(t[..n]) == DecimalBody(t[signLen..][..n - signLen])
  {
    UnsignedPrefix(t, n);
    assert t[signLen..n] == t[signLen..][..n - signLen];
  }

  /** The literal read from a text without a sign whose parts are known: the
      digits before and after the dot read as one integer, over 10 to the number of
      fraction digits; None when the parts hold no digit. */
  function BodyOf(u: string, i: nat, hasDot: bool, f: nat): (r: Option<Literal>)
    requires ScanParts(u, i, hasDot, f)
    ensures r.None? <==> i + f == 0
    ensures r.Some? ==> r.value.length == PartsLength(i, hasDot, f) && r.value.value.Finite? && r.value.value.scale == f
  {
    if i + f == 0 then None
    else
      assert hasDot ==> AllDigits(u[i + 1..][..f]);
      assert hasDot ==> u[i + 1..i + 1 + f] == u[i + 1..][..f];
      var digits := u[..i] + (if hasDot then u[i + 1..i + 1 + f] else "");
      Some(Literal(Finite(DigitsValue(digits), f), PartsLength(i, hasDot, f)))
  }

  /** The scan of a text without a sign: its leading digits, then perhaps a dot
      and more digits. */
  function ScanBody(u: string): (r: Option<Literal>)
    ensures r.Some? ==> 0 < r.value.length <= |u| && r.value.value.Finite?
  {
    var i := LeadingDigits(u);
    var hasDot := i < |u| && u[i] == '.';
    var f := if hasDot then LeadingDigits(u[i + 1..]) else 0;
    BodyOf(u, i, hasDot, f)
  }

  /** ScanBody of a text with `i` digits, a dot and `f` more digits reads those
      digits as one integer over 10 to `f`. */
  lemma BodyFraction(u: string, i: nat, f: nat, digits: string)
    requires ScanParts(u, i, true, f) && i + f > 0
    requires AllDigits(digits)
    requires digits == u[..i] + u[i + 1..i + 1 + f]
    ensures ScanBody(u) == Some(Literal(Finite(DigitsValue(digits), f), i + 1 + f))
  {
  }

  /** ScanBody of a text with `i` digits and no dot after them reads those digits
      as one integer. */
  lemma BodyWhole(u: string, i: nat)
    requires ScanParts(u, i, false, 0) && i > 0
    requires AllDigits(u[..i])
    ensures ScanBody(u) == Some(Literal(Finite(DigitsValue(u[..i]), 0), i))
  {
    assert u[..i] + "" == u[..i];
  }

  /** A scanned literal behind the sign `c`: one character longer, and negated
      after '-'. */
  function WithSign(c: char, r: Option<Literal>): (r': Option<Literal>)
    requires r.Some? ==> r.value.value.Finite?
    ensures r'.Some? <==> r.Some?
    ensures r'.Some? ==> r'.value.length == r.value.length + 1 && r'.value.value.Finite?
  {
    match r
    case None => None
    case Some(lit) =>
      var m := lit.value.mantissa;
      Some(Literal(Finite(if c == '-' then -m else m, lit.value.scale), lit.length + 1))
  }

  /** `parseFloat`'s scan: an optional sign, then the body; the longest prefix of
      `t` that is a decimal literal, the decimal part of JavaScript's
      StrDecimalLiteral, with its value; None when no prefix is one
      (ScanDecimalLongest). */
  function ScanDecimal(t: string): (r: Option<Literal>)
    ensures r.Some? ==> 0 < r.value.length <= |t| && r.value.value.Finite?
  {
    if |t| > 0 && IsSign(t[0]) then WithSign(t[0], ScanBody(t[1..])) else ScanBody(t)
  }

  /** Whether ScanDecimal finds a literal, and how long it is, in terms of the
      parts of the text after its sign. */
  lemma ScanShape(t: string)
    ensures var signLen := if |t| > 0 && IsSign(t[0]) then 1 else 0;
      var u := t[signLen..];
      var i := LeadingDigits(u);
      var hasDot := i < |u| && u[i] == '.';
      var f := if hasDot then LeadingDigits(u[i + 1..]) else 0;
      && (ScanDecimal(t).Some? <==> i + f > 0)
      && (ScanDecimal(t).Some? ==> ScanDecimal(t).value.length == signLen + PartsLength(i, hasDot, f))
  {
    if !(|t| > 0 && IsSign(t[0])) {
      assert t[0..] == t;
    }
  }

  /** What ScanDecimal finds is a decimal literal, and no longer prefix of the text
      is one; when it finds nothing, no prefix is one. */
  lemma ScanDecimalLongest(t: string)
    ensures var r := ScanDecimal(t);
      && (r.Some? ==> IsDecimal(t[..r.value.length]))
      && (forall n :: (if r.Some? then r.value.length else 0) < n <= |t| ==> !IsDecimal(t[..n]))
  {
    ScanFound(t);
    ScanNoLonger(t);
  }

  /** What ScanDecimal finds is a decimal literal. */
  lemma ScanFound(t: string)
    ensures ScanDecimal(t).Some? ==> IsDecimal(t[..ScanDecimal(t).value.length])
  {
    var signLen := if |t| > 0 && IsSign(t[0]) then 1 else 0;
    var u := t[signLen..];
    var i := LeadingDigits(u);
    var hasDot := i < |u| && u[i] == '.';
    var f := if hasDot then LeadingDigits(u[i + 1..]) else 0;
    ScanShape(t);
    if i + f > 0 {
      SignedFound(t, signLen, i, hasDot, f);
    }
  }

  /** No prefix of the text longer than what ScanDecimal finds is a decimal
      literal. */
  lemma ScanNoLonger(t: string)
    ensures forall n :: (if ScanDecimal(t).Some? then ScanDecimal(t).value.length else 0) < n <= |t| ==> !IsDecimal(t[..n])
  {
    var signLen := if |t| > 0 && IsSign(t[0]) then 1 else 0;
    var u := t[signLen..];
    var i := LeadingDigits(u);
    var hasDot := i < |u| && u[i] == '.';
    var f := if hasDot then LeadingDigits(u[i + 1..]) else 0;
    ScanShape(t);
    SignedLongest(t, signLen, i, hasDot, f);
  }

  /** `parseFloat(s)`: skip leading white space, then read the longest decimal
      literal (ParseFloatNaN, ParseFloatFraction, ParseFloatWhole). */
  function ParseFloat(s: string): (r: Number)
    ensures r.Finite? <==> ScanDecimal(TrimStart(s)).Some?
  {
    match ScanDecimal(TrimStart(s))
    case None => NaN
    case Some(lit) => lit.value
  }

  /** parseFloat() is NaN exactly when, after the leading white space, no prefix of
      the text is a decimal literal. */
  lemma ParseFloatNaN(s: string)
    ensures ParseFloat(s).NaN? <==> forall n :: 0 < n <= |TrimStart(s)| ==> !IsDecimal(TrimStart(s)[..n])
  {
    ScanDecimalLongest(TrimStart(s));
  }

  /** `Number(s)`: a blank text is 0, and otherwise the trimmed text must be one
      decimal literal as a whole; anything else is NaN (ToNumberFinite). */
  function ToNumber(s: string): (r: Number)
    ensures Trim(s) == "" ==> r == Finite(0, 0)
  {
    var t := Trim(s);
    if t == "" then Finite(0, 0)
    else
      match ScanDecimal(t)
      case Some(lit) => if lit.length == |t| then lit.value else NaN
      case None => NaN
  }

  /** Number() of a text that is not blank is a number exactly when the trimmed
      text is a decimal literal as a whole. */
  lemma ToNumberFinite(s: string)
    requires Trim(s) != ""
    ensures ToNumber(s).Finite? <==> IsDecimal(Trim(s))
  {
    var t := Trim(s);
    assert t[..|t|] == t;
    ScanDecimalLongest(t);
  }

  /** The decimal rendering of a natural number, as JavaScript prints it. */
  function NatText(n: nat): (s: string)
    ensures |s| >= 1 && AllDigits(s) && DigitsValue(s) == n
  {
    var d := ['0' + (n % 10) as char];
    if n < 10 then
      assert DigitsValue(d) == DigitsValue([]) * 10 + n;
      d
    else
      var s := NatText(n / 10) + d;
      assert s[..|s| - 1] == NatText(n / 10);
      s
  }

  /** The decimal rendering of an integer, with a leading minus when negative. */
  function IntText(n: int): string
  {
    if n < 0 then "-" + NatText(-n) else NatText(n)
  }

  /** Leading digits run on through a prefix of digits. */
  lemma {:induction false} LeadingDigitsAppend(ds: string, s: string)
    requires AllDigits(ds)
    ensures LeadingDigits(ds + s) == |ds| + LeadingDigits(s)
    decreases |ds|
  {
    if ds == [] {
      assert ds + s == s;
    } else {
      assert (ds + s)[0] == ds[0] && IsDigit(ds[0]);
      assert (ds + s)[1..] == ds[1..] + s;
      assert AllDigits(ds[1..]) by {
        forall k | 0 <= k < |ds[1..]| ensures IsDigit(ds[1..][k]) { assert ds[1..][k] == ds[k + 1]; }
      }
      LeadingDigitsAppend(ds[1..], s);
    }
  }

  /** `m` negated after the sign '-', and kept after '+'. */
  function SignedValue(c: char, m: nat): int
  {
    if c == '-' then -(m as int) else m
  }

  /** A text that does not open with a sign is scanned as a body. */
  lemma ScanUnsigned(u: string, m: nat, f: nat, len: nat)
    requires u == [] || !IsSign(u[0])
    requires ScanBody(u) == Some(Literal(Finite(m, f), len))
    ensures ScanDecimal(u) == Some(Literal(Finite(m, f), len))
  {
  }

  /** A text opened by a sign is scanned as the body after it, one character
      longer and negated after '-'. */
  lemma ScanSigned(c: char, u: string, m: nat, f: nat, len: nat)
    requires IsSign(c)
    requires ScanBody(u) == Some(Literal(Finite(m, f), len))
    ensures ScanDecimal([c] + u) == Some(Literal(Finite(SignedValue(c, m), f), len + 1))
  {
    assert ([c] + u)[0] == c;
    assert ([c] + u)[1..] == u;
  }

  /** A literal with a fraction part: the scan stops at the first character after
      the fraction digits, and the value is the digits on both sides of the dot
      read as one integer, over 10 to the number of fraction digits. */
  lemma ScanFraction(ip: string, fp: string, rest: string)
    requires AllDigits(ip) && AllDigits(fp) && |ip| + |fp| > 0
    requires rest == [] || !IsDigit(rest[0])
    ensures AllDigits(ip + fp)
    ensures ScanDecimal(ip + ['.'] + fp + rest) == Some(Literal(Finite(DigitsValue(ip + fp), |fp|), |ip| + 1 + |fp|))
  {
    UnsignedFraction(ip, fp, rest);
    FractionStart(ip, fp, rest);
    ScanUnsigned(ip + ['.'] + fp + rest, DigitsValue(ip + fp), |fp|, |ip| + 1 + |fp|);
  }

  /** ScanFraction after a sign: one character longer, and negated after '-'. */
  lemma ScanSignedFraction(c: char, ip: string, fp: string, rest: string)
    requires IsSign(c)
    requires AllDigits(ip) && AllDigits(fp) && |ip| + |fp| > 0
    requires rest == [] || !IsDigit(rest[0])
    ensures AllDigits(ip + fp)
    ensures ScanDecimal([c] + (ip + ['.'] + fp + rest))
         == Some(Literal(Finite(SignedValue(c, DigitsValue(ip + fp)), |fp|), |ip| + 2 + |fp|))
  {
    UnsignedFraction(ip, fp, rest);
    ScanSigned(c, ip + ['.'] + fp + rest, DigitsValue(ip + fp), |fp|, |ip| + 1 + |fp|);
  }

  /** A literal with a fraction part opens with a digit or the dot: neither a
      sign nor white space. */
  lemma FractionStart(ip: string, fp: string, rest: string)
    requires AllDigits(ip)
    ensures var t := ip + ['.'] + fp + rest;
      !IsSign(t[0]) && !IsSpace(t[0])
  {
    var t := ip + ['.'] + fp + rest;
    assert t[0] == (if ip == [] then '.' else ip[0]);
  }

  /** The scan of the body of a literal with a fraction part. */
  lemma UnsignedFraction(ip: string, fp: string, rest: string)
    requires AllDigits(ip) && AllDigits(fp) && |ip| + |fp| > 0
    requires rest == [] || !IsDigit(rest[0])
    ensures AllDigits(ip + fp)
    ensures ScanBody(ip + ['.'] + fp + rest) == Some(Literal(Finite(DigitsValue(ip + fp), |fp|), |ip| + 1 + |fp|))
  {
    FractionParts(ip, fp, rest);
    BodyFraction(ip + ['.'] + fp + rest, |ip|, |fp|, ip + fp);
  }

  /** Two digit strings in a row are one digit string. */
  lemma AllDigitsAppend(a: string, b: string)
    requires AllDigits(a) && AllDigits(b)
    ensures AllDigits(a + b)
  {
    forall k | 0 <= k < |a + b| ensures IsDigit((a + b)[k]) {
      if k < |a| { assert (a + b)[k] == a[k]; } else { assert (a + b)[k] == b[k - |a|]; }
    }
  }

  /** Where the parts of a literal with a fraction part lie in its body. */
  lemma FractionParts(ip: string, fp: string, rest: string)
    requires AllDigits(ip) && AllDigits(fp)
    requires rest == [] || !IsDigit(rest[0])
    ensures AllDigits(ip + fp)
    ensures var u := ip + ['.'] + fp + rest;
      && ScanParts(u, |ip|, true, |fp|)
      && u[..|ip|] + u[|ip| + 1..|ip| + 1 + |fp|] == ip + fp
  {
    var u := ip + ['.'] + fp + rest;
    AllDigitsAppend(ip, fp);
    assert u == ip + (['.'] + fp + rest);
    LeadingDigitsAppend(ip, ['.'] + fp + rest);
    assert u[|ip| + 1..] == fp + rest;
    LeadingDigitsAppend(fp, rest);
    assert rest != [] ==> LeadingDigits(rest) == 0;
  }

  /** A literal without a fraction part: the scan stops at the first character
      that is neither a digit nor a dot, and the value is the digits read as one
      integer. */
  lemma ScanWhole(ip: string, rest: string)
    requires |ip| > 0 && AllDigits(ip)
    requires rest == [] || (!IsDigit(rest[0]) && rest[0] != '.')
    ensures ScanDecimal(ip + rest) == Some(Literal(Finite(DigitsValue(ip), 0), |ip|))
  {
    UnsignedWhole(ip, rest);
    WholeStart(ip, rest);
    ScanUnsigned(ip + rest, DigitsValue(ip), 0, |ip|);
  }

  /** ScanWhole after a sign: one character longer, and negated after '-'. */
  lemma ScanSignedWhole(c: char, ip: string, rest: string)
    requires IsSign(c)
    requires |ip| > 0 && AllDigits(ip)
    requires rest == [] || (!IsDigit(rest[0]) && rest[0] != '.')
    ensures ScanDecimal([c] + (ip + rest)) == Some(Literal(Finite(SignedValue(c, DigitsValue(ip)), 0), |ip| + 1))
  {
    UnsignedWhole(ip, rest);
    ScanSigned(c, ip + rest, DigitsValue(ip), 0, |ip|);
  }

  /** A literal without a fraction part opens with a digit: neither a sign nor
      white space. */
  lemma WholeStart(ip: string, rest: string)
    requires |ip| > 0 && AllDigits(ip)
    ensures !IsSign((ip + rest)[0]) && !IsSpace((ip + rest)[0])
  {
    assert (ip + rest)[0] == ip[0];
  }

  /** The scan of the body of a literal without a fraction part. */
  lemma UnsignedWhole(ip: string, rest: string)
    requires |ip| > 0 && AllDigits(ip)
    requires rest == [] || (!IsDigit(rest[0]) && rest[0] != '.')
    ensures ScanBody(ip + rest) == Some(Literal(Finite(DigitsValue(ip), 0), |ip|))
  {
    WholeParts(ip, rest);
    BodyWhole(ip + rest, |ip|);
  }

  /** Where the parts of a literal without a fraction part lie in its body. */
  lemma WholeParts(ip: string, rest: string)
    requires |ip| > 0 && AllDigits(ip)
    requires rest == [] || (!IsDigit(rest[0]) && rest[0] != '.')
    ensures ScanParts(ip + rest, |ip|, false, 0) && (ip + rest)[..|ip|] == ip
  {
    var u := ip + rest;
    LeadingDigitsAppend(ip, rest);
    assert rest != [] ==> LeadingDigits(rest) == 0;
    assert u[..|ip|] == ip;
  }

  /** The decimal text of an integer scans as that integer, in full. */
  lemma ScanInteger(n: int)
    ensures ScanDecimal(IntText(n)) == Some(Literal(Finite(n, 0), |IntText(n)|))
  {
    var ip := NatText(if n < 0 then -n else n);
    assert ip + "" == ip;
    if n < 0 {
      assert IntText(n) == ['-'] + (ip + "");
      ScanSignedWhole('-', ip, "");
    } else {
      assert IntText(n) == ip + "";
      ScanWhole(ip, "");
    }
  }

  /** Number() reads back the decimal text of any integer exactly. */
  lemma {:induction false} ToNumberIntText(n: int)
    ensures ToNumber(IntText(n)) == Finite(n, 0)
  {
    var t := IntText(n);
    assert !IsSpace(t[0]) && !IsSpace(t[|t| - 1]);
    assert TrimStart(t) == t;
    assert TrimEnd(t) == t;
    ScanInteger(n);
  }

  /** Leading white space is what TrimStart drops, and all of it. */
  lemma {:induction false} TrimStartPadded(pad: string, t: string)
    requires forall i :: 0 <= i < |pad| ==> IsSpace(pad[i])
    requires t != [] && !IsSpace(t[0])
    ensures TrimStart(pad + t) == t
    decreases |pad|
  {
    if pad == [] {
      assert pad + t == t;
    } else {
      assert (pad + t)[0] == pad[0];
      assert (pad + t)[1..] == pad[1..] + t;
      TrimStartPadded(pad[1..], t);
    }
  }

  /** parseFloat() after white space and a literal with a fraction part: the value
      is the digits on both sides of the dot read as one integer, over 10 to the
      number of fraction digits; whatever follows the fraction digits is ignored. */
  lemma ParseFloatFraction(pad: string, ip: string, fp: string, rest: string)
    requires forall i :: 0 <= i < |pad| ==> IsSpace(pad[i])
    requires AllDigits(ip) && AllDigits(fp) && |ip| + |fp| > 0
    requires rest == [] || !IsDigit(rest[0])
    ensures AllDigits(ip + fp)
    ensures ParseFloat(pad + ip + ['.'] + fp + rest) == Finite(DigitsValue(ip + fp), |fp|)
  {
    var t := ip + ['.'] + fp + rest;
    Regroup5(pad, ip, ['.'], fp, rest);
    FractionStart(ip, fp, rest);
    TrimStartPadded(pad, t);
    ScanFraction(ip, fp, rest);
  }

  /** ParseFloatFraction with a sign before the digits: negated after '-'. */
  lemma ParseFloatSignedFraction(pad: string, c: char, ip: string, fp: string, rest: string)
    requires forall i :: 0 <= i < |pad| ==> IsSpace(pad[i])
    requires IsSign(c)
    requires AllDigits(ip) && AllDigits(fp) && |ip| + |fp| > 0
    requires rest == [] || !IsDigit(rest[0])
    ensures AllDigits(ip + fp)
    ensures ParseFloat(pad + [c] + ip + ['.'] + fp + rest) == Finite(SignedValue(c, DigitsValue(ip + fp)), |fp|)
  {
    var t := [c] + (ip + ['.'] + fp + rest);
    Regroup6(pad, [c], ip, ['.'], fp, rest);
    assert t[0] == c;
    TrimStartPadded(pad, t);
    ScanSignedFraction(c, ip, fp, rest);
  }

  /** parseFloat() after white space and a literal without a fraction part: the
      value is the digits read as one integer; what follows them is ignored. */
  lemma ParseFloatWhole(pad: string, ip: string, rest: string)
    requires forall i :: 0 <= i < |pad| ==> IsSpace(pad[i])
    requires |ip| > 0 && AllDigits(ip)
    requires rest == [] || (!IsDigit(rest[0]) && rest[0] != '.')
    ensures ParseFloat(pad + ip + rest) == Finite(DigitsValue(ip), 0)
  {
    var t := ip + rest;
    assert pad + ip + rest == pad + t;
    WholeStart(ip, rest);
    TrimStartPadded(pad, t);
    ScanWhole(ip, rest);
  }

  /** ParseFloatWhole with a sign before the digits: negated after '-'. */
  lemma ParseFloatSignedWhole(pad: string, c: char, ip: string, rest: string)
    requires forall i :: 0 <= i < |pad| ==> IsSpace(pad[i])
    requires IsSign(c)
    requires |ip| > 0 && AllDigits(ip)
    requires rest == [] || (!IsDigit(rest[0]) && rest[0] != '.')
    ensures ParseFloat(pad + [c] + ip + rest) == Finite(SignedValue(c, DigitsValue(ip)), 0)
  {
    var t := [c] + (ip + rest);
    Regroup4(pad, [c], ip, rest);
    assert t[0] == c;
    TrimStartPadded(pad, t);
    ScanSignedWhole(c, ip, rest);
  }

  /** Concatenations regrouped after their first piece. */
  lemma Regroup4(a: string, b: string, c: string, d: string)
    ensures a + b + c + d == a + (b + (c + d))
  {
  }

  lemma Regroup5(a: string, b: string, c: string, d: string, e: string)
    ensures a + b + c + d + e == a + (b + c + d + e)
  {
  }

  lemma Regroup6(a: string, b: string, c: string, d: string, e: string, f: string)
    ensures a + b + c + d + e + f == a + (b + (c + d + e + f))
  {
  }

  /** parseFloat() reads back the decimal text of any integer exactly, also when
      white space precedes it. */
  lemma ParseFloatIntText(pad: string, n: int)
    requires forall i :: 0 <= i < |pad| ==> IsSpace(pad[i])
    ensures ParseFloat(pad + IntText(n)) == Finite(n, 0)
  {
    var t := IntText(n);
    assert n < 0 ==> t[0] == '-';
    assert n >= 0 ==> IsDigit(t[0]);
    TrimStartPadded(pad, t);
    ScanInteger(n);
  }

  /** The decimal text of an integer holds nothing but a minus sign and digits, so
      it never contains a field separator. */
  lemma IntTextPlain(n: int, sep: char)
    requires sep != '-' && !IsDigit(sep)
    ensures sep !in IntText(n)
  {
  }
}
