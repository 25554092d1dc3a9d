/**
 * The few JavaScript string operations the core relies on: ASCII case folding
 * (`toLowerCase`, and the case-insensitive `contains` of the catalog query),
 * substring search, `trim`, the decimal rendering of an integer and `parseInt`.
 */
module Text {
  import opened Wrappers
  import opened Seqs

  predicate IsUpper(c: char) { 'A' <= c <= 'Z' }

  predicate IsDigit(c: char) { '0' <= c <= '9' }

  /** ASCII lower-casing of one character; every other character is kept. */
  function LowerChar(c: char): (r: char)
    ensures !IsUpper(r)
    ensures IsDigit(r) <==> IsDigit(c)
    ensures !IsUpper(c) ==> r == c
  {
    if IsUpper(c) then (c as int - 'A' as int + 'a' as int) as char else c
  }

  /** `s.toLowerCase()`, ASCII only. */
  function Lower(s: string): (r: string)
    ensures |r| == |s|
    ensures forall i :: 0 <= i < |s| ==> r[i] == LowerChar(s[i])
  {
    seq(|s|, i requires 0 <= i < |s| => LowerChar(s[i]))
  }

  lemma LowerAppend(a: string, b: string)
    ensures Lower(a + b) == Lower(a) + Lower(b)
  {
  }

  predicate IsPrefix(p: string, s: string) {
    |p| <= |s| && s[..|p|] == p
  }

  /** `s` contains `sub` as a contiguous substring. */
  predicate Contains(s: string, sub: string) {
    exists i | 0 <= i <= |s| - |sub| :: IsPrefix(sub, s[i..])
  }

  /** A case-insensitive substring test (the catalog's `mode: 'insensitive'`). */
  predicate ContainsIgnoringCase(s: string, sub: string) {
    Contains(Lower(s), Lower(sub))
  }

  /**
   * The characters `String.prototype.trim` and `parseInt` skip: white space
   * and line terminators of ECMAScript (tab, vertical tab, form feed, space,
   * no-break space, the Unicode space separators, line and paragraph
   * separators, byte-order mark, line feed and carriage return).
   */
  predicate IsJsWhitespace(c: char) {
    var n := c as int;
    n == 0x09 || n == 0x0A || n == 0x0B || n == 0x0C || n == 0x0D || n == 0x20 ||
    n == 0xA0 || n == 0x1680 || (0x2000 <= n <= 0x200A) || n == 0x2028 || n == 0x2029 ||
    n == 0x202F || n == 0x205F || n == 0x3000 || n == 0xFEFF
  }

  /** Removes leading white space: the result is a suffix of `s` that does not start with any. */
  function TrimStart(s: string): (r: string)
    ensures |r| <= |s| && r == s[|s| - |r|..]
    ensures r != [] ==> !IsJsWhitespace(r[0])
    ensures forall i :: 0 <= i < |s| - |r| ==> IsJsWhitespace(s[i])
  {
    if s != [] && IsJsWhitespace(s[0]) then TrimStart(s[1..]) else s
  }

  /** Removes trailing white space: the result is a prefix of `s` that does not end with any. */
  function TrimEnd(s: string): (r: string)
    ensures |r| <= |s| && r == s[..|r|]
    ensures r != [] ==> !IsJsWhitespace(r[|r| - 1])
    ensures forall i :: |r| <= i < |s| ==> IsJsWhitespace(s[i])
  {
    if s != [] && IsJsWhitespace(s[|s| - 1]) then TrimEnd(s[..|s| - 1]) else s
  }

  /**
   * `s.trim()`: `s` without its leading and trailing white space, that is the
   * substring that neither starts nor ends with white space and has only white
   * space around it.
   */
  function Trim(s: string): (r: string)
    ensures |r| <= |s| && Contains(s, r)
    ensures r != [] ==> !IsJsWhitespace(r[0]) && !IsJsWhitespace(r[|r| - 1])
    ensures forall i :: 0 <= i < |s| && !IsJsWhitespace(s[i]) ==> r != []
    ensures exists i :: 0 <= i <= |s| - |r| && r == s[i..i + |r|] && AllWhitespace(s[..i]) && AllWhitespace(s[i + |r|..])
  {
    var t := TrimStart(s);
    var r := TrimEnd(t);
    LeadingWhitespace(s);
    TrailingWhitespace(t);
    Surrounded(s, t, r);
    r
  }

  /**
   * A suffix `t` of `s` after white space, and a prefix `r` of `t` before white
   * space: `r` is a substring of `s` with only white space around it.
   */
  lemma Surrounded(s: string, t: string, r: string)
    requires |t| <= |s| && t == s[|s| - |t|..] && AllWhitespace(s[..|s| - |t|])
    requires |r| <= |t| && r == t[..|r|] && AllWhitespace(t[|r|..])
    requires t != [] ==> !IsJsWhitespace(t[0])
    requires r != [] ==> !IsJsWhitespace(r[|r| - 1])
    ensures |r| <= |s| && Contains(s, r)
    ensures r != [] ==> !IsJsWhitespace(r[0]) && !IsJsWhitespace(r[|r| - 1])
    ensures forall i :: 0 <= i < |s| && !IsJsWhitespace(s[i]) ==> r != []
    ensures exists i :: 0 <= i <= |s| - |r| && r == s[i..i + |r|] && AllWhitespace(s[..i]) && AllWhitespace(s[i + |r|..])
  {
    var i := |s| - |t|;
    assert s[i..i + |r|] == t[..|r|];
    assert s[i + |r|..] == t[|r|..];
    assert IsPrefix(r, s[i..]);
    if r == [] {
      assert t[|r|..] == t;
      assert s == s[..i] + t;
    }
    assert r != [] ==> r[0] == t[0];
  }

  lemma LeadingWhitespace(s: string)
    ensures AllWhitespace(s[..|s| - |TrimStart(s)|])
  {
    var n := |s| - |TrimStart(s)|;
    forall k | 0 <= k < n
      ensures IsJsWhitespace(s[..n][k])
    {
      assert s[..n][k] == s[k];
    }
  }

  lemma TrailingWhitespace(t: string)
    ensures AllWhitespace(t[|TrimEnd(t)|..])
  {
    var n := |TrimEnd(t)|;
    forall k | 0 <= k < |t| - n
      ensures IsJsWhitespace(t[n..][k])
    {
      assert t[n..][k] == t[n + k];
    }
  }

  predicate AllWhitespace(ws: string) {
    forall i :: 0 <= i < |ws| ==> IsJsWhitespace(ws[i])
  }

  lemma {:induction false} TrimStartSkips(ws: string, s: string)
    requires AllWhitespace(ws)
    ensures TrimStart(ws + s) == TrimStart(s)
    decreases |ws|
  {
    if ws == [] {
      assert ws + s == s;
    } else {
      TailOfConcat(ws, s);
      TrimStartSkips(ws[1..], s);
    }
  }

  lemma {:induction false} TrimStartAppend(c: string, w: string)
    requires TrimStart(c) != []
    ensures TrimStart(c + w) == TrimStart(c) + w
    decreases |c|
  {
    TailOfConcat(c, w);
    if IsJsWhitespace(c[0]) {
      TrimStartAppend(c[1..], w);
    }
  }

  lemma {:induction false} TrimEndSkips(s: string, ws: string)
    requires AllWhitespace(ws)
    ensures TrimEnd(s + ws) == TrimEnd(s)
    decreases |ws|
  {
    if ws == [] {
      assert s + ws == s;
    } else {
      var shorter := ws[..|ws| - 1];
      InitOfConcat(s, ws);
      TrimEndSkips(s, shorter);
    }
  }

  /** White space around a string does not change what `trim` leaves of it. */
  lemma TrimPadded(before: string, s: string, after: string)
    requires AllWhitespace(before) && AllWhitespace(after)
    ensures Trim(before + s + after) == Trim(s)
  {
    ConcatAssoc(before, s, after);
    TrimStartSkips(before, s + after);
    var t := TrimStart(s);
    if t == [] {
      assert AllWhitespace(s);
      TrimStartSkips(s, after);
      TrimStartSkips(after, []);
      assert after + [] == after;
    } else {
      TrimStartAppend(s, after);
      TrimEndSkips(t, after);
    }
  }

  /** The character of a decimal digit. */
  function DigitChar(d: nat): (c: char)
    requires d < 10
    ensures IsDigit(c) && c as int - '0' as int == d
  {
    ('0' as int + d) as char
  }

  /** The decimal rendering of a natural number, without leading zeros. */
  function NatToDecimal(n: nat): (r: string)
    ensures r != [] && (forall i :: 0 <= i < |r| ==> IsDigit(r[i]))
    ensures r[0] == '0' ==> n == 0
  {
    if n < 10 then [DigitChar(n)] else NatToDecimal(n / 10) + [DigitChar(n % 10)]
  }

  /** JavaScript's `String(n)` for an integer value. */
  function Decimal(n: int): (r: string)
    ensures r != []
  {
    if n < 0 then "-" + NatToDecimal(-n) else NatToDecimal(n)
  }

  /** The value of a character read as a digit of base up to 36; 36 when it is no digit at all. */
  function DigitValue(c: char): (d: nat)
    ensures d <= 36
    ensures IsDigit(c) ==> d == c as int - '0' as int
    ensures d < 10 ==> IsDigit(c)
  {
    if IsDigit(c) then c as int - '0' as int
    else if 'a' <= c <= 'z' then c as int - 'a' as int + 10
    else if 'A' <= c <= 'Z' then c as int - 'A' as int + 10
    else 36
  }

  /** The number of leading characters of `s` that are digits of base `radix`. */
  function DigitRun(s: string, radix: nat): (n: nat)
    ensures n <= |s|
    ensures forall i :: 0 <= i < n ==> DigitValue(s[i]) < radix
    ensures n < |s| ==> DigitValue(s[n]) >= radix
  {
    if s != [] && DigitValue(s[0]) < radix then 1 + DigitRun(s[1..], radix) else 0
  }

  /** The value of a string of digits of base `radix`, most significant first. */
  function DigitsValue(s: string, radix: nat): nat
  {
    if s == [] then 0
    else DigitsValue(s[..|s| - 1], radix) * radix + DigitValue(s[|s| - 1])
  }

  /**
   * The unsigned part of `parseInt`: a `0x`/`0X` prefix selects base 16,
   * otherwise base 10; then the longest run of digits is read, and no digit
   * at all gives `None`.
   */
  function ParseUnsigned(u: string): (r: Option<nat>)
    ensures r.Some? ==> u != [] && DigitValue(u[0]) < 16
  {
    var hex := |u| >= 2 && u[0] == '0' && (u[1] == 'x' || u[1] == 'X');
    var radix := if hex then 16 else 10;
    var v := if hex then u[2..] else u;
    var n := DigitRun(v, radix);
    if n == 0 then None else Some(DigitsValue(v[..n], radix))
  }

  /**
   * `parseInt(s)` with no radix argument: leading white space is skipped and
   * an optional sign is read before the digits; `NaN` is `None`.
   */
  function ParseInt(s: string): (r: Option<int>)
  {
    ParseSigned(TrimStart(s))
  }

  /** `parseInt` once the leading white space is gone: an optional sign, then the digits. */
  function ParseSigned(t: string): (r: Option<int>)
  {
    WithSign(ParseUnsigned(Unsigned(t)), IsNegative(t))
  }

  predicate IsNegative(t: string) {
    t != [] && t[0] == '-'
  }

  /** What follows the optional sign. */
  function Unsigned(t: string): string {
    if t != [] && (t[0] == '-' || t[0] == '+') then t[1..] else t
  }

  function WithSign(magnitude: Option<nat>, negative: bool): Option<int> {
    match magnitude
    case None => None
    case Some(m) => var value: int := m; Some(if negative then -value else value)
  }

  lemma {:induction false} NatToDecimalValue(n: nat)
    ensures DigitsValue(NatToDecimal(n), 10) == n
  {
    var r := NatToDecimal(n);
    if n >= 10 {
      NatToDecimalValue(n / 10);
      assert r[..|r| - 1] == NatToDecimal(n / 10);
    }
  }

  lemma {:induction false} DigitRunOfDecimal(n: nat, rest: string)
    requires rest == [] || DigitValue(rest[0]) >= 10
    ensures DigitRun(NatToDecimal(n) + rest, 10) == |NatToDecimal(n)|
  {
    var d := NatToDecimal(n);
    if n < 10 {
      assert (d + rest)[1..] == rest;
    } else {
      NatToDecimalIsDigits(n);
      DigitRunOfDigitsPrefix(d, rest);
    }
  }

  lemma NatToDecimalIsDigits(n: nat)
    ensures forall i :: 0 <= i < |NatToDecimal(n)| ==> DigitValue(NatToDecimal(n)[i]) < 10
  {
  }

  lemma {:induction false} DigitRunOfDigitsPrefix(d: string, rest: string)
    requires forall i :: 0 <= i < |d| ==> DigitValue(d[i]) < 10
    requires rest == [] || DigitValue(rest[0]) >= 10
    ensures DigitRun(d + rest, 10) == |d|
  {
    if d == [] {
      assert d + rest == rest;
    } else {
      assert (d + rest)[1..] == d[1..] + rest;
      DigitRunOfDigitsPrefix(d[1..], rest);
    }
  }

  /** `rest` cannot continue a number: it is empty or starts with neither a letter nor a digit. */
  predicate EndsNumber(rest: string) {
    rest == [] || DigitValue(rest[0]) == 36
  }

  lemma {:induction false} ParseUnsignedOfDecimal(m: nat, rest: string)
    requires EndsNumber(rest)
    ensures ParseUnsigned(NatToDecimal(m) + rest) == Some(m)
  {
    var d := NatToDecimal(m);
    var u := d + rest;
    // `String(m)` never looks like a hexadecimal prefix
    assert |u| >= 2 && u[0] == '0' ==> m == 0 && u[1] == rest[0];
    DigitRunOfDecimal(m, rest);
    NatToDecimalValue(m);
    assert u[..|d|] == d;
  }

  /**
   * Reading back what `Decimal` wrote: `parseInt(String(n) + rest) == n`
   * whenever `rest` does not continue the digits (for instance `"/10"`).
   */
  lemma {:induction false} ParseIntOfDecimal(n: int, rest: string)
    requires EndsNumber(rest)
    ensures ParseInt(Decimal(n) + rest) == Some(n)
  {
    if n < 0 {
      ParseIntOfNegative(-n, rest);
    } else {
      ParseIntOfNatural(n, rest);
    }
  }

  lemma ParseIntOfNegative(m: nat, rest: string)
    requires EndsNumber(rest)
    ensures ParseInt("-" + NatToDecimal(m) + rest) == Some(-(m as int))
  {
    ParseUnsignedOfDecimal(m, rest);
    var d := NatToDecimal(m);
    ParseIntOfSign(d + rest, m);
    ConcatAssoc("-", d, rest);
  }

  lemma ParseIntOfNatural(m: nat, rest: string)
    requires EndsNumber(rest)
    ensures ParseInt(NatToDecimal(m) + rest) == Some(m)
  {
    ParseUnsignedOfDecimal(m, rest);
    ParseIntOfDigits(NatToDecimal(m) + rest, m);
  }

  lemma TrimStartKeeps(s: string)
    requires s != [] && (s[0] == '-' || IsDigit(s[0]))
    ensures TrimStart(s) == s
  {
    assert !IsJsWhitespace(s[0]);
  }

  lemma ParseIntOfSign(u: string, m: nat)
    requires ParseUnsigned(u) == Some(m)
    ensures ParseInt(['-'] + u) == Some(-(m as int))
  {
    var s := ['-'] + u;
    TrimStartKeeps(s);
    SignedMinus(u, m);
  }

  lemma SignedMinus(u: string, m: nat)
    requires ParseUnsigned(u) == Some(m)
    ensures ParseSigned(['-'] + u) == Some(-(m as int))
  {
    SignOfMinus(u);
  }

  lemma SignOfMinus(u: string)
    ensures IsNegative(['-'] + u) && Unsigned(['-'] + u) == u
  {
    TailOfConcat(['-'], u);
  }

  lemma ParseIntOfDigits(s: string, m: nat)
    requires s != [] && IsDigit(s[0])
    requires ParseUnsigned(s) == Some(m)
    ensures ParseInt(s) == Some(m)
  {
    TrimStartKeeps(s);
  }

  /** `parseInt` reads back every integer rendered by `String`. */
  lemma ParseIntRoundTrip(n: int)
    ensures ParseInt(Decimal(n)) == Some(n)
  {
    ParseIntOfDecimal(n, []);
    assert Decimal(n) + [] == Decimal(n);
  }

  /** The renderings of the literals the core passes around as strings. */
  lemma DecimalLiterals()
    ensures Decimal(1) == "1" && Decimal(10) == "10" && Decimal(12) == "12"
  {
    assert DigitChar(1) == '1' && DigitChar(0) == '0' && DigitChar(2) == '2';
    assert NatToDecimal(1) == "1";
    assert NatToDecimal(10) == NatToDecimal(1) + [DigitChar(0)];
    assert NatToDecimal(12) == NatToDecimal(1) + [DigitChar(2)];
  }
}
