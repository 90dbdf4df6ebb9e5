/** The JavaScript string primitives the form code relies on: the white-space
    set shared by `String.prototype.trim` and the regular-expression class
    `\s`, ASCII character classes, `length` counted in UTF-16 code units,
    `replace`, `toLowerCase` on ASCII text, `Number.prototype.toString` on
    integers and the global `parseInt` (section 21.1.2.13 of ECMA-262). */
module JsString {
  import opened Wrappers

  // ---------------------------------------------------------------------------
  // Character classes

  /** WhiteSpace and LineTerminator code points of ECMA-262 (section 12.2 and
      12.3): the set `trim` strips and `\s` matches. */
  predicate IsJsWhitespace(c: char) {
    || c == '\t' || c == '\n' || c == '\U{000B}' || c == '\U{000C}' || c == '\r'
    || c == ' ' || c == '\U{00A0}' || c == '\U{1680}'
    || ('\U{2000}' <= c <= '\U{200A}')
    || c == '\U{2028}' || c == '\U{2029}' || c == '\U{202F}' || c == '\U{205F}'
    || c == '\U{3000}' || c == '\U{FEFF}'
  }

  /** `\d`: an ASCII decimal digit (there is no `u` flag on any pattern). */
  predicate IsAsciiDigit(c: char) { '0' <= c <= '9' }

  predicate IsAsciiLower(c: char) { 'a' <= c <= 'z' }

  predicate IsAsciiUpper(c: char) { 'A' <= c <= 'Z' }

  predicate IsAsciiLetter(c: char) { IsAsciiLower(c) || IsAsciiUpper(c) }

  predicate IsHexDigit(c: char) { IsAsciiDigit(c) || ('a' <= c <= 'f') || ('A' <= c <= 'F') }

  /** Every character is white space: what `!s.trim()` tests. */
  predicate Blank(s: string) {
    forall i :: 0 <= i < |s| ==> IsJsWhitespace(s[i])
  }

  /** `/^\d*$/.test(s)`. */
  predicate AllDigits(s: string) {
    forall i :: 0 <= i < |s| ==> IsAsciiDigit(s[i])
  }

  // ---------------------------------------------------------------------------
  // trim

  /** Strips leading white space. */
  function TrimStart(s: string): (r: string)
    ensures |r| <= |s|
    ensures r == [] <==> Blank(s)
    ensures r != [] ==> !IsJsWhitespace(r[0])
  {
    if |s| > 0 && IsJsWhitespace(s[0]) then TrimStart(s[1..]) else s
  }

  /** Strips trailing white space. */
  function TrimEnd(s: string): (r: string)
    ensures |r| <= |s| && r == s[..|r|]
    ensures r == [] <==> Blank(s)
    ensures r != [] ==> !IsJsWhitespace(r[|r| - 1])
  {
    if |s| > 0 && IsJsWhitespace(s[|s| - 1]) then TrimEnd(s[..|s| - 1]) else s
  }

  /** `String.prototype.trim`: the result is empty exactly when the input is
      all white space, and otherwise neither starts nor ends with white space. */
  function Trim(s: string): (r: string)
    ensures r == [] <==> Blank(s)
    ensures r != [] ==> !IsJsWhitespace(r[0]) && !IsJsWhitespace(r[|r| - 1])
  {
    TrimEnd(TrimStart(s))
  }

  // ---------------------------------------------------------------------------
  // length, replace, toLowerCase

  /** `s.length`: JavaScript counts UTF-16 code units, so a code point above
      U+FFFF counts twice. */
  function Utf16Length(s: string): (n: nat)
    ensures |s| <= n <= 2 * |s|
    ensures (forall i :: 0 <= i < |s| ==> s[i] as int <= 0xFFFF) ==> n == |s|
  {
    if s == [] then 0
    else (if s[0] as int > 0xFFFF then 2 else 1) + Utf16Length(s[1..])
  }

  /** `s.replace(c, "")` with a one-character string pattern: removes the first
      occurrence of `c` only. */
  function RemoveFirst(s: string, c: char): (r: string)
    ensures c !in s ==> r == s
    ensures c in s ==> |r| == |s| - 1
  {
    if s == [] then []
    else if s[0] == c then s[1..]
    else [s[0]] + RemoveFirst(s[1..], c)
  }

  /** Removing the first `c` from a text in which it follows a `c`-free
      prefix splices it out. */
  lemma {:induction false} RemoveFirstAfter(a: string, c: char, b: string)
    requires c !in a
    ensures RemoveFirst(a + [c] + b, c) == a + b
  {
    var s := a + [c] + b;
    if a == [] {
      assert s[0] == c && s[1..] == b by {
        assert s == [c] + b;
      }
    } else {
      assert s[0] != c && s[1..] == a[1..] + [c] + b by {
        assert s[0] == a[0];
      }
      assert c !in a[1..] by {
        assert forall x :: x in a[1..] ==> x in a;
      }
      RemoveFirstAfter(a[1..], c, b);
      assert a + b == [a[0]] + (a[1..] + b);
    }
  }

  /** `s.replace(/c/g, "")`: removes every occurrence of `c`, keeping the order
      of the other characters. */
  function RemoveAll(s: string, c: char): (r: string)
    ensures c !in r
    ensures forall x :: x != c ==> multiset(r)[x] == multiset(s)[x]
  {
    if s == [] then []
    else
      assert s == [s[0]] + s[1..];
      (if s[0] == c then [] else [s[0]]) + RemoveAll(s[1..], c)
  }

  /** `toLowerCase` restricted to ASCII letters. */
  function AsciiLower(s: string): (r: string)
    ensures |r| == |s|
    ensures forall i :: 0 <= i < |s| ==> !IsAsciiUpper(r[i])
    ensures forall i :: 0 <= i < |s| && !IsAsciiUpper(s[i]) ==> r[i] == s[i]
  {
    seq(|s|, i requires 0 <= i < |s| =>
      if IsAsciiUpper(s[i]) then (s[i] as int - 'A' as int + 'a' as int) as char else s[i])
  }

  /** Lower-casing works character by character, so it distributes over
      concatenation. */
  lemma AsciiLowerAppend(a: string, b: string)
    ensures AsciiLower(a + b) == AsciiLower(a) + AsciiLower(b)
  {
    var l := AsciiLower(a + b);
    assert forall i :: 0 <= i < |a| ==> l[i] == AsciiLower(a)[i];
    assert forall i :: |a| <= i < |a + b| ==> l[i] == AsciiLower(b)[i - |a|];
  }

  // ---------------------------------------------------------------------------
  // Number.prototype.toString on integers

  function DigitChar(d: int): (c: char)
    requires 0 <= d < 10
    ensures IsAsciiDigit(c) && c as int - '0' as int == d
  {
    ('0' as int + d) as char
  }

  function DigitValue(c: char): (d: int)
    requires IsAsciiDigit(c)
    ensures 0 <= d < 10 && DigitChar(d) == c
  {
    c as int - '0' as int
  }

  /** `n.toString(16)` for a single nibble: lower-case hexadecimal. */
  function HexChar(d: int): (c: char)
    requires 0 <= d < 16
    ensures IsAsciiDigit(c) || ('a' <= c <= 'f')
    ensures HexDigitValue(c) == d
  {
    if d < 10 then DigitChar(d) else ('a' as int + d - 10) as char
  }

  function HexDigitValue(c: char): (d: int)
    requires IsHexDigit(c)
    ensures 0 <= d < 16
  {
    if IsAsciiDigit(c) then DigitValue(c)
    else if 'a' <= c <= 'f' then c as int - 'a' as int + 10
    else c as int - 'A' as int + 10
  }

  /** Decimal numeral of a natural number, without leading zeros. */
  function NatToString(n: nat): (s: string)
    ensures |s| >= 1 && AllDigits(s)
    ensures n < 10 <==> |s| == 1
    ensures |s| > 1 ==> s[0] != '0'
    decreases n
  {
    if n < 10 then [DigitChar(n)] else NatToString(n / 10) + [DigitChar(n % 10)]
  }

  /** `n.toString()` for an integer. */
  function IntToString(n: int): (s: string)
  {
    if n < 0 then "-" + NatToString(-n) else NatToString(n)
  }

  // ---------------------------------------------------------------------------
  // parseInt

  /** The longest prefix of `s` made of digits of the given radix (10 or 16). */
  function RadixPrefix(s: string, hex: bool): (p: string)
    ensures |p| <= |s| && p == s[..|p|]
    ensures forall i :: 0 <= i < |p| ==> if hex then IsHexDigit(p[i]) else IsAsciiDigit(p[i])
    ensures |p| < |s| ==> !(if hex then IsHexDigit(s[|p|]) else IsAsciiDigit(s[|p|]))
  {
    if s == [] || !(if hex then IsHexDigit(s[0]) else IsAsciiDigit(s[0])) then []
    else [s[0]] + RadixPrefix(s[1..], hex)
  }

  /** The value of a numeral in radix 10 or 16. */
  function RadixValue(p: string, hex: bool): nat
    requires forall i :: 0 <= i < |p| ==> if hex then IsHexDigit(p[i]) else IsAsciiDigit(p[i])
  {
    if p == [] then 0
    else
      var last := p[|p| - 1];
      RadixValue(p[..|p| - 1], hex) * (if hex then 16 else 10)
        + (if hex then HexDigitValue(last) else DigitValue(last))
  }

  /** `parseInt(s)` with no radix argument: leading white space is skipped, an
      optional sign is read, a `0x`/`0X` prefix selects radix 16, and the longest
      digit prefix is converted; `None` stands for `NaN`. */
  function ParseInt(s: string): Option<int> {
    ParseSigned(TrimStart(s))
  }

  /** An optional sign, then the unsigned numeral. */
  function ParseSigned(t: string): Option<int> {
    var negative := |t| > 0 && t[0] == '-';
    var u := if |t| > 0 && (t[0] == '-' || t[0] == '+') then t[1..] else t;
    match ParseUnsigned(u)
    case None => None
    case Some(m) => var v: int := m; Some(if negative then -v else v)
  }

  /** A `0x`/`0X` prefix selects radix 16; the longest digit prefix is
      converted. */
  function ParseUnsigned(u: string): Option<nat> {
    var hex := |u| >= 2 && u[0] == '0' && (u[1] == 'x' || u[1] == 'X');
    var body := if hex then u[2..] else u;
    var digits := RadixPrefix(body, hex);
    if digits == [] then None else Some(RadixValue(digits, hex))
  }

  lemma {:induction false} DecimalValueOfNatToString(n: nat)
    ensures RadixValue(NatToString(n), false) == n
    decreases n
  {
    if n >= 10 {
      var s := NatToString(n);
      assert s[..|s| - 1] == NatToString(n / 10);
      DecimalValueOfNatToString(n / 10);
    }
  }

  lemma {:induction false} RadixPrefixOfDigits(s: string)
    requires AllDigits(s)
    ensures RadixPrefix(s, false) == s
  {
    if s != [] {
      RadixPrefixOfDigits(s[1..]);
    }
  }

  /** `parseInt` reads back what `toString` writes, for every integer. */
  lemma ParseIntOfIntToString(n: int)
    ensures ParseInt(IntToString(n)) == Some(n)
  {
    var m: nat := if n < 0 then -n else n;
    DecimalValueOfNatToString(m);
    if n < 0 {
      ParseIntOfNegative(NatToString(m));
    } else {
      ParseIntOfDigits(NatToString(m));
    }
  }

  /** Decimal digits alone are read as that numeral. */
  lemma ParseIntOfDigits(digits: string)
    requires |digits| >= 1 && AllDigits(digits)
    ensures ParseInt(digits) == Some(RadixValue(digits, false) as int)
  {
    assert IsAsciiDigit(digits[0]);
    TrimStartKeeps(digits);
    ParseSignedOfDigits(digits);
  }

  lemma ParseSignedOfDigits(digits: string)
    requires |digits| >= 1 && AllDigits(digits)
    ensures ParseSigned(digits) == Some(RadixValue(digits, false) as int)
  {
    assert IsAsciiDigit(digits[0]);
    ParseUnsignedOfDigits(digits);
  }

  /** A minus sign followed by decimal digits is read as the negated
      numeral. */
  lemma ParseIntOfNegative(digits: string)
    requires |digits| >= 1 && AllDigits(digits)
    ensures ParseInt("-" + digits) == Some(-(RadixValue(digits, false) as int))
  {
    TrimStartKeeps("-" + digits);
    ParseSignedOfNegative(digits);
  }

  lemma ParseSignedOfNegative(digits: string)
    requires |digits| >= 1 && AllDigits(digits)
    ensures ParseSigned("-" + digits) == Some(-(RadixValue(digits, false) as int))
  {
    var s := "-" + digits;
    assert s[0] == '-' && s[1..] == digits;
    ParseUnsignedOfDigits(digits);
  }

  /** A non-empty run of decimal digits is read in radix 10. */
  lemma ParseUnsignedOfDigits(digits: string)
    requires |digits| >= 1 && AllDigits(digits)
    ensures ParseUnsigned(digits) == Some(RadixValue(digits, false))
  {
    if |digits| >= 2 {
      assert IsAsciiDigit(digits[1]);
    }
    RadixPrefixOfDigits(digits);
  }

  /** A text that does not start with white space is left alone by
      `trimStart`. */
  lemma TrimStartKeeps(s: string)
    requires |s| > 0 && !IsJsWhitespace(s[0])
    ensures TrimStart(s) == s
  {
  }
}
