/** ECMAScript `parseInt(string)` with no radix (section 19.2.5 of
    ECMA-262), as the route handlers apply it to the `limit` query
    parameter, and the decimal rendering it inverts. */
module JsNumbers {
  import opened Wrappers

  /** The characters `TrimString` strips: WhiteSpace and LineTerminator. */
  predicate IsJsSpace(c: char) {
    var n := c as int;
    n == 0x09 || n == 0x0A || n == 0x0B || n == 0x0C || n == 0x0D || n == 0x20
    || n == 0xA0 || n == 0x1680 || (0x2000 <= n <= 0x200A)
    || n == 0x2028 || n == 0x2029 || n == 0x202F || n == 0x205F || n == 0x3000 || n == 0xFEFF
  }

  /** The string with its leading white space removed. */
  function TrimStart(s: string): string {
    if s != [] && IsJsSpace(s[0]) then TrimStart(s[1..]) else s
  }

  /** `TrimStart` removes a prefix made of white space, and all of it. */
  lemma {:induction false} TrimStartRemovesSpace(s: string)
    ensures var t := TrimStart(s);
      && |t| <= |s| && t == s[|s| - |t|..]
      && (t == [] || !IsJsSpace(t[0]))
      && forall i :: 0 <= i < |s| - |t| ==> IsJsSpace(s[i])
  {
    if s != [] && IsJsSpace(s[0]) {
      TrimStartRemovesSpace(s[1..]);
      var t := TrimStart(s[1..]);
      assert forall i :: 1 <= i < |s| - |t| ==> s[1..][i - 1] == s[i];
    }
  }

  /** The value of `c` as a digit in base `radix` (10 or 16), if it is one. */
  function DigitValue(c: char, radix: nat): (d: Option<nat>)
    ensures d.Some? ==> d.value < radix
  {
    var v: int :=
      if '0' <= c <= '9' then c as int - '0' as int
      else if 'a' <= c <= 'z' then c as int - 'a' as int + 10
      else if 'A' <= c <= 'Z' then c as int - 'A' as int + 10
      else radix;
    if v < radix then Some(v) else None
  }

  predicate IsDigit(c: char, radix: nat) {
    DigitValue(c, radix).Some?
  }

  /** The longest prefix of `s` made of digits of base `radix`. */
  function LeadingDigits(s: string, radix: nat): (d: string)
    ensures forall i :: 0 <= i < |d| ==> IsDigit(d[i], radix)
  {
    if s == [] || !IsDigit(s[0], radix) then []
    else [s[0]] + LeadingDigits(s[1..], radix)
  }

  /** `LeadingDigits` is a prefix, and the longest one made of digits. */
  lemma {:induction false} LeadingDigitsLongest(s: string, radix: nat)
    ensures var d := LeadingDigits(s, radix);
      && |d| <= |s| && d == s[..|d|]
      && (|d| < |s| ==> !IsDigit(s[|d|], radix))
  {
    if s != [] && IsDigit(s[0], radix) {
      LeadingDigitsLongest(s[1..], radix);
      var d := LeadingDigits(s[1..], radix);
      assert forall i :: 1 <= i <= |d| ==> s[1..][i - 1] == s[i];
    }
  }

  /** The value of a digit character; `ValueOf` meets no other. */
  function Digit(c: char, radix: nat): nat {
    match DigitValue(c, radix)
    case Some(v) => v
    case None => 0
  }

  /** The number a string of digits denotes, most significant first. */
  function ValueOf(d: string, radix: nat): nat {
    if d == [] then 0 else ValueOf(d[..|d| - 1], radix) * radix + Digit(d[|d| - 1], radix)
  }

  /** True when `u` starts with the `0x` or `0X` prefix. */
  predicate HexPrefixed(u: string) {
    |u| >= 2 && u[0] == '0' && (u[1] == 'x' || u[1] == 'X')
  }

  /** The magnitude parsed after the sign: hexadecimal after a `0x` prefix,
      decimal otherwise; `None` when no digit follows. */
  function ParseMagnitude(u: string): Option<nat> {
    var radix := if HexPrefixed(u) then 16 else 10;
    var digits := LeadingDigits(if HexPrefixed(u) then u[2..] else u, radix);
    if digits == [] then None else Some(ValueOf(digits, radix))
  }

  /** The signed number at the start of an already trimmed string. */
  function ParseSigned(t: string): Option<int> {
    if t != [] && t[0] == '-' then
      match ParseMagnitude(t[1..])
      case None => None
      case Some(n) => Some(-(n as int))
    else if t != [] && t[0] == '+' then
      match ParseMagnitude(t[1..])
      case None => None
      case Some(n) => Some(n)
    else
      match ParseMagnitude(t)
      case None => None
      case Some(n) => Some(n)
  }

  /** `parseInt(s)`: `None` stands for `NaN`. Leading white space and one
      sign are skipped, a `0x`/`0X` prefix switches to base 16, and the
      longest run of digits is read; anything after it is ignored. */
  function ParseInt(s: string): Option<int> {
    ParseSigned(TrimStart(s))
  }

  /** `parseInt(url.searchParams.get('limit') || '100')`: an absent or empty
      parameter reads as `'100'`. */
  function ParseLimit(param: Option<string>): Option<int> {
    match param
    case None => ParseInt("100")
    case Some(s) => if s == "" then ParseInt("100") else ParseInt(s)
  }

  /** The decimal digit of `d < 10`. */
  function DecimalDigit(d: nat): (c: char)
    requires d < 10
    ensures DigitValue(c, 10) == Some(d)
  {
    ('0' as int + d) as char
  }

  /** The decimal rendering of a natural number, without leading zeros. */
  function ShowNat(n: nat): (s: string)
    ensures s != [] && forall i :: 0 <= i < |s| ==> IsDigit(s[i], 10)
    ensures |s| >= 2 ==> s[0] != '0'
  {
    if n < 10 then [DecimalDigit(n)] else ShowNat(n / 10) + [DecimalDigit(n % 10)]
  }

  lemma {:induction false} ValueOfShowNat(n: nat)
    ensures ValueOf(ShowNat(n), 10) == n
  {
    if n >= 10 {
      var s := ShowNat(n);
      assert s[..|s| - 1] == ShowNat(n / 10);
      ValueOfShowNat(n / 10);
    }
  }

  /** Digits followed by a non-digit: exactly the digits are read. */
  lemma {:induction false} LeadingDigitsOfConcat(d: string, rest: string, radix: nat)
    requires forall i :: 0 <= i < |d| ==> IsDigit(d[i], radix)
    requires rest == [] || !IsDigit(rest[0], radix)
    ensures LeadingDigits(d + rest, radix) == d
  {
    if d != [] {
      assert (d + rest)[1..] == d[1..] + rest;
      LeadingDigitsOfConcat(d[1..], rest, radix);
    }
  }

  /** A decimal rendering followed by a non-digit is read as that number. */
  lemma MagnitudeShowNat(n: nat, rest: string)
    requires rest == [] || (!IsDigit(rest[0], 10) && rest[0] != 'x' && rest[0] != 'X')
    ensures ParseMagnitude(ShowNat(n) + rest) == Some(n)
  {
    var u := ShowNat(n) + rest;
    assert u[0] == ShowNat(n)[0];
    if |ShowNat(n)| == 1 && rest != [] {
      assert u[1] == rest[0];
    } else if |ShowNat(n)| >= 2 {
      assert u[1] == ShowNat(n)[1];
    }
    assert !HexPrefixed(u);
    LeadingDigitsOfConcat(ShowNat(n), rest, 10);
    ValueOfShowNat(n);
  }

  /** `parseInt` reads back the decimal rendering of every natural number,
      also when other text follows it (`"100abc"` reads as 100) — unless
      the text is an `x` after a lone `0`, which starts a hexadecimal
      number instead. */
  lemma ParseIntShowNat(n: nat, rest: string)
    requires rest == [] || (!IsDigit(rest[0], 10) && rest[0] != 'x' && rest[0] != 'X')
    ensures ParseInt(ShowNat(n) + rest) == Some(n)
  {
    var u := ShowNat(n) + rest;
    assert u[0] == ShowNat(n)[0];
    assert TrimStart(u) == u by {
      assert !IsJsSpace(u[0]) && u[0] != '-' && u[0] != '+';
    }
    MagnitudeShowNat(n, rest);
  }

  /** A leading minus negates the number that follows. */
  lemma ParseIntNegative(n: nat)
    ensures ParseInt("-" + ShowNat(n)) == Some(-(n as int))
  {
    var s := "-" + ShowNat(n);
    assert TrimStart(s) == s;
    assert s[1..] == ShowNat(n) + [];
    MagnitudeShowNat(n, []);
  }

  /** Leading white space does not change the result. */
  lemma ParseIntSkipsSpace(w: string, s: string)
    requires forall i :: 0 <= i < |w| ==> IsJsSpace(w[i])
    ensures ParseInt(w + s) == ParseInt(s)
  {
    TrimStartOfSpace(w, s);
  }

  lemma {:induction false} TrimStartOfSpace(w: string, s: string)
    requires forall i :: 0 <= i < |w| ==> IsJsSpace(w[i])
    ensures TrimStart(w + s) == TrimStart(s)
  {
    if w != [] {
      assert (w + s)[0] == w[0];
      assert (w + s)[1..] == w[1..] + s;
      assert forall i :: 0 <= i < |w[1..]| ==> w[1..][i] == w[i + 1];
      TrimStartOfSpace(w[1..], s);
    } else {
      assert w + s == s;
    }
  }

  /** Text that does not start with white space, a sign or a digit is
      `NaN`; so is the empty string. */
  lemma ParseIntNaN(s: string)
    requires s == [] || (!IsJsSpace(s[0]) && s[0] != '-' && s[0] != '+' && !IsDigit(s[0], 10))
    ensures ParseInt(s) == None
  {
    assert TrimStart(s) == s;
    assert !HexPrefixed(s);
  }

  /** The bare `0x` prefix is `NaN`: no hexadecimal digit follows it. */
  lemma BareHexPrefixIsNaN()
    ensures ParseInt("0x") == None
  {
    assert TrimStart("0x") == "0x";
    assert "0x"[2..] == [];
  }

  lemma ShowHundred()
    ensures ShowNat(100) == "100"
  {
    assert ShowNat(10) == "10";
  }

  /** An absent or empty parameter is the default limit 100; any other
      parameter is parsed as it is. */
  lemma ParseLimitDefault(param: Option<string>)
    ensures param.None? || param == Some("") ==> ParseLimit(param) == Some(100)
    ensures param.Some? && param.value != "" ==> ParseLimit(param) == ParseInt(param.value)
  {
    assert ParseInt("100") == Some(100) by {
      ShowHundred();
      ParseIntShowNat(100, []);
      assert ShowNat(100) + [] == "100";
    }
  }

  lemma HexMagnitude()
    ensures ParseMagnitude("0x10") == Some(16)
  {
    var u := "0x10";
    assert HexPrefixed(u) && u[2..] == "10";
    assert LeadingDigits("10", 16) == "10" by {
      LeadingDigitsOfConcat("10", [], 16);
      assert "10" + [] == "10";
    }
    assert ValueOf("10", 16) == 16 by {
      assert "10"[..1] == "1";
    }
  }

  /** `limit=0` is read as 0. */
  lemma ParseLimitZero()
    ensures ParseLimit(Some("0")) == Some(0)
  {
    ParseIntShowNat(0, []);
    assert ShowNat(0) + [] == "0";
  }

  /** A hexadecimal limit is read in base 16. */
  lemma ParseIntHex()
    ensures ParseInt("0x10") == Some(16)
  {
    assert TrimStart("0x10") == "0x10";
    HexMagnitude();
  }
}
