/** Numeric literals of the command language: Rust's `u32::from_str_radix`
    for the two radixes the console uses, the console's `parse_number` with its
    `&`/`$` prefix and `h`/`H` suffix markers, and the renderings `{}`, `{:x}`
    and `{:X}` that serve as its inverse. */
module Numbers {
  import opened Common

  type Radix = r: nat | r == 10 || r == 16 witness 10

  const MaxU32: nat := 0xFFFF_FFFF

  /** `char::to_digit`: the value of one digit character, letters in either case. */
  function DigitValue(c: char, radix: Radix): (r: Option<nat>)
    ensures r.Some? ==> r.value < radix
    ensures r.Some? <==> ('0' <= c <= '9' || (radix == 16 && ('a' <= c <= 'f' || 'A' <= c <= 'F')))
  {
    if '0' <= c <= '9' then Some(c as int - '0' as int)
    else if radix == 16 && 'a' <= c <= 'f' then Some(c as int - 'a' as int + 10)
    else if radix == 16 && 'A' <= c <= 'F' then Some(c as int - 'A' as int + 10)
    else None
  }

  /** The character for digit `d`, letters in lower or upper case. */
  function DigitChar(d: nat, upper: bool): (c: char)
    requires d < 16
    ensures DigitValue(c, 16) == Some(d)
    ensures d < 10 ==> DigitValue(c, 10) == Some(d)
  {
    if d < 10 then ('0' as int + d) as char
    else if upper then ('A' as int + d - 10) as char
    else ('a' as int + d - 10) as char
  }

  /** The value of a run of digits, most significant first, in unbounded
      arithmetic; None as soon as one character is not a digit of the radix. */
  function DigitsValue(s: string, radix: Radix): Option<nat>
  {
    if s == [] then Some(0)
    else match DigitsValue(s[..|s| - 1], radix)
      case None => None
      case Some(high) =>
        match DigitValue(s[|s| - 1], radix)
        case None => None
        case Some(low) => Some(high * radix + low)
  }

  /** The digits that follow the optional leading `+`. */
  function Unsigned(s: string): string
  {
    if |s| > 0 && s[0] == '+' then s[1..] else s
  }

  /** What `u32::from_str_radix` accepts syntactically: an optional `+`, then
      at least one digit of the radix and nothing else. */
  predicate WellFormed(s: string, radix: Radix)
  {
    |Unsigned(s)| > 0 && forall i :: 0 <= i < |Unsigned(s)| ==> DigitValue(Unsigned(s)[i], radix).Some?
  }

  /** `u32::from_str_radix(s, radix)` with the error kind dropped: the empty
      string, a lone sign, a character that is not a digit and a value above
      0xFFFFFFFF are all errors. The library checks for overflow digit by
      digit; since the value of a prefix never exceeds the value of the whole
      run, checking once at the end accepts exactly the same strings. */
  function FromStrRadix(s: string, radix: Radix): Option<U32>
  {
    if s == [] || s == "+" then None
    else match DigitsValue(Unsigned(s), radix)
      case Some(v) => if v <= MaxU32 then Some(v) else None
      case None => None
  }

  /** `parse_number`: a `&` or `$` prefix or else an `h`/`H` suffix marks
      hexadecimal, and the marker is stripped; any other token is decimal. */
  function ParseNumber(s: string): (r: Option<U32>)
    ensures s == "" ==> r == None
    ensures |s| == 1 && s[0] in "&$hH" ==> r == None
  {
    if |s| > 0 && (s[0] == '&' || s[0] == '$') then FromStrRadix(s[1..], 16)
    else if |s| > 0 && (s[|s| - 1] == 'h' || s[|s| - 1] == 'H') then FromStrRadix(s[..|s| - 1], 16)
    else FromStrRadix(s, 10)
  }

  /** `n` in the radix without leading zeros: Rust's `{}` for radix 10 and
      `{:x}` (lower case) or `{:X}` (upper case) for radix 16. */
  function Digits(n: nat, radix: Radix, upper: bool): (s: string)
    ensures |s| > 0
    ensures forall i :: 0 <= i < |s| ==> DigitValue(s[i], radix).Some?
    ensures s[0] == '0' ==> n == 0
    decreases n
  {
    if n < radix then [DigitChar(n, upper)]
    else Digits(n / radix, radix, upper) + [DigitChar(n % radix, upper)]
  }

  function Hex(n: nat): string
  {
    Digits(n, 16, false)
  }

  function Decimal(n: nat): string
  {
    Digits(n, 10, false)
  }

  function Zeros(k: nat): (s: string)
    ensures |s| == k && forall i :: 0 <= i < k ==> s[i] == '0'
  {
    if k == 0 then [] else Zeros(k - 1) + ['0']
  }

  /** A run of characters has a value exactly when every one of them is a digit. */
  lemma {:induction false} DigitsValueDefined(s: string, radix: Radix)
    ensures DigitsValue(s, radix).Some? <==> forall i :: 0 <= i < |s| ==> DigitValue(s[i], radix).Some?
    decreases |s|
  {
    if s != [] {
      var front := s[..|s| - 1];
      DigitsValueDefined(front, radix);
      assert forall i :: 0 <= i < |front| ==> front[i] == s[i];
    }
  }

  /** Reading back the rendering of `n` gives `n`. */
  lemma {:induction false} DigitsValueOfDigits(n: nat, radix: Radix, upper: bool)
    ensures DigitsValue(Digits(n, radix, upper), radix) == Some(n)
    decreases n
  {
    if n < radix {
      DigitCharValue(n, radix, upper);
      DigitsValueSnoc([], DigitChar(n, upper), radix);
      assert Digits(n, radix, upper) == [] + [DigitChar(n, upper)];
    } else {
      DivMod(n, radix);
      DigitsValueOfDigits(n / radix, radix, upper);
      DigitsStep(n, radix, upper);
    }
  }

  /** One step of the induction: the last digit of `n` is `n % radix`, and
      the digits before it render `n / radix`. */
  lemma DigitsStep(n: nat, radix: Radix, upper: bool)
    requires n >= radix
    requires DigitsValue(Digits(n / radix, radix, upper), radix) == Some(n / radix)
    ensures DigitsValue(Digits(n, radix, upper), radix) == Some(n)
  {
    DivMod(n, radix);
    var high := Digits(n / radix, radix, upper);
    var low := DigitChar(n % radix, upper);
    assert Digits(n, radix, upper) == high + [low];
    DigitCharValue(n % radix, radix, upper);
    DigitsValueSnoc(high, low, radix);
  }

  lemma DivMod(n: nat, radix: Radix)
    ensures n / radix < n || n == 0
    ensures 0 <= n % radix < radix
    ensures (n / radix) * radix + n % radix == n
  {
    if radix == 10 {
      assert (n / 10) * 10 + n % 10 == n;
    } else {
      assert (n / 16) * 16 + n % 16 == n;
    }
  }

  /** Reading one more digit multiplies by the radix and adds it. */
  lemma DigitsValueSnoc(high: string, low: char, radix: Radix)
    ensures DigitsValue(high + [low], radix) ==
      if DigitsValue(high, radix).Some? && DigitValue(low, radix).Some?
      then Some(DigitsValue(high, radix).value * radix + DigitValue(low, radix).value)
      else None
  {
    var s := high + [low];
    assert s[..|s| - 1] == high && s[|s| - 1] == low;
  }

  /** A digit character reads back as its digit in any radix above it. */
  lemma DigitCharValue(d: nat, radix: Radix, upper: bool)
    requires d < radix
    ensures DigitValue(DigitChar(d, upper), radix) == Some(d)
  {
  }

  /** Leading zeros do not change the value of a run of digits. */
  lemma {:induction false} LeadingZeros(k: nat, s: string, radix: Radix)
    ensures DigitsValue(Zeros(k) + s, radix) == DigitsValue(s, radix)
    decreases |s|
  {
    if s == [] {
      assert Zeros(k) + s == Zeros(k);
      ZerosValue(k, radix);
    } else {
      var front := s[..|s| - 1];
      var last := s[|s| - 1];
      LeadingZeros(k, front, radix);
      assert Zeros(k) + s == (Zeros(k) + front) + [last];
      assert s == front + [last];
      DigitsValueSnoc(Zeros(k) + front, last, radix);
      DigitsValueSnoc(front, last, radix);
    }
  }

  /** A run of zeros is worth zero. */
  lemma {:induction false} ZerosValue(k: nat, radix: Radix)
    ensures DigitsValue(Zeros(k), radix) == Some(0)
  {
    if k > 0 {
      ZerosValue(k - 1, radix);
      DigitsValueSnoc(Zeros(k - 1), '0', radix);
    }
  }

  /** Without a sign the literal is read as it stands. */
  lemma FromStrRadixUnsigned(s: string, radix: Radix)
    requires |s| > 0 && s[0] != '+'
    ensures FromStrRadix(s, radix) ==
      if DigitsValue(s, radix).Some? && DigitsValue(s, radix).value <= MaxU32
      then Some(DigitsValue(s, radix).value) else None
  {
    assert s != "+";
  }

  /** `from_str_radix` rejects everything that is not an optional `+` followed
      by one or more digits of the radix. */
  lemma FromStrRadixRejects(s: string, radix: Radix)
    requires !WellFormed(s, radix)
    ensures FromStrRadix(s, radix) == None
  {
    DigitsValueDefined(Unsigned(s), radix);
  }

  /** A well-formed literal is accepted exactly when its value fits in 32 bits,
      and then it yields that value. */
  lemma FromStrRadixAccepts(s: string, radix: Radix)
    requires WellFormed(s, radix)
    ensures DigitsValue(Unsigned(s), radix).Some?
    ensures FromStrRadix(s, radix) ==
      var v := DigitsValue(Unsigned(s), radix).value; if v <= MaxU32 then Some(v) else None
  {
    DigitsValueDefined(Unsigned(s), radix);
  }

  /** A leading `+` is accepted and ignored, but only one. */
  lemma FromStrRadixSign(s: string, radix: Radix)
    requires s != [] && s[0] != '+'
    ensures FromStrRadix("+" + s, radix) == FromStrRadix(s, radix)
    ensures FromStrRadix("++" + s, radix) == None
  {
    assert ("+" + s)[1..] == s;
    var t := "++" + s;
    assert Unsigned(t)[0] == '+';
    FromStrRadixRejects(t, radix);
  }

  /** Round trip through the rendering: the digits of `n` parse back to `n`
      when `n` fits in 32 bits and are rejected as an overflow otherwise. */
  lemma FromStrRadixDigits(n: nat, radix: Radix, upper: bool)
    ensures FromStrRadix(Digits(n, radix, upper), radix) == if n <= MaxU32 then Some(n) else None
  {
    var s := Digits(n, radix, upper);
    assert s[0] != '+';
    DigitsValueOfDigits(n, radix, upper);
  }

  /** Zero padding on the left, as `{:06x}` prints it, reads back to the same value. */
  lemma FromStrRadixPadded(k: nat, n: nat, radix: Radix, upper: bool)
    ensures FromStrRadix(Zeros(k) + Digits(n, radix, upper), radix) == if n <= MaxU32 then Some(n) else None
  {
    var d := Digits(n, radix, upper);
    var s := Zeros(k) + d;
    if k > 0 {
      assert s[0] == Zeros(k)[0];
    } else {
      assert s == d && DigitValue(d[0], radix).Some?;
    }
    FromStrRadixUnsigned(s, radix);
    DigitsValueOfDigits(n, radix, upper);
    LeadingZeros(k, d, radix);
  }

  /** `&` or `$` followed by the hexadecimal digits of `a` (either case) parses
      to `a`, or fails for a value above 32 bits; a bare `&` or `$` is an error. */
  lemma PrefixedHexRoundTrip(a: nat, upper: bool)
    ensures ParseNumber("&" + Digits(a, 16, upper)) == if a <= MaxU32 then Some(a) else None
    ensures ParseNumber("$" + Digits(a, 16, upper)) == if a <= MaxU32 then Some(a) else None
    ensures ParseNumber("&") == None && ParseNumber("$") == None
  {
    var h := Digits(a, 16, upper);
    assert ("&" + h)[1..] == h;
    assert ("$" + h)[1..] == h;
    FromStrRadixDigits(a, 16, upper);
  }

  /** The hexadecimal digits of `a` followed by `h` or `H` parse to `a`; a bare
      suffix is an error. */
  lemma SuffixedHexRoundTrip(a: nat, upper: bool)
    ensures ParseNumber(Digits(a, 16, upper) + "h") == if a <= MaxU32 then Some(a) else None
    ensures ParseNumber(Digits(a, 16, upper) + "H") == if a <= MaxU32 then Some(a) else None
    ensures ParseNumber("h") == None && ParseNumber("H") == None
  {
    var h := Digits(a, 16, upper);
    assert DigitValue(h[0], 16).Some?;
    assert (h + "h")[0] == h[0] && (h + "H")[0] == h[0];
    assert (h + "h")[..|h|] == h;
    assert (h + "H")[..|h|] == h;
    FromStrRadixDigits(a, 16, upper);
  }

  /** An unmarked token is decimal: the decimal rendering of `a` parses to `a`
      (or overflows), and the empty token is an error. */
  lemma DecimalRoundTrip(a: nat)
    ensures ParseNumber(Decimal(a)) == if a <= MaxU32 then Some(a) else None
    ensures ParseNumber("") == None
  {
    var d := Decimal(a);
    assert DigitValue(d[0], 10).Some? && DigitValue(d[|d| - 1], 10).Some?;
    FromStrRadixDigits(a, 10, false);
  }

  /** The prefix test comes first: a token with both a prefix and a suffix
      marker keeps the suffix letter among its digits and is rejected. */
  lemma ParseNumberPrefixWins(s: string)
    requires |s| >= 2 && s[0] in "&$" && s[|s| - 1] in "hH"
    ensures ParseNumber(s) == None
  {
    var body := s[1..];
    assert Unsigned(body)[|Unsigned(body)| - 1] == s[|s| - 1];
    FromStrRadixRejects(body, 16);
  }
}
