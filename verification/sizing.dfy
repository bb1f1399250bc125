/**
 * Upload sizing: `getIniBytes` (php.ini size strings such as "128M") and
 * `detectChunkSizeBytes` (the resumable-upload chunk size, from the memory
 * limit and the memory in use, which are passed in).
 */
module Sizing {
  import opened Common
  import opened Text

  /** The characters `getIniBytes` trims from both ends: "bB \t\n\r\0\x0B". */
  const IniTrimChars: set<char> := {'b', 'B', ' ', '\t', '\n', '\r', '\0', '\U{0B}'}

  /** The whitespace PHP's `(int)` cast skips before a number. */
  const CastSpace: set<char> := {' ', '\t', '\n', '\r', '\U{0B}', '\U{0C}'}

  predicate IsDigit(c: char) { '0' <= c <= '9' }

  predicate AllDigits(s: string) { forall i :: 0 <= i < |s| ==> IsDigit(s[i]) }

  /** Digits, signs and unit letters are never trimmed. */
  lemma Untrimmed(c: char)
    requires IsDigit(c) || c == '-' || c == '+' || c in "kKmMgGtT"
    ensures c !in IniTrimChars && c !in CastSpace
  {
  }

  /** The longest prefix of `s` made of decimal digits. */
  function LeadingDigits(s: string): (d: string)
    ensures |d| <= |s| && d == s[..|d|] && AllDigits(d)
    ensures |d| == |s| || !IsDigit(s[|d|])
  {
    if s != [] && IsDigit(s[0]) then [s[0]] + LeadingDigits(s[1..]) else []
  }

  /** The number a string of decimal digits denotes. */
  function DigitsValue(d: string): nat
    requires AllDigits(d)
  {
    if d == [] then 0 else DigitsValue(d[..|d| - 1]) * 10 + (d[|d| - 1] as int - '0' as int)
  }

  /** `m` times ten to the power `e`, truncated toward zero. */
  function ScaleByTen(m: nat, e: int): nat
    decreases if e >= 0 then e else -e
  {
    if e == 0 then m
    else if e > 0 then ScaleByTen(m * 10, e - 1)
    else ScaleByTen(m / 10, e + 1)
  }

  /**
   * The exponent at the start of `s`: "e" or "E", an optional sign and at
   * least one digit; 0 when `s` does not start with one.
   */
  function ExponentOf(s: string): int {
    if s != [] && (s[0] == 'e' || s[0] == 'E') then
      var signed := |s| > 1 && (s[1] == '-' || s[1] == '+');
      var ds := LeadingDigits(s[if signed then 2 else 1..]);
      if signed && s[1] == '-' then -(DigitsValue(ds) as int) else DigitsValue(ds)
    else 0
  }

  /**
   * The value, truncated toward zero, of the unsigned number at the start of
   * `u`: digits, an optional "." and fraction digits (at least one digit in
   * all), then an optional exponent; 0 when `u` does not start with one.
   */
  function LeadingNumber(u: string): nat {
    var ip := LeadingDigits(u);
    NumberAfterDigits(ip, u[|ip|..])
  }

  /** The number whose integer digits `ip` are followed by `after`. */
  function NumberAfterDigits(ip: string, after: string): nat
    requires AllDigits(ip)
  {
    if after != [] && after[0] == '.' then
      var fp := LeadingDigits(after[1..]);
      if ip == [] && fp == [] then 0
      else FractionValue(ip, fp, after[1 + |fp|..])
    else if ip == [] then 0
    else ScaleByTen(DigitsValue(ip), ExponentOf(after))
  }

  /** `ip.fp` followed by the exponent at the start of `exp`, truncated toward zero. */
  function FractionValue(ip: string, fp: string, exp: string): nat
    requires AllDigits(ip) && AllDigits(fp)
  {
    AllDigitsAppend(ip, fp);
    ScaleByTen(DigitsValue(ip + fp), ExponentOf(exp) - |fp|)
  }

  lemma AllDigitsAppend(a: string, b: string)
    requires AllDigits(a) && AllDigits(b)
    ensures AllDigits(a + b)
  {
  }

  /**
   * PHP's `(int)$s` on a string (PHP 7.1 and later): skip leading
   * whitespace, read an optional sign and the longest leading number in
   * decimal or scientific notation, and truncate it toward zero; 0 when no
   * number leads the string.
   */
  function IntCast(s: string): int
  {
    var t := TrimLeft(s, CastSpace);
    if t != [] && t[0] == '-' then -(LeadingNumber(t[1..]) as int)
    else if t != [] && t[0] == '+' then LeadingNumber(t[1..])
    else LeadingNumber(t)
  }

  /** A digit string followed by no fraction and no exponent is read as its value. */
  lemma LeadingNumberOfDigits(d: string, rest: string)
    requires |d| >= 1 && AllDigits(d)
    requires rest == [] || (!IsDigit(rest[0]) && rest[0] != '.' && rest[0] != 'e' && rest[0] != 'E')
    ensures LeadingNumber(d + rest) == DigitsValue(d)
  {
    LeadingDigitsOf(d, rest);
    assert (d + rest)[|d|..] == rest;
  }

  /** A digit string alone is read as its value. */
  lemma LeadingNumberOfAllDigits(d: string)
    requires |d| >= 1 && AllDigits(d)
    ensures LeadingNumber(d) == DigitsValue(d)
  {
    LeadingDigitsAll(d);
    assert d[|d|..] == [];
  }

  /** The number at the start of digits followed by an exponent is scaled by it. */
  lemma LeadingNumberScientific(d: string, exp: string)
    requires |d| >= 1 && AllDigits(d)
    requires exp != [] && (exp[0] == 'e' || exp[0] == 'E')
    ensures LeadingNumber(d + exp) == ScaleByTen(DigitsValue(d), ExponentOf(exp))
  {
    LeadingDigitsOf(d, exp);
    assert (d + exp)[|d|..] == exp;
  }

  /** The number at the start of digits, a ".", fraction digits and an exponent. */
  lemma LeadingNumberFraction(d: string, fp: string, exp: string)
    requires |d| >= 1 && AllDigits(d) && AllDigits(fp)
    requires exp == [] || (!IsDigit(exp[0]) && exp[0] != '.')
    ensures LeadingNumber(d + "." + fp + exp) == FractionValue(d, fp, exp)
  {
    var after := "." + (fp + exp);
    assert d + "." + fp + exp == d + after;
    LeadingNumberAfter(d, after);
    NumberAtDot(d, fp, exp);
  }

  /** Integer digits followed by ".", fraction digits and an exponent text. */
  lemma NumberAtDot(d: string, fp: string, exp: string)
    requires |d| >= 1 && AllDigits(d) && AllDigits(fp)
    requires exp == [] || (!IsDigit(exp[0]) && exp[0] != '.')
    ensures NumberAfterDigits(d, "." + (fp + exp)) == FractionValue(d, fp, exp)
  {
    FractionAfterDot(fp, exp);
  }

  /** Digits followed by a non-digit: the rest of the number is read from that point. */
  lemma LeadingNumberAfter(d: string, after: string)
    requires AllDigits(d)
    requires after == [] || !IsDigit(after[0])
    ensures LeadingNumber(d + after) == NumberAfterDigits(d, after)
  {
    LeadingDigitsOf(d, after);
    DropPrefix(d, after);
  }

  /** After the ".", the fraction digits are read and the exponent text follows them. */
  lemma FractionAfterDot(fp: string, exp: string)
    requires AllDigits(fp)
    requires exp == [] || (!IsDigit(exp[0]) && exp[0] != '.')
    ensures var after := "." + (fp + exp);
      LeadingDigits(after[1..]) == fp && after[1 + |fp|..] == exp
  {
    var after := "." + (fp + exp);
    assert after[1..] == fp + exp;
    LeadingDigitsOf(fp, exp);
    DropPrefix(fp, exp);
    assert after[1 + |fp|..] == exp;
  }

  lemma Regroup(a: string, b: string, c: string, d: string)
    ensures a + b + c + d == a + (b + c + d)
  {
  }

  /** Dropping a prefix's length from a concatenation leaves the rest. */
  lemma DropPrefix(a: string, b: string)
    ensures (a + b)[|a|..] == b
  {
  }

  function Pow1024(k: nat): nat {
    if k == 0 then 1 else 1024 * Pow1024(k - 1)
  }

  /** How many powers of 1024 a lower-cased unit letter stands for. */
  function UnitRank(last: string): nat {
    if last == "t" then 4 else if last == "g" then 3 else if last == "m" then 2 else if last == "k" then 1 else 0
  }

  /**
   * The fall-through `switch ($last)` of `getIniBytes`: 't' multiplies by
   * 1024 and falls into 'g', which falls into 'm', which falls into 'k'.
   */
  function ScaleByUnit(last: string, val: int): (r: int)
    ensures r == val * Pow1024(UnitRank(last))
  {
    assert Pow1024(2) == 1048576 && Pow1024(4) == 1099511627776;
    var v1 := if last == "t" then val * 1024 else val;
    var v2 := if last == "t" || last == "g" then v1 * 1024 else v1;
    var v3 := if last == "t" || last == "g" || last == "m" then v2 * 1024 else v2;
    if last == "t" || last == "g" || last == "m" || last == "k" then v3 * 1024 else v3
  }

  /**
   * A size string as `getIniBytes` reads it: trim "bB" and whitespace, take
   * the lower-cased last character as the unit ("" when nothing is left),
   * cast the text to an integer and scale it by the unit.
   */
  function ParseIniSize(val: string): int
  {
    var t := Trim(val, IniTrimChars);
    var last := if t == [] then "" else [LowerChar(t[|t| - 1])];
    ScaleByUnit(last, IntCast(t))
  }

  /**
   * `getIniBytes($iniName, $val)`: with a directive name, its value in
   * php.ini (`ini` maps the directives that exist; `ini_get` answers false,
   * and the result is 0, for any other); without one, `val` itself.
   */
  function GetIniBytes(iniName: string, val: string, ini: map<string, string>): (r: int)
    ensures iniName != "" && iniName !in ini ==> r == 0
    ensures iniName != "" && iniName in ini ==> r == ParseIniSize(ini[iniName])
    ensures iniName == "" ==> r == ParseIniSize(val)
  {
    if iniName != "" then
      if iniName in ini then ParseIniSize(ini[iniName]) else 0
    else ParseIniSize(val)
  }

  /** The decimal rendering of `n`. */
  function Decimal(n: nat): (s: string)
    ensures |s| >= 1 && AllDigits(s)
  {
    if n < 10 then [('0' as int + n) as char]
    else Decimal(n / 10) + [('0' as int + n % 10) as char]
  }

  lemma {:induction false} DecimalValue(n: nat)
    ensures DigitsValue(Decimal(n)) == n
  {
    if n >= 10 {
      var d := Decimal(n);
      assert d[..|d| - 1] == Decimal(n / 10);
      DecimalValue(n / 10);
    }
  }

  /** The leading digits of a digit string followed by a non-digit are that digit string. */
  lemma {:induction false} LeadingDigitsOf(d: string, rest: string)
    requires AllDigits(d)
    requires rest == [] || !IsDigit(rest[0])
    ensures LeadingDigits(d + rest) == d
    decreases |d|
  {
    if d != [] {
      assert (d + rest)[1..] == d[1..] + rest;
      LeadingDigitsOf(d[1..], rest);
    } else {
      assert d + rest == rest;
    }
  }

  /** Casting a digit string followed by neither a fraction nor an exponent gives the digits' value. */
  lemma IntCastOfDigits(d: string, rest: string)
    requires |d| >= 1 && AllDigits(d)
    requires rest == [] || (!IsDigit(rest[0]) && rest[0] != '.' && rest[0] != 'e' && rest[0] != 'E')
    ensures IntCast(d + rest) == DigitsValue(d)
  {
    assert (d + rest)[0] == d[0];
    IntCastUnsigned(d + rest);
    LeadingNumberOfDigits(d, rest);
  }

  /** A text that starts with a digit is cast to the value of its leading number. */
  lemma IntCastUnsigned(s: string)
    requires s != [] && IsDigit(s[0])
    ensures IntCast(s) == LeadingNumber(s)
  {
    Untrimmed(s[0]);
    TrimLeftKeeps(s, CastSpace);
  }

  /** Trimming a string that starts and ends with kept characters, followed by "b"/"B" characters, leaves the string. */
  lemma IniTrimDropsTail(core: string, tail: string)
    requires core != [] && core[0] !in IniTrimChars && core[|core| - 1] !in IniTrimChars
    requires forall i :: 0 <= i < |tail| ==> tail[i] == 'b' || tail[i] == 'B'
    ensures Trim(core + tail, IniTrimChars) == core
  {
    var s := core + tail;
    assert s[0] == core[0];
    TrimLeftKeeps(s, IniTrimChars);
    TrimRightDrops(core, tail, IniTrimChars);
  }

  /** A bare decimal size is read as that many bytes. */
  lemma IniSizeOfDecimal(n: nat)
    ensures ParseIniSize(Decimal(n)) == n
  {
    IniSizeOfDigits(Decimal(n));
    DecimalValue(n);
  }

  /** A bare digit string is read as the number it denotes. */
  lemma IniSizeOfDigits(d: string)
    requires |d| >= 1 && AllDigits(d)
    ensures ParseIniSize(d) == DigitsValue(d)
  {
    DigitsUnscaled(d);
    IntCastOfAllDigits(d);
  }

  /** A digit string is neither trimmed nor scaled: it is read as its cast. */
  lemma DigitsUnscaled(d: string)
    requires |d| >= 1 && AllDigits(d)
    ensures ParseIniSize(d) == IntCast(d)
  {
    DigitsUntrimmed(d);
    DigitNoUnit(d[|d| - 1]);
    ScaleByNoUnit([LowerChar(d[|d| - 1])], IntCast(d));
  }

  /** Casting a digit string gives its value. */
  lemma IntCastOfAllDigits(d: string)
    requires |d| >= 1 && AllDigits(d)
    ensures IntCast(d) == DigitsValue(d)
  {
    IntCastUnsigned(d);
    LeadingNumberOfAllDigits(d);
  }

  /** Nothing is trimmed from a digit string. */
  lemma DigitsUntrimmed(d: string)
    requires |d| >= 1 && AllDigits(d)
    ensures Trim(d, IniTrimChars) == d
  {
    Untrimmed(d[0]);
    Untrimmed(d[|d| - 1]);
    TrimLeftKeeps(d, IniTrimChars);
    TrimRightKeeps(d, IniTrimChars);
  }

  /** A digit string is its own leading digits. */
  lemma {:induction false} LeadingDigitsAll(d: string)
    requires AllDigits(d)
    ensures LeadingDigits(d) == d
    decreases |d|
  {
    if d != [] {
      assert forall i :: 0 <= i < |d| - 1 ==> d[1..][i] == d[i + 1];
      LeadingDigitsAll(d[1..]);
    }
  }

  /** A digit, lower-cased, is not a unit letter. */
  lemma DigitNoUnit(c: char)
    requires IsDigit(c)
    ensures UnitRank([LowerChar(c)]) == 0
  {
    assert LowerChar(c) == c;
  }

  /** Without a unit letter the value is not scaled. */
  lemma ScaleByNoUnit(last: string, val: int)
    requires UnitRank(last) == 0
    ensures ScaleByUnit(last, val) == val
  {
  }

  /** A number followed by a unit letter is cast whole and scaled by the unit. */
  lemma ParseWithUnit(core: string, unit: char)
    requires core != [] && IsDigit(core[0]) && unit in "kKmMgGtT"
    ensures ParseIniSize(core + [unit]) == ScaleByUnit([LowerChar(unit)], IntCast(core + [unit]))
  {
    var s := core + [unit];
    Untrimmed(core[0]);
    Untrimmed(unit);
    ParseUntrimmed(s);
  }

  /** A size string with nothing to trim is cast whole and scaled by its last character. */
  lemma ParseUntrimmed(s: string)
    requires s != [] && s[0] !in IniTrimChars && s[|s| - 1] !in IniTrimChars
    ensures ParseIniSize(s) == ScaleByUnit([LowerChar(s[|s| - 1])], IntCast(s))
  {
    TrimLeftKeeps(s, IniTrimChars);
    TrimRightKeeps(s, IniTrimChars);
  }

  /**
   * `getIniBytes` reads back the sizes php.ini is written in: the decimal
   * rendering of `n`, a unit letter k, m, g or t in either case, then any
   * "B"/"b" characters, gives `n` times the unit's power of 1024.
   */
  lemma IniSizeWithUnit(n: nat, unit: char, tail: string)
    requires unit in "kKmMgGtT"
    requires forall i :: 0 <= i < |tail| ==> tail[i] == 'b' || tail[i] == 'B'
    ensures ParseIniSize(Decimal(n) + [unit] + tail) == n * Pow1024(UnitRank([LowerChar(unit)]))
  {
    var d := Decimal(n);
    var core := d + [unit];
    assert IsDigit(d[0]) && core[0] == d[0] && core[|core| - 1] == unit;
    Untrimmed(d[0]);
    Untrimmed(unit);
    IniTrimDropsTail(core, tail);
    IntCastOfDigits(d, [unit]);
    DecimalValue(n);
  }

  /** The running example: "128M" is 134217728 bytes. */
  lemma IniSizeExample()
    ensures ParseIniSize("128M") == 134217728
  {
    assert Decimal(128) + ['M'] + "" == "128M";
    IniSizeWithUnit(128, 'M', "");
  }

  function Pow10(k: nat): nat {
    if k == 0 then 1 else 10 * Pow10(k - 1)
  }

  /** A non-negative exponent multiplies by that power of ten. */
  lemma {:induction false} ScaleUp(m: nat, k: nat)
    ensures ScaleByTen(m, k) == m * Pow10(k)
    decreases k
  {
    if k > 0 {
      ScaleUp(m * 10, k - 1);
      assert m * 10 * Pow10(k - 1) == m * (10 * Pow10(k - 1));
    }
  }

  /** Scaling the digits of `d` followed by fraction digits back by their count leaves the value of `d`. */
  lemma {:induction false} DropFraction(d: string, fp: string)
    requires AllDigits(d) && AllDigits(fp)
    ensures AllDigits(d + fp) && ScaleByTen(DigitsValue(d + fp), -|fp|) == DigitsValue(d)
    decreases |fp|
  {
    AllDigitsAppend(d, fp);
    if fp != [] {
      var front := fp[..|fp| - 1];
      var s := d + fp;
      assert s[..|s| - 1] == d + front;
      DropFraction(d, front);
      assert DigitsValue(s) / 10 == DigitsValue(d + front);
    } else {
      assert d + fp == d;
    }
  }

  /** An "e" followed by a decimal rendering and no further digit is that exponent. */
  lemma ExponentOfDecimal(k: nat, rest: string)
    requires rest == [] || !IsDigit(rest[0])
    ensures ExponentOf("e" + Decimal(k) + rest) == k
  {
    var e := "e" + Decimal(k) + rest;
    assert e[1..] == Decimal(k) + rest;
    assert e[1] == Decimal(k)[0];
    LeadingDigitsOf(Decimal(k), rest);
    DecimalValue(k);
  }

  /** The number at the start of `n`, "e", `k` and then no digit is `n` times ten to the `k`. */
  lemma LeadingNumberOfScientific(n: nat, k: nat, rest: string)
    requires rest == [] || !IsDigit(rest[0])
    ensures LeadingNumber(Decimal(n) + ("e" + Decimal(k) + rest)) == n * Pow10(k)
  {
    LeadingNumberScientific(Decimal(n), "e" + Decimal(k) + rest);
    ExponentOfDecimal(k, rest);
    DecimalValue(n);
    ScaleUp(n, k);
  }

  /** `n`, "e", `k` and then no digit is cast to `n` times ten to the `k`. */
  lemma IntCastScientific(n: nat, k: nat, rest: string)
    requires rest == [] || !IsDigit(rest[0])
    ensures IntCast(Decimal(n) + "e" + Decimal(k) + rest) == n * Pow10(k)
  {
    var s := Decimal(n) + ("e" + Decimal(k) + rest);
    Regroup(Decimal(n), "e", Decimal(k), rest);
    LeadingNumberOfScientific(n, k, rest);
    assert s[0] == Decimal(n)[0];
    IntCastUnsigned(s);
  }

  lemma MulTen(t: nat, p: nat)
    ensures t * (10 * p) == 10 * (t * p) && (t + 1) * (10 * p) == 10 * (t * p) + 10 * p
  {
  }

  /** A negative exponent divides by that power of ten and truncates: the result `t` has `t * 10^k <= m < (t + 1) * 10^k`. */
  lemma {:induction false} ScaleDown(m: nat, k: nat)
    ensures var t := ScaleByTen(m, -(k as int)); t * Pow10(k) <= m < (t + 1) * Pow10(k)
    decreases k
  {
    if k > 0 {
      var t := ScaleByTen(m, -(k as int));
      var p := Pow10(k - 1);
      ScaleDown(m / 10, k - 1);
      assert t == ScaleByTen(m / 10, -((k - 1) as int));
      MulTen(t, p);
      var a := t * p;
      assert a <= m / 10 < a + p;
    }
  }

  /** An "e" followed by no digit and no sign is not an exponent: `n`, "e" and such a rest is cast to `n` ("3eM" is 3). */
  lemma IntCastBareExponent(n: nat, rest: string)
    requires rest == [] || (!IsDigit(rest[0]) && rest[0] != '-' && rest[0] != '+')
    ensures IntCast(Decimal(n) + ("e" + rest)) == n
  {
    var s := Decimal(n) + ("e" + rest);
    assert ("e" + rest)[1..] == rest;
    assert LeadingDigits(rest) == [];
    assert ExponentOf("e" + rest) == 0;
    LeadingNumberScientific(Decimal(n), "e" + rest);
    DecimalValue(n);
    assert s[0] == Decimal(n)[0];
    IntCastUnsigned(s);
  }

  /**
   * A size in scientific notation is read through the cast: `n`, "e", `k`
   * and a unit letter is `n` times ten to the `k` units ("1e3M" is 1000 MiB).
   */
  lemma IniSizeScientific(n: nat, k: nat, unit: char)
    requires unit in "kKmMgGtT"
    ensures ParseIniSize(Decimal(n) + "e" + Decimal(k) + [unit]) == n * Pow10(k) * Pow1024(UnitRank([LowerChar(unit)]))
  {
    IntCastScientific(n, k, [unit]);
    assert (Decimal(n) + "e" + Decimal(k))[0] == Decimal(n)[0];
    ParseWithUnit(Decimal(n) + "e" + Decimal(k), unit);
  }

  /** The value of `n`, ".", fraction digits and no exponent is `n`: the fraction is truncated. */
  lemma FractionValueTruncates(n: nat, fp: string, rest: string)
    requires AllDigits(fp)
    requires rest == [] || (rest[0] != 'e' && rest[0] != 'E')
    ensures FractionValue(Decimal(n), fp, rest) == n
  {
    assert ExponentOf(rest) == 0;
    DropFraction(Decimal(n), fp);
    DecimalValue(n);
  }

  /** `n`, ".", fraction digits and then no digit, ".", "e" or "E" is cast to `n`. */
  lemma IntCastFraction(n: nat, fp: string, rest: string)
    requires AllDigits(fp)
    requires rest == [] || (!IsDigit(rest[0]) && rest[0] != '.' && rest[0] != 'e' && rest[0] != 'E')
    ensures IntCast(Decimal(n) + "." + fp + rest) == n
  {
    var s := Decimal(n) + "." + fp + rest;
    LeadingNumberFraction(Decimal(n), fp, rest);
    FractionValueTruncates(n, fp, rest);
    assert s[0] == Decimal(n)[0];
    IntCastUnsigned(s);
  }

  /**
   * The fraction of a size is dropped before the unit scales it: `n`, ".",
   * fraction digits and a unit letter is `n` units ("1.5G" is 1 GiB).
   */
  lemma IniSizeFraction(n: nat, fp: string, unit: char)
    requires AllDigits(fp) && unit in "kKmMgGtT"
    ensures ParseIniSize(Decimal(n) + "." + fp + [unit]) == n * Pow1024(UnitRank([LowerChar(unit)]))
  {
    IntCastFraction(n, fp, [unit]);
    assert (Decimal(n) + "." + fp)[0] == Decimal(n)[0];
    ParseWithUnit(Decimal(n) + "." + fp, unit);
  }

  /** Casting a minus sign followed by digits gives the negated value. */
  lemma IntCastOfNegative(d: string)
    requires |d| >= 1 && AllDigits(d)
    ensures IntCast("-" + d) == -(DigitsValue(d) as int)
  {
    var s := "-" + d;
    Untrimmed('-');
    TrimLeftKeeps(s, CastSpace);
    assert s[1..] == d;
    LeadingNumberOfAllDigits(d);
  }

  /** A negative decimal size, such as php.ini's "-1" for "no limit", is read as that number. */
  lemma IniSizeOfNegative(n: nat)
    ensures ParseIniSize("-" + Decimal(n)) == -(n as int)
  {
    IniSizeOfNegativeDigits(Decimal(n));
    DecimalValue(n);
  }

  /** A minus sign followed by a digit string is read as the negated number. */
  lemma IniSizeOfNegativeDigits(d: string)
    requires |d| >= 1 && AllDigits(d)
    ensures ParseIniSize("-" + d) == -(DigitsValue(d) as int)
  {
    NegativeUnscaled(d);
    IntCastOfNegative(d);
  }

  /** A minus sign followed by a digit string is neither trimmed nor scaled. */
  lemma NegativeUnscaled(d: string)
    requires |d| >= 1 && AllDigits(d)
    ensures ParseIniSize("-" + d) == IntCast("-" + d)
  {
    var s := "-" + d;
    assert s[0] == '-' && s[|s| - 1] == d[|d| - 1];
    Untrimmed('-');
    Untrimmed(d[|d| - 1]);
    DigitNoUnit(d[|d| - 1]);
    ParseUntrimmed(s);
  }

  /** 100 MiB: the default and largest chunk size. */
  const MaxChunkBytes := 104857600
  /** 256 KiB: resumable uploads send multiples of this. */
  const ChunkUnitBytes := 262144

  /**
   * `detectChunkSizeBytes`: 100 MiB unless a positive memory limit is set;
   * then a quarter of the free memory rounded down to a multiple of 256 KiB,
   * clamped to [256 KiB, 100 MiB]. PHP computes `floor($available / 4 /
   * 262144)` in floating point; for the positive divisor this is Dafny's `/`.
   * The result is always a legal chunk size; it never takes more than a
   * quarter of the free memory unless that quarter is under 256 KiB; and it
   * is the largest such multiple below the 100 MiB cap.
   */
  function DetectChunkSizeBytes(memoryLimit: int, memoryUsed: int): (r: int)
    ensures ChunkUnitBytes <= r <= MaxChunkBytes && r % ChunkUnitBytes == 0
    ensures memoryLimit <= 0 ==> r == MaxChunkBytes
    ensures memoryLimit > 0 ==> r == ChunkUnitBytes || 4 * r <= memoryLimit - memoryUsed
    ensures memoryLimit > 0 ==> r == MaxChunkBytes || memoryLimit - memoryUsed < 4 * (r + ChunkUnitBytes)
  {
    if memoryLimit > 0 then
      var available := memoryLimit - memoryUsed;
      var quarter := available / 4 / ChunkUnitBytes * ChunkUnitBytes;
      assert quarter % ChunkUnitBytes == 0;
      Max(ChunkUnitBytes, Min(MaxChunkBytes, quarter))
    else MaxChunkBytes
  }

  /**
   * Worked cases: 1000 MiB limit with 800 MiB used gives 50 MiB; 2 GiB with
   * 1 GiB used and 1 GiB with 500 MiB used both hit the 100 MiB cap; a
   * nearly exhausted limit gives 256 KiB.
   */
  lemma ChunkSizeExamples()
    ensures DetectChunkSizeBytes(1000 * 1048576, 800 * 1048576) == 50 * 1048576
    ensures DetectChunkSizeBytes(2048 * 1048576, 1024 * 1048576) == MaxChunkBytes
    ensures DetectChunkSizeBytes(1024 * 1048576, 500 * 1048576) == MaxChunkBytes
    ensures DetectChunkSizeBytes(128 * 1048576, 127 * 1048576) == ChunkUnitBytes
  {
    assert (1000 * 1048576 - 800 * 1048576) / 4 / ChunkUnitBytes == 200;
    assert (2048 * 1048576 - 1024 * 1048576) / 4 / ChunkUnitBytes == 1024;
    assert (1024 * 1048576 - 500 * 1048576) / 4 / ChunkUnitBytes == 524;
    assert (128 * 1048576 - 127 * 1048576) / 4 / ChunkUnitBytes == 1;
  }

  /** php.ini's "-1" (no memory limit) gives the 100 MiB cap. */
  lemma ChunkSizeUnlimited()
    ensures DetectChunkSizeBytes(GetIniBytes("memory_limit", "", map["memory_limit" := "-1"]), 1048576) == MaxChunkBytes
  {
    assert "-" + Decimal(1) == "-1";
    IniSizeOfNegative(1);
  }
}
