/**
 * The behaviour of the Go library string routines the core relies on:
 * `filepath.Ext`, `strings.ToLower`, decimal formatting (`%d`) and
 * `fmt.Sscanf(s, "%d", &v)` into an `int64`.
 */
module GoText {
  import opened Wrappers

  const MinInt64: int := -0x8000_0000_0000_0000
  const MaxInt64: int := 0x7FFF_FFFF_FFFF_FFFF

  predicate IsInt64(n: int)
  {
    MinInt64 <= n <= MaxInt64
  }

  // ---------------------------------------------------------------------
  // filepath.Ext

  /**
   * The extension of `path`: the suffix of its final element that starts at
   * the last '.', or "" when the final element has no '.'.
   */
  function Ext(path: string): (r: string)
    ensures |r| <= |path| && r == path[|path| - |r|..]
    ensures r != [] ==> r[0] == '.'
    ensures forall i :: 0 <= i < |r| ==> r[i] != '/'
    ensures forall i :: 1 <= i < |r| ==> r[i] != '.'
    ensures r == [] ==> forall i :: 0 <= i < |path| && path[i] == '.' ==>
                          exists j :: i < j < |path| && path[j] == '/'
  {
    if path == [] then []
    else
      var c := path[|path| - 1];
      if c == '/' then []
      else if c == '.' then ['.']
      else
        var e := Ext(path[..|path| - 1]);
        if e == [] then [] else e + [c]
  }

  /** A dot followed by anything but dots and separators is the extension of any path it ends. */
  lemma {:induction false} ExtOfSuffix(stem: string, ext: string)
    requires |ext| > 0 && ext[0] == '.'
    requires forall i :: 1 <= i < |ext| ==> ext[i] != '.' && ext[i] != '/'
    ensures Ext(stem + ext) == ext
  {
    var p := stem + ext;
    if |ext| == 1 {
      assert p[|p| - 1] == '.' && ext == ['.'];
    } else {
      var init := ext[..|ext| - 1];
      var c := ext[|ext| - 1];
      assert c != '.' && c != '/' && p[|p| - 1] == c;
      assert p[..|p| - 1] == stem + init;
      assert Ext(stem + init) == init by {
        ExtOfSuffix(stem, init);
      }
      assert ext == init + [c];
    }
  }

  /** A path with no '.' in it has no extension. */
  lemma {:induction false} ExtWithoutDot(path: string)
    requires forall i :: 0 <= i < |path| ==> path[i] != '.'
    ensures Ext(path) == []
  {
    if path != [] {
      var init := path[..|path| - 1];
      assert forall i :: 0 <= i < |init| ==> init[i] == path[i];
      ExtWithoutDot(init);
    }
  }

  // ---------------------------------------------------------------------
  // strings.ToLower

  /**
   * Go's lower-case mapping of one code point, exact wherever the result is
   * ASCII: 'A'..'Z' map to 'a'..'z', U+0130 (capital I with dot) maps to
   * 'i' and U+212A (Kelvin sign) maps to 'k'. No other non-ASCII code point
   * lowers to an ASCII one; those are kept as they are.
   */
  function LowerChar(c: char): (r: char)
    ensures 'A' <= c <= 'Z' ==> r as int == c as int + 32
    ensures (c as int) < 128 && !('A' <= c <= 'Z') ==> r == c
    ensures (r as int) < 128 ==> (c as int) < 128 || c == '\U{0130}' || c == '\U{212A}'
    ensures 'a' <= r <= 'z' && c != r ==> ('A' <= c <= 'Z') || c == '\U{0130}' || c == '\U{212A}'
  {
    if 'A' <= c <= 'Z' then (c as int + 32) as char
    else if c == '\U{0130}' then 'i'
    else if c == '\U{212A}' then 'k'
    else c
  }

  /** `strings.ToLower`: every code point lowered. */
  function ToLower(s: string): (r: string)
    ensures |r| == |s|
    ensures forall i :: 0 <= i < |s| ==> r[i] == LowerChar(s[i])
  {
    seq(|s|, i requires 0 <= i < |s| => LowerChar(s[i]))
  }

  // ---------------------------------------------------------------------
  // Decimal formatting

  predicate IsDigit(c: char)
  {
    '0' <= c <= '9'
  }

  predicate AllDigits(s: string)
  {
    forall i :: 0 <= i < |s| ==> IsDigit(s[i])
  }

  function DigitChar(d: nat): (c: char)
    requires d < 10
    ensures IsDigit(c)
  {
    (('0' as int) + d) as char
  }

  /** The number a run of decimal digits denotes. */
  function DigitsValue(ds: string): nat
    requires AllDigits(ds)
  {
    if ds == [] then 0
    else DigitsValue(ds[..|ds| - 1]) * 10 + ((ds[|ds| - 1] as int) - ('0' as int))
  }

  /** `%d` of a non-negative number: its digits, without leading zeros. */
  function FormatNat(n: nat): (r: string)
    ensures r != [] && AllDigits(r)
    ensures |r| > 1 ==> r[0] != '0'
  {
    if n < 10 then [DigitChar(n)] else FormatNat(n / 10) + [DigitChar(n % 10)]
  }

  /** `%d` of any integer: a '-' before the digits of a negative number. */
  function FormatInt(n: int): (r: string)
    ensures r != []
    ensures n < 0 <==> r[0] == '-'
  {
    if n < 0 then "-" + FormatNat(-n) else FormatNat(n)
  }

  lemma {:induction false} FormatNatValue(n: nat)
    ensures DigitsValue(FormatNat(n)) == n
  {
    if n >= 10 {
      FormatNatValue(n / 10);
      var s := FormatNat(n / 10) + [DigitChar(n % 10)];
      assert s[..|s| - 1] == FormatNat(n / 10);
    }
  }

  // ---------------------------------------------------------------------
  // fmt.Sscanf(s, "%d", &v) with v an int64

  /** The white space `fmt`'s scanner skips before a number. */
  predicate IsScanSpace(c: char)
  {
    || ('\t' <= c <= '\r') || c == ' ' || c == '\U{0085}' || c == '\U{00A0}'
    || c == '\U{1680}' || ('\U{2000}' <= c <= '\U{200A}') || c == '\U{2028}'
    || c == '\U{2029}' || c == '\U{202F}' || c == '\U{205F}' || c == '\U{3000}'
  }

  /**
   * Skips leading white space; meeting a newline on the way is an error,
   * since `Sscanf` does not treat newlines as space.
   */
  function SkipSpace(s: string): (r: Option<string>)
    ensures r.Some? ==> |r.value| <= |s| && r.value == s[|s| - |r.value|..]
    ensures r.Some? && r.value != [] ==> !IsScanSpace(r.value[0])
    ensures r.None? ==> '\n' in s
  {
    if s == [] then Some([])
    else if s[0] == '\n' then None
    else if IsScanSpace(s[0]) then SkipSpace(s[1..])
    else Some(s)
  }

  /** The longest prefix of `s` made of decimal digits. */
  function LeadingDigits(s: string): (r: string)
    ensures |r| <= |s| && r == s[..|r|] && AllDigits(r)
    ensures |r| < |s| ==> !IsDigit(s[|r|])
  {
    if s != [] && IsDigit(s[0]) then [s[0]] + LeadingDigits(s[1..]) else []
  }

  /**
   * `fmt.Sscanf(s, "%d", &v)`: white space, an optional sign, then at least
   * one digit; the value must fit an int64. Input after the digits is
   * ignored, so "12/x" scans as 12.
   */
  function ScanDecimal(s: string): (r: Option<int>)
    ensures r.Some? ==> IsInt64(r.value)
  {
    match SkipSpace(s)
    case None => None
    case Some(t) => ScanSigned(t)
  }

  /** The number at the very start of `t`: an optional sign, then digits. */
  function ScanSigned(t: string): (r: Option<int>)
    ensures r.Some? ==> IsInt64(r.value)
    ensures r.Some? ==> exists k :: 0 <= k < |t| && IsDigit(t[k])
  {
    if t == [] then None
    else
      var signed := t[0] == '+' || t[0] == '-';
      var body := if signed then t[1..] else t;
      var ds := LeadingDigits(body);
      if ds == [] then None
      else
        var mag: int := DigitsValue(ds);
        var v := if t[0] == '-' then -mag else mag;
        if IsInt64(v) then
          assert body[0] == t[|t| - |body|];
          Some(v)
        else None
  }

  /** Nothing that scans lacks a digit. */
  lemma ScanNeedsDigit(s: string)
    ensures ScanDecimal(s).Some? ==> exists k :: 0 <= k < |s| && IsDigit(s[k])
  {
    if ScanDecimal(s).Some? {
      var t := SkipSpace(s).value;
      var k :| 0 <= k < |t| && IsDigit(t[k]);
      assert s[|s| - |t| + k] == t[k];
    }
  }

  lemma {:induction false} LeadingDigitsOfRun(ds: string, rest: string)
    requires AllDigits(ds)
    requires rest == [] || !IsDigit(rest[0])
    ensures LeadingDigits(ds + rest) == ds
  {
    if ds != [] {
      assert (ds + rest)[1..] == ds[1..] + rest;
      LeadingDigitsOfRun(ds[1..], rest);
      assert ds == [ds[0]] + ds[1..];
    }
  }

  /** A string that starts with neither space nor newline is not changed by skipping space. */
  lemma NoSpaceToSkip(s: string)
    requires s != [] && !IsScanSpace(s[0]) && s[0] != '\n'
    ensures SkipSpace(s) == Some(s)
  {
  }

  /** White space other than newlines in front of the input is skipped entirely. */
  lemma {:induction false} SkipSpaces(sp: string, t: string)
    requires forall i :: 0 <= i < |sp| ==> IsScanSpace(sp[i]) && sp[i] != '\n'
    ensures SkipSpace(sp + t) == SkipSpace(t)
  {
    if sp != [] {
      assert (sp + t)[0] == sp[0] && (sp + t)[1..] == sp[1..] + t;
      assert SkipSpace(sp + t) == SkipSpace(sp[1..] + t);
      SkipSpaces(sp[1..], t);
    } else {
      assert sp + t == t;
    }
  }

  /**
   * What `%d` makes of a number as written: spaces, a sign ("", "+" or "-"),
   * a run of digits and anything not starting with a digit scan as the
   * signed value of the digits when that fits an int64, and fail otherwise.
   */
  lemma ScanDecimalOf(sp: string, sign: string, ds: string, rest: string)
    requires forall i :: 0 <= i < |sp| ==> IsScanSpace(sp[i]) && sp[i] != '\n'
    requires sign == "" || sign == "+" || sign == "-"
    requires ds != [] && AllDigits(ds)
    requires rest == [] || !IsDigit(rest[0])
    ensures var v := if sign == "-" then -(DigitsValue(ds) as int) else DigitsValue(ds);
            ScanDecimal(sp + (sign + (ds + rest))) == if IsInt64(v) then Some(v) else None
  {
    var t := sign + (ds + rest);
    assert t[0] == (if sign == "" then ds[0] else sign[0]);
    ScanAfterSpaces(sp, t);
    ScanSignedOf(sign, ds, rest);
  }

  /** Spaces before a sign or a digit are skipped and the number is read from there. */
  lemma ScanAfterSpaces(sp: string, t: string)
    requires forall i :: 0 <= i < |sp| ==> IsScanSpace(sp[i]) && sp[i] != '\n'
    requires t != [] && (t[0] == '+' || t[0] == '-' || IsDigit(t[0]))
    ensures ScanDecimal(sp + t) == ScanSigned(t)
  {
    assert !IsScanSpace(t[0]) && t[0] != '\n';
    assert SkipSpace(t) == Some(t) by {
      NoSpaceToSkip(t);
    }
    assert SkipSpace(sp + t) == Some(t) by {
      SkipSpaces(sp, t);
    }
  }

  /** The sign and digit part of `ScanDecimalOf`, with no space in front. */
  lemma ScanSignedOf(sign: string, ds: string, rest: string)
    requires sign == "" || sign == "+" || sign == "-"
    requires ds != [] && AllDigits(ds)
    requires rest == [] || !IsDigit(rest[0])
    ensures var v := if sign == "-" then -(DigitsValue(ds) as int) else DigitsValue(ds);
            ScanSigned(sign + (ds + rest)) == if IsInt64(v) then Some(v) else None
  {
    var t := sign + (ds + rest);
    var body := if sign == "" then t else t[1..];
    assert t[0] == (if sign == "" then ds[0] else sign[0]);
    assert body == ds + rest;
    assert LeadingDigits(body) == ds by {
      LeadingDigitsOfRun(ds, rest);
    }
    ScanSignedByDigits(t, ds);
  }

  /** Once the digit run after the optional sign is known, so is the scanned value. */
  lemma ScanSignedByDigits(t: string, ds: string)
    requires t != [] && ds != []
    requires ds == LeadingDigits(if t[0] == '+' || t[0] == '-' then t[1..] else t)
    ensures var v := if t[0] == '-' then -(DigitsValue(ds) as int) else DigitsValue(ds);
            ScanSigned(t) == if IsInt64(v) then Some(v) else None
  {
  }

  /**
   * Everything else fails: after the spaces comes a newline, the end of the
   * input, a character that is neither a sign nor a digit, or a sign that
   * is not followed by a digit.
   */
  lemma ScanDecimalRejects(sp: string, t: string)
    requires forall i :: 0 <= i < |sp| ==> IsScanSpace(sp[i]) && sp[i] != '\n'
    requires t == [] || t[0] == '\n' || !IsScanSpace(t[0])
    requires || t == []
             || t[0] == '\n'
             || (t[0] != '+' && t[0] != '-' && !IsDigit(t[0]))
             || ((t[0] == '+' || t[0] == '-') && (|t| == 1 || !IsDigit(t[1])))
    ensures ScanDecimal(sp + t) == None
  {
    SkipSpaces(sp, t);
    if t != [] && t[0] != '\n' {
      NoSpaceToSkip(t);
    }
  }

  /**
   * Round trip: an int64 written with `%d` and followed by anything that is
   * not a digit scans back to the same number.
   */
  lemma ScanFormatRoundTrip(n: int, rest: string)
    requires IsInt64(n)
    requires rest == [] || !IsDigit(rest[0])
    ensures ScanDecimal(FormatInt(n) + rest) == Some(n)
  {
    if n < 0 {
      FormattedScan(n, "-", FormatNat(-n), rest);
    } else {
      FormattedScan(n, "", FormatNat(n), rest);
    }
  }

  /** The two halves of the round trip: `%d` output has the shape `ScanDecimalOf` reads. */
  lemma FormattedScan(n: int, sign: string, digits: string, rest: string)
    requires IsInt64(n)
    requires rest == [] || !IsDigit(rest[0])
    requires sign == (if n < 0 then "-" else "")
    requires digits == FormatNat(if n < 0 then -n else n)
    ensures ScanDecimal(FormatInt(n) + rest) == Some(n)
  {
    assert FormatInt(n) + rest == "" + (sign + (digits + rest));
    FormatNatValue(if n < 0 then -n else n);
    ScanDecimalOf("", sign, digits, rest);
  }
}
