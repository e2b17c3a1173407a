/** Decimal text as Python's `str.isdigit`, `int(...)` and `str(...)` treat
    it, restricted to ASCII digits and ASCII whitespace. */
module Decimal {
  import opened Search

  predicate IsDigit(c: char) { '0' <= c <= '9' }

  predicate AllDigits(s: string) { forall i :: 0 <= i < |s| ==> IsDigit(s[i]) }

  /** `s.isdigit()`: non-empty and made of digits only. */
  predicate IsDigits(s: string) { |s| > 0 && AllDigits(s) }

  function DigitValue(c: char): nat
    requires IsDigit(c)
  {
    c as int - '0' as int
  }

  function DigitChar(d: nat): (c: char)
    requires d < 10
    ensures IsDigit(c) && DigitValue(c) == d
  {
    ('0' as int + d) as char
  }

  /** `int(s)` for a string of digits (leading zeros allowed), most
      significant digit first. */
  function DigitsValue(s: string): nat
    requires AllDigits(s)
  {
    if |s| == 0 then 0 else 10 * DigitsValue(s[..|s| - 1]) + DigitValue(s[|s| - 1])
  }

  /** `str(n)` for a non-negative int: digits with no leading zero. */
  function NatToString(n: nat): (s: string)
    ensures IsDigits(s)
    ensures s[0] == '0' ==> n == 0
  {
    (if n < 10 then "" else NatToString(n / 10)) + [DigitChar(n % 10)]
  }

  lemma {:induction false} NatToStringValue(n: nat)
    ensures DigitsValue(NatToString(n)) == n
  {
    var s := NatToString(n);
    var front := if n < 10 then "" else NatToString(n / 10);
    assert s[..|s| - 1] == front;
    if n >= 10 {
      NatToStringValue(n / 10);
    }
  }

  /** `str(i)` for any int. */
  function IntToString(i: int): (s: string)
    ensures |s| > 0
  {
    if i < 0 then "-" + NatToString(-i) else NatToString(i)
  }

  /** The characters Python's `int()` strips around its argument
      (the ASCII ones: tab to carriage return, the four separators, space). */
  predicate IsSpace(c: char) { 9 <= c as int <= 13 || 28 <= c as int <= 32 }

  function TrimStart(s: string): (r: string)
    ensures |r| <= |s|
    decreases |s|
  {
    if |s| > 0 && IsSpace(s[0]) then TrimStart(s[1..]) else s
  }

  function TrimEnd(s: string): (r: string)
    ensures |r| <= |s|
    decreases |s|
  {
    if |s| > 0 && IsSpace(s[|s| - 1]) then TrimEnd(s[..|s| - 1]) else s
  }

  /** A digit, or the underscore `int()` allows between two digits. */
  predicate IsDigitOrSep(c: char) { IsDigit(c) || c == '_' }

  /** Digits, grouped by single underscores between them. */
  predicate IsGroupedDigits(t: string)
  {
    && |t| > 0 && IsDigit(t[0]) && IsDigit(t[|t| - 1])
    && (forall i :: 0 <= i < |t| ==> IsDigitOrSep(t[i]))
    && (forall i :: 0 <= i < |t| - 1 ==> t[i] == '_' ==> t[i + 1] != '_')
  }

  /** The digits of `t`, underscores dropped. */
  function Ungrouped(t: string): (r: string)
    requires forall i :: 0 <= i < |t| ==> IsDigitOrSep(t[i])
    ensures AllDigits(r) && |r| <= |t|
    ensures AllDigits(t) ==> r == t
  {
    if |t| == 0 then ""
    else if t[0] == '_' then Ungrouped(t[1..])
    else
      var rest := Ungrouped(t[1..]);
      assert IsDigitOrSep(t[0]);
      assert [t[0]] + t[1..] == t;
      assert forall i :: 0 <= i < |t| - 1 ==> t[1..][i] == t[i + 1];
      assert forall i :: 0 < i <= |rest| ==> ([t[0]] + rest)[i] == rest[i - 1];
      [t[0]] + rest
  }

  /** A plain digit string is a grouped one with no underscore. */
  lemma PlainDigitsGrouped(d: string)
    requires IsDigits(d)
    ensures IsGroupedDigits(d) && Ungrouped(d) == d
  {
  }

  /** `int(s)` for a string: optional surrounding whitespace, an optional
      sign, then decimal digits, possibly grouped by underscores; anything
      else raises ValueError (None). */
  function ParseInt(s: string): (r: Option<int>)
  {
    var t := TrimEnd(TrimStart(s));
    if |t| > 0 && (t[0] == '-' || t[0] == '+') && IsGroupedDigits(t[1..]) then
      var v := DigitsValue(Ungrouped(t[1..]));
      Some(if t[0] == '-' then -(v as int) else v)
    else if IsGroupedDigits(t) then Some(DigitsValue(Ungrouped(t)))
    else None
  }

  /** `int(str(i)) == i`. */
  lemma {:induction false} ParseIntToString(i: int)
    ensures ParseInt(IntToString(i)) == Some(i)
  {
    var s := IntToString(i);
    if i < 0 {
      var n: nat := -i;
      assert s == "-" + NatToString(n);
      NegativeParsed(n);
      assert ParseInt(s) == ParseInt("-" + NatToString(n));
    } else {
      assert s == NatToString(i);
      NonNegativeParsed(i);
      assert ParseInt(s) == ParseInt(NatToString(i));
    }
  }

  /** `int(str(n)) == n`. */
  lemma NonNegativeParsed(n: nat)
    ensures ParseInt(NatToString(n)) == Some(n)
  {
    NatToStringValue(n);
    PlainDigitsParsed(NatToString(n));
  }

  /** `int("-" + str(n)) == -n`. */
  lemma NegativeParsed(n: nat)
    ensures ParseInt("-" + NatToString(n)) == Some(-(n as int))
  {
    var d := NatToString(n);
    NatToStringValue(n);
    PlainDigitsGrouped(d);
    var s := "-" + d;
    assert s[1..] == d && s[0] == '-';
    assert s[|s| - 1] == d[|d| - 1];
    NoSpaceUntrimmed(s);
  }

  lemma NoSpaceUntrimmed(s: string)
    requires |s| > 0 && !IsSpace(s[0]) && !IsSpace(s[|s| - 1])
    ensures TrimEnd(TrimStart(s)) == s
  {
  }

  lemma {:induction false} UngroupedConcat(a: string, b: string)
    requires forall i :: 0 <= i < |a| ==> IsDigitOrSep(a[i])
    requires forall i :: 0 <= i < |b| ==> IsDigitOrSep(b[i])
    ensures Ungrouped(a + b) == Ungrouped(a) + Ungrouped(b)
    decreases |a|
  {
    if |a| == 0 {
      assert a + b == b;
    } else {
      assert (a + b)[1..] == a[1..] + b;
      UngroupedConcat(a[1..], b);
    }
  }

  lemma GroupsJoined(a: string, b: string)
    requires IsDigits(a) && IsDigits(b)
    ensures IsGroupedDigits(a + "_" + b)
  {
    var h := a + "_";
    var g := h + b;
    assert forall i :: 0 <= i < |a| ==> h[i] == a[i];
    assert forall i :: 0 <= i < |h| ==> g[i] == h[i];
    assert forall i :: |h| <= i < |g| ==> g[i] == b[i - |h|];
  }

  /** `int()` of a plain digit string is its value. */
  lemma PlainDigitsParsed(t: string)
    requires IsDigits(t)
    ensures ParseInt(t) == Some(DigitsValue(t))
  {
    PlainDigitsGrouped(t);
    NoSpaceUntrimmed(t);
    assert !(t[0] == '-' || t[0] == '+');
  }

  /** An underscore between two groups of digits does not change the
      value `int()` reads. */
  lemma GroupingIgnored(a: string, b: string)
    requires IsDigits(a) && IsDigits(b)
    ensures ParseInt(a + "_" + b) == ParseInt(a + b) == Some(DigitsValue(a + b))
  {
    var g, t := a + "_" + b, a + b;
    assert IsDigits(t) by {
      assert forall i :: 0 <= i < |t| ==> t[i] == if i < |a| then a[i] else b[i - |a|];
    }
    PlainDigitsParsed(t);
    GroupsJoined(a, b);
    assert g[0] == a[0] && g[|g| - 1] == b[|b| - 1];
    NoSpaceUntrimmed(g);
    assert !(g[0] == '-' || g[0] == '+');
    PlainDigitsGrouped(a);
    PlainDigitsGrouped(b);
    UngroupedConcat(a + "_", b);
    UngroupedConcat(a, "_");
    assert Ungrouped("_") == "";
    assert a + "" == a;
  }
}
