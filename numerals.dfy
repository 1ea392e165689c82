/** Decimal integer text: what Python's int() accepts when the loader
    converts a temperature field, and what str() prints for an int. */
module Numerals {
  import opened Wrappers

  predicate IsDigit(c: char) {
    '0' <= c <= '9'
  }

  /** The ASCII characters that int() strips from both ends of its argument:
      space, tab, line feed, vertical tab, form feed and carriage return. The
      separators 0x1C-0x1F, although str.isspace() holds of them, are not
      stripped, and int() rejects a field holding one. */
  predicate IsSpace(c: char) {
    c == ' ' || '\t' <= c <= '\r'
  }

  predicate AllDigits(s: string) {
    forall k :: 0 <= k < |s| ==> IsDigit(s[k])
  }

  /** Drops the leading run of white space. */
  function TrimStart(s: string): string {
    if s != [] && IsSpace(s[0]) then TrimStart(s[1..]) else s
  }

  /** Drops the trailing run of white space. */
  function TrimEnd(s: string): string {
    if s != [] && IsSpace(s[|s| - 1]) then TrimEnd(s[..|s| - 1]) else s
  }

  /** TrimStart removes exactly the leading white space: what is left is a
      suffix that is empty or starts with a non-space, and all that was cut
      is white space. */
  lemma {:induction false} TrimStartSpec(s: string)
    ensures var r := TrimStart(s);
      && |r| <= |s| && r == s[|s| - |r|..]
      && (forall k :: 0 <= k < |s| - |r| ==> IsSpace(s[k]))
      && (r != [] ==> !IsSpace(r[0]))
  {
    if s != [] && IsSpace(s[0]) {
      TrimStartSpec(s[1..]);
      var r := TrimStart(s[1..]);
      assert TrimStart(s) == r;
      assert s[1..][|s| - 1 - |r|..] == s[|s| - |r|..];
    }
  }

  /** TrimEnd removes exactly the trailing white space. */
  lemma {:induction false} TrimEndSpec(s: string)
    ensures var r := TrimEnd(s);
      && |r| <= |s| && r == s[..|r|]
      && (forall k :: |r| <= k < |s| ==> IsSpace(s[k]))
      && (r != [] ==> !IsSpace(r[|r| - 1]))
  {
    if s != [] && IsSpace(s[|s| - 1]) {
      TrimEndSpec(s[..|s| - 1]);
      var r := TrimEnd(s[..|s| - 1]);
      assert TrimEnd(s) == r;
      assert s[..|s| - 1][..|r|] == s[..|r|];
    }
  }

  function DigitValue(c: char): nat
    requires IsDigit(c)
  {
    c as int - '0' as int
  }

  function DigitChar(d: nat): char
    requires d < 10
  {
    ('0' as int + d) as char
  }

  /** The number a string of decimal digits denotes, most significant first. */
  function DigitsValue(s: string): nat
    requires AllDigits(s)
  {
    if s == [] then 0 else DigitsValue(s[..|s| - 1]) * 10 + DigitValue(s[|s| - 1])
  }

  function ParseDigits(s: string): Option<nat> {
    if s != [] && AllDigits(s) then Some(DigitsValue(s)) else None
  }

  /** int(s) on a string: an optional sign and at least one decimal digit,
      with surrounding white space ignored; None where int() raises
      ValueError. */
  function ParseInt(s: string): Option<int> {
    var t := TrimEnd(TrimStart(s));
    if t != [] && (t[0] == '-' || t[0] == '+') then
      match ParseDigits(t[1..])
      case None => None
      case Some(n) =>
        var v: int := if t[0] == '-' then -(n as int) else n;
        Some(v)
    else
      match ParseDigits(t)
      case None => None
      case Some(n) => Some(n)
  }

  /** str(n) for a non-negative int: its decimal digits, no leading zero. */
  function NatToString(n: nat): (r: string)
    ensures r != [] && AllDigits(r)
    ensures |r| > 1 ==> r[0] != '0'
  {
    if n < 10 then [DigitChar(n)] else NatToString(n / 10) + [DigitChar(n % 10)]
  }

  /** str(n) for any int: a minus sign exactly when n is negative, then
      the digits of |n|. */
  function IntToString(n: int): (r: string)
    ensures r != []
    ensures r[0] == '-' <==> n < 0
    ensures n >= 0 ==> AllDigits(r)
    ensures n < 0 ==> |r| > 1 && AllDigits(r[1..])
  {
    if n < 0 then "-" + NatToString(-n) else NatToString(n)
  }

  lemma {:induction false} NatToStringValue(n: nat)
    ensures DigitsValue(NatToString(n)) == n
  {
    if n >= 10 {
      var s := NatToString(n);
      assert s[..|s| - 1] == NatToString(n / 10);
      NatToStringValue(n / 10);
    }
  }

  /** int() reads back what str() prints: the loader recovers every
      temperature written in decimal. */
  lemma ParseIntRoundTrip(n: int)
    ensures ParseInt(IntToString(n)) == Some(n)
  {
    var s := IntToString(n);
    var m: nat := if n < 0 then -n else n;
    NatToStringValue(m);
    assert !IsSpace(s[0]) && !IsSpace(s[|s| - 1]);
    assert TrimStart(s) == s;
    assert TrimEnd(s) == s;
    if n < 0 {
      assert s[1..] == NatToString(m);
    }
  }

  /** Every character of s is white space. */
  predicate AllSpace(s: string) {
    forall k :: 0 <= k < |s| ==> IsSpace(s[k])
  }

  /** t is the text of v as int() reads it once the white space is gone: at
      least one decimal digit, after a plus or minus sign or none. */
  predicate IntegerText(t: string, v: int) {
    || (t != [] && AllDigits(t) && v == DigitsValue(t))
    || (|t| > 1 && t[0] == '+' && AllDigits(t[1..]) && v == DigitsValue(t[1..]))
    || (|t| > 1 && t[0] == '-' && AllDigits(t[1..]) && v == -(DigitsValue(t[1..]) as int))
  }

  /** Leading white space in front of a text that does not start with white
      space is all TrimStart removes. */
  lemma {:induction false} TrimStartSpaces(a: string, rest: string)
    requires AllSpace(a) && (rest == [] || !IsSpace(rest[0]))
    ensures TrimStart(a + rest) == rest
  {
    if a == [] {
      assert a + rest == rest;
    } else {
      assert (a + rest)[0] == a[0];
      assert (a + rest)[1..] == a[1..] + rest;
      assert AllSpace(a[1..]) by {
        assert forall k :: 0 <= k < |a| - 1 ==> a[1..][k] == a[k + 1];
      }
      TrimStartSpaces(a[1..], rest);
    }
  }

  /** Trailing white space after a text that does not end in white space is
      all TrimEnd removes. */
  lemma {:induction false} TrimEndSpaces(rest: string, b: string)
    requires AllSpace(b) && (rest == [] || !IsSpace(rest[|rest| - 1]))
    ensures TrimEnd(rest + b) == rest
    decreases |b|
  {
    if b == [] {
      assert rest + b == rest;
    } else {
      var c := rest + b;
      assert c[|c| - 1] == b[|b| - 1];
      assert c[..|c| - 1] == rest + b[..|b| - 1];
      assert AllSpace(b[..|b| - 1]) by {
        assert forall k :: 0 <= k < |b| - 1 ==> b[..|b| - 1][k] == b[k];
      }
      TrimEndSpaces(rest, b[..|b| - 1]);
    }
  }

  /** int() accepts every integer text with white space around it, and reads
      the integer it denotes. */
  lemma ParseIntComplete(a: string, t: string, b: string, v: int)
    requires AllSpace(a) && AllSpace(b) && IntegerText(t, v)
    ensures ParseInt(a + t + b) == Some(v)
  {
    assert t[|t| - 1] == '0' || IsDigit(t[|t| - 1]) by {
      if t[0] == '+' || t[0] == '-' {
        assert t[|t| - 1] == t[1..][|t| - 2];
      }
    }
    assert a + t + b == a + (t + b);
    assert (t + b)[0] == t[0];
    TrimStartSpaces(a, t + b);
    TrimEndSpaces(t, b);
    assert TrimEnd(TrimStart(a + t + b)) == t;
  }

  /** What int() accepts is an integer text with white space around it, and
      the value it returns is the integer that text denotes. */
  lemma ParseIntSound(s: string)
    ensures ParseInt(s).Some? ==>
      exists i, j :: 0 <= i <= j <= |s| && AllSpace(s[..i]) && AllSpace(s[j..])
        && IntegerText(s[i..j], ParseInt(s).value)
  {
    TrimStartSpec(s);
    var r1 := TrimStart(s);
    TrimEndSpec(r1);
    var r2 := TrimEnd(r1);
    var i, j := |s| - |r1|, |s| - |r1| + |r2|;
    assert s[i..j] == r2;
    assert AllSpace(s[..i]) by {
      assert forall k :: 0 <= k < i ==> s[..i][k] == s[k];
    }
    assert AllSpace(s[j..]) by {
      assert forall k :: 0 <= k < |s| - j ==> s[j..][k] == r1[|r2| + k];
    }
    if ParseInt(s).Some? {
      assert IntegerText(r2, ParseInt(s).value);
    }
  }

  /** int() on some fields: white space around a number is ignored and a
      sign is read. */
  lemma ParseIntAccepts()
    ensures ParseInt(" 41\n") == Some(41)
    ensures ParseInt("+052") == Some(52)
  {
    assert "41"[..1] == "4" && IntegerText("41", 41);
    ParseIntComplete(" ", "41", "\n", 41);
    assert " " + "41" + "\n" == " 41\n";
    assert "+052"[1..] == "052" && "052"[..2] == "05" && "05"[..1] == "0";
    ParseIntComplete("", "+052", "", 52);
    assert "" + "+052" + "" == "+052";
  }

  /** int() rejects a field holding the separator 0x1C, inner white space, a
      bare sign and the empty field. */
  lemma ParseIntRejects()
    ensures ParseInt("\U{1C}41") == None
    ensures ParseInt("4 1") == None
    ensures ParseInt("-") == None && ParseInt("") == None
  {
    var sep := "\U{1C}41";
    assert TrimStart(sep) == sep && TrimEnd(sep) == sep && !IsDigit(sep[0]);
    var inner := "4 1";
    assert TrimStart(inner) == inner && TrimEnd(inner) == inner && !IsDigit(inner[1]);
  }
}
