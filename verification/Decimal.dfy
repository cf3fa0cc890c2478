/** The decimal strings kept in annotations: strconv.FormatInt, ParseInt and ParseUint in base 10. */
module Decimal {
  import opened Basics

  predicate IsDigit(c: char) { '0' <= c <= '9' }

  predicate AllDigits(s: string) {
    s != [] && forall i | 0 <= i < |s| :: IsDigit(s[i])
  }

  function DigitValue(c: char): (d: nat)
    requires IsDigit(c)
    ensures d < 10
  {
    c as int - '0' as int
  }

  function DigitChar(d: nat): (c: char)
    requires d < 10
    ensures IsDigit(c) && DigitValue(c) == d
  {
    (d + '0' as int) as char
  }

  function FormatNat(n: nat): (s: string)
    ensures AllDigits(s)
  {
    if n < 10 then [DigitChar(n)] else FormatNat(n / 10) + [DigitChar(n % 10)]
  }

  function Format(n: int): string {
    if n < 0 then "-" + FormatNat(-n) else FormatNat(n)
  }

  function Digits(s: string): nat
    requires AllDigits(s)
  {
    var last := DigitValue(s[|s| - 1]);
    if |s| == 1 then last else 10 * Digits(s[..|s| - 1]) + last
  }

  /** strconv.ParseUint: no sign, at least one digit, and a value below `limit`. */
  function ParseUint(s: string, limit: nat): Option<nat> {
    if AllDigits(s) && Digits(s) < limit then Some(Digits(s)) else None
  }

  /** strconv.ParseInt: an optional sign, at least one digit, and a value in [-limit, limit). */
  function ParseInt(s: string, limit: int): (r: Option<int>)
    requires 0 < limit
    ensures r.Some? ==> -limit <= r.value < limit
  {
    if s == "" then None
    else if s[0] == '-' then
      if AllDigits(s[1..]) && Digits(s[1..]) <= limit then Some(0 - Digits(s[1..])) else None
    else
      var body := if s[0] == '+' then s[1..] else s;
      if AllDigits(body) && Digits(body) < limit then Some(Digits(body)) else None
  }

  /** What parses, and as what: digits with an optional sign, leading zeros included, within the limits. */
  lemma ParseSigned(body: string, limit: int)
    requires 0 < limit && AllDigits(body)
    ensures ParseInt(body, limit) == if Digits(body) < limit then Some(Digits(body)) else None
    ensures ParseInt("+" + body, limit) == ParseInt(body, limit)
    ensures ParseInt("-" + body, limit) == if Digits(body) <= limit then Some(0 - Digits(body)) else None
  {
    assert ("+" + body)[1..] == body && ("-" + body)[1..] == body && IsDigit(body[0]);
  }

  lemma OnlySignedParses(s: string, limit: int)
    requires 0 < limit && ParseInt(s, limit).Some?
    ensures AllDigits(s) || (s != "" && (s[0] == '+' || s[0] == '-') && AllDigits(s[1..]))
  {
  }

  lemma {:induction false} LeadingZero(s: string)
    requires AllDigits(s)
    ensures AllDigits("0" + s) && Digits("0" + s) == Digits(s)
  {
    var t := "0" + s;
    assert forall i | 0 <= i < |t| :: IsDigit(t[i]);
    assert t[|t| - 1] == s[|s| - 1];
    if |s| > 1 {
      LeadingZero(s[..|s| - 1]);
      assert t[..|t| - 1] == "0" + s[..|s| - 1];
    } else {
      assert t[..1] == "0" && Digits("0") == 0;
    }
  }

  lemma {:induction false} DigitsOfFormat(n: nat)
    ensures Digits(FormatNat(n)) == n
  {
    if n >= 10 {
      DigitsOfFormat(n / 10);
      var s := FormatNat(n);
      assert s[..|s| - 1] == FormatNat(n / 10);
    }
  }

  /** What the controllers write into an annotation they read back unchanged. */
  lemma ParseFormat(n: int, limit: int)
    requires 0 < limit && -limit <= n < limit
    ensures ParseInt(Format(n), limit) == Some(n)
  {
    var size := if n < 0 then -n else n;
    DigitsOfFormat(size);
    ParseSigned(FormatNat(size), limit);
    hide ParseInt, Digits, FormatNat;
  }

  /** Distinct numbers have distinct decimal strings, so string comparison of annotations compares numbers. */
  lemma FormatInjective(a: int, b: int)
    ensures Format(a) == Format(b) <==> a == b
  {
    var limit := Max(Max(a, -a), Max(b, -b)) + 1;
    ParseFormat(a, limit);
    ParseFormat(b, limit);
  }
}
