/** Numbers in a configuration: std::to_string as it writes them, and atoi as it reads them. */
module Numbers {
  import opened Common
  import opened IniText
  import opened IniReader

  function DigitChar(d: int): (c: char)
    requires 0 <= d < 10
    ensures Digit(c) && c as int - '0' as int == d
  {
    ('0' as int + d) as char
  }

  /** std::to_string of a number that is not negative. */
  function Decimal(n: nat): (s: string)
    ensures s != "" && forall i :: 0 <= i < |s| ==> Digit(s[i])
  {
    if n < 10 then [DigitChar(n)] else Decimal(n / 10) + [DigitChar(n % 10)]
  }

  /** The first decimal digit. */
  function Lead(n: nat): (d: nat)
    ensures d < 10 && d <= n && (n > 0 ==> d > 0)
  {
    if n < 10 then n else Lead(n / 10)
  }

  lemma {:induction false} DecimalLeads(n: nat)
    ensures Decimal(n)[0] == DigitChar(Lead(n))
  {
    if n >= 10 { DecimalLeads(n / 10); }
  }

  lemma {:induction false} DigitsValueSnoc(m: int, s: string, c: char)
    requires Digit(c) && forall i :: 0 <= i < |s| ==> Digit(s[i])
    ensures DigitsValue(m, s + [c]) == 10 * DigitsValue(m, s) + (c as int - '0' as int)
    decreases |s|
  {
    if s == "" {
      assert "" + [c] == [c] && [c][1..] == "";
    } else {
      assert (s + [c])[1..] == s[1..] + [c];
      DigitsValueSnoc(10 * m + (s[0] as int - '0' as int), s[1..], c);
    }
  }

  lemma {:induction false} DecimalValue(n: nat)
    ensures DigitsValue(0, Decimal(n)) == n
  {
    if n < 10 {
      assert [DigitChar(n)][1..] == "";
    } else {
      DecimalValue(n / 10);
      DigitsValueSnoc(0, Decimal(n / 10), DigitChar(n % 10));
    }
  }

  /** Text after a number that is not part of it. */
  predicate NoDigitFirst(tail: string) { tail != "" ==> !('0' <= tail[0] <= '9') }

  lemma {:induction false} DigitsThen(m: int, ds: string, tail: string)
    requires NoDigitFirst(tail) && forall i :: 0 <= i < |ds| ==> Digit(ds[i])
    ensures DigitsValue(m, ds + tail) == DigitsValue(m, ds)
    decreases |ds|
  {
    if ds == "" {
      assert ds + tail == tail;
    } else {
      assert (ds + tail)[1..] == ds[1..] + tail;
      DigitsThen(10 * m + (ds[0] as int - '0' as int), ds[1..], tail);
    }
  }

  function ZeroDigits(k: nat): string {
    seq(k, _ => '0')
  }

  lemma {:induction false} ZerosAhead(k: nat, ds: string)
    ensures DigitsValue(0, ZeroDigits(k) + ds) == DigitsValue(0, ds)
  {
    if k == 0 {
      assert ZeroDigits(k) + ds == ds;
    } else {
      ZerosAhead(k - 1, ds);
      assert (ZeroDigits(k) + ds)[1..] == ZeroDigits(k - 1) + ds;
    }
  }

  lemma {:induction false} SpaceAhead(ws: string, rest: string)
    requires forall i :: 0 <= i < |ws| ==> ws[i] == ' ' || 9 <= ws[i] as int <= 13
    ensures Atoi(ws + rest) == Atoi(rest)
    decreases |ws|
  {
    if ws == "" {
      assert ws + rest == rest;
    } else {
      assert (ws + rest)[1..] == ws[1..] + rest;
      SpaceAhead(ws[1..], rest);
    }
  }

  /** White space, a sign or none, zeros, the digits of `n`, and whatever does not go on with a digit: the number. */
  lemma AtoiIs(ws: string, sign: string, zeros: nat, n: int, tail: string)
    requires n >= 0 && (forall i :: 0 <= i < |ws| ==> ws[i] == ' ' || 9 <= ws[i] as int <= 13) && NoDigitFirst(tail)
    ensures sign == "-" ==> Atoi(ws + (sign + (ZeroDigits(zeros) + Decimal(n) + tail))) == -n
    ensures sign == "" || sign == "+" ==> Atoi(ws + (sign + (ZeroDigits(zeros) + Decimal(n) + tail))) == n
  {
    hide Decimal, Atoi, DigitsValue;
    var ds := ZeroDigits(zeros) + Decimal(n);
    SpaceAhead(ws, sign + (ds + tail));
    DigitsThen(0, ds, tail);
    ZerosAhead(zeros, Decimal(n));
    DecimalValue(n);
    if sign == "" || sign == "+" || sign == "-" { AfterSign(sign, ds + tail); }
  }

  lemma AfterSign(sign: string, ds: string)
    requires ds != "" && Digit(ds[0])
    ensures sign == "-" ==> Atoi(sign + ds) == -DigitsValue(0, ds)
    ensures sign == "" || sign == "+" ==> Atoi(sign + ds) == DigitsValue(0, ds)
  {
    hide DigitsValue;
    if sign == "" { assert sign + ds == ds; } else if |sign| == 1 { assert (sign + ds)[1..] == ds; }
  }

  /** ... and without a digit after white space and sign, 0. */
  lemma AtoiNone(ws: string, sign: string, tail: string)
    requires (forall i :: 0 <= i < |ws| ==> ws[i] == ' ' || 9 <= ws[i] as int <= 13) && NoDigitFirst(tail)
    requires sign == "+" || sign == "-" || (sign == "" && (tail == "" || tail[0] !in " +-"))
    requires sign == "" && tail != "" ==> !(9 <= tail[0] as int <= 13)
    ensures Atoi(ws + (sign + tail)) == 0
  {
    SpaceAhead(ws, sign + tail);
    if sign == "" { assert sign + tail == tail; } else { assert (sign + tail)[1..] == tail; }
  }

  lemma AtoiDecimal(n: nat, tail: string)
    requires NoDigitFirst(tail)
    ensures Atoi(Decimal(n) + tail) == n
  {
    AtoiIs("", "", 0, n, tail);
    assert "" + ("" + (ZeroDigits(0) + Decimal(n) + tail)) == Decimal(n) + tail;
  }

  lemma {:induction false} DecimalLength(n: nat, digits: nat)
    requires digits > 0 && n < Pow10(digits)
    ensures |Decimal(n)| <= digits
  {
    if n >= 10 { DecimalLength(n / 10, digits - 1); }
  }

  function Pow10(k: nat): nat {
    if k == 0 then 1 else 10 * Pow10(k - 1)
  }

  const INT_LIMIT := 0x8000_0000

  lemma IntFits(n: nat)
    requires n < INT_LIMIT
    ensures |Decimal(n)| <= 31
  {
    assert Pow10(10) == 10_000_000_000;
    DecimalLength(n, 10);
  }
}
