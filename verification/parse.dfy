/** Rust's `str::parse::<u32>`, which turns the `device.id`, `client.id` and
    `node.id` properties into parent ids, together with the decimal
    rendering it inverts. */
module ParseU32 {
  import opened Base

  predicate IsDigit(c: char) {
    '0' <= c <= '9'
  }

  predicate AllDigits(s: string) {
    forall i :: 0 <= i < |s| ==> IsDigit(s[i])
  }

  function DigitValue(c: char): (d: nat)
    requires IsDigit(c)
    ensures d < 10
  {
    (c as int) - ('0' as int)
  }

  function DigitChar(d: nat): (c: char)
    requires d < 10
    ensures IsDigit(c) && DigitValue(c) == d
  {
    (('0' as int) + d) as char
  }

  /** Value of a run of decimal digits, most significant first; leading
      zeros are allowed. */
  function DigitsValue(s: string): nat
    requires AllDigits(s)
    decreases |s|
  {
    if |s| == 0 then 0 else DigitsValue(s[..|s| - 1]) * 10 + DigitValue(s[|s| - 1])
  }

  /** Shortest decimal rendering of `n` (what `n.to_string()` prints). */
  function Decimal(n: nat): (s: string)
    ensures |s| > 0 && AllDigits(s)
    decreases n
  {
    if n < 10 then [DigitChar(n)] else Decimal(n / 10) + [DigitChar(n % 10)]
  }

  /** `u32::from_str`: an optional single leading `+`, then at least one
      ASCII digit, with a value that fits in 32 bits. The empty string, a
      lone `+`, a leading `-`, whitespace anywhere and values above
      `u32::MAX` are rejected. */
  function Parse(s: string): (r: Option<u32>)
    ensures r.Some? ==> |s| > 0 && (s[0] == '+' || IsDigit(s[0]))
    ensures r.Some? ==> forall i :: 1 <= i < |s| ==> IsDigit(s[i])
  {
    if |s| == 0 then None
    else
      var digits := if s[0] == '+' then s[1..] else s;
      if |digits| == 0 || !AllDigits(digits) then None
      else
        var v := DigitsValue(digits);
        if v <= U32_MAX then Some(v) else None
  }

  lemma {:induction false} DigitsValueOfDecimal(n: nat)
    ensures DigitsValue(Decimal(n)) == n
    decreases n
  {
    if n >= 10 {
      var s := Decimal(n);
      DigitsValueOfDecimal(n / 10);
      assert s[..|s| - 1] == Decimal(n / 10);
    }
  }

  /** Parsing inverts decimal rendering on the whole `u32` range. */
  lemma ParseDecimal(n: nat)
    requires n <= U32_MAX
    ensures Parse(Decimal(n)) == Some(n)
    ensures Parse("+" + Decimal(n)) == Some(n)
  {
    DigitsValueOfDecimal(n);
    assert ("+" + Decimal(n))[1..] == Decimal(n);
  }

  /** A value that does not fit in 32 bits is rejected rather than wrapped. */
  lemma ParseRejectsOverflow(n: nat)
    requires n > U32_MAX
    ensures Parse(Decimal(n)) == None
  {
    DigitsValueOfDecimal(n);
  }

  /** Leading zeros do not change the parsed value. */
  lemma ParseLeadingZero(s: string)
    requires |s| > 0 && AllDigits(s)
    ensures Parse("0" + s) == Parse(s)
  {
    DigitsValueLeadingZero(s);
  }

  lemma {:induction false} DigitsValueLeadingZero(s: string)
    requires AllDigits(s)
    ensures AllDigits("0" + s) && DigitsValue("0" + s) == DigitsValue(s)
    decreases |s|
  {
    if |s| > 0 {
      var t := "0" + s;
      assert t[..|t| - 1] == "0" + s[..|s| - 1];
      DigitsValueLeadingZero(s[..|s| - 1]);
    }
  }

  /** The inputs Rust's parser refuses: nothing, a bare sign, a minus sign
      (the type is unsigned), surrounding whitespace. */
  lemma ParseRejects(s: string)
    ensures Parse("") == None
    ensures Parse("+") == None
    ensures Parse("-" + s) == None
    ensures Parse(" " + s) == None
    ensures Parse(s + " ") == None
  {
    assert ("-" + s)[0] == '-';
    assert (" " + s)[0] == ' ';
    assert (s + " ")[|s|] == ' ';
  }
}
