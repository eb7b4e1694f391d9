/** Characters and decimal numbers in text. */
module Characters {
  import opened Wrappers
  import opened Sequences

  const U64_MAX := 0xFFFF_FFFF_FFFF_FFFF

  /** Unicode white space. */
  predicate IsWhitespace(c: char) {
    var x := c as int;
    9 <= x <= 13 || x == 0x20 || x == 0x85 || x == 0xA0 || x == 0x1680 || 0x2000 <= x <= 0x200A
    || x == 0x2028 || x == 0x2029 || x == 0x202F || x == 0x205F || x == 0x3000
  }

  function DecimalDigits(n: nat): (s: string)
    ensures |s| > 0
  {
    if n < 10 then [('0' as int + n) as char] else DecimalDigits(n / 10) + [('0' as int + n % 10) as char]
  }

  lemma {:induction false} DigitsInjective(m: nat, n: nat)
    requires DecimalDigits(m) == DecimalDigits(n)
    ensures m == n
  {
    var s, t := DecimalDigits(m), DecimalDigits(n);
    assert s[|s| - 1] == ('0' as int + m % 10) as char && t[|t| - 1] == ('0' as int + n % 10) as char;
    if m >= 10 && n >= 10 {
      assert s[..|s| - 1] == DecimalDigits(m / 10) && t[..|t| - 1] == DecimalDigits(n / 10);
      DigitsInjective(m / 10, n / 10);
    }
  }

  predicate IsDigit(c: char) { '0' <= c <= '9' }

  /** The number that a nonempty run of digits denotes. */
  function ParseDigits(s: string): Option<nat> {
    if s == "" then None
    else if !IsDigit(Last(s)) then None
    else
      var d := Last(s) as int - '0' as int;
      if |s| == 1 then Some(d)
      else match ParseDigits(Front(s))
        case None => None
        case Some(n) => Some(n * 10 + d)
  }

  /** An optional sign and digits, in range; a minus sign only where negative numbers exist. */
  function ParseInt(s: string, min: int, max: int): Option<int> {
    var negative := s != "" && s[0] == '-' && min < 0;
    var digits := if s != "" && (s[0] == '+' || negative) then s[1..] else s;
    match ParseDigits(digits)
    case None => None
    case Some(n) =>
      var m: int := n;
      var x := if negative then -m else m;
      if min <= x <= max then Some(x) else None
  }

  lemma {:induction false} DigitsReadBack(n: nat)
    ensures ParseDigits(DecimalDigits(n)) == Some(n)
    ensures forall i :: 0 <= i < |DecimalDigits(n)| ==> IsDigit(DecimalDigits(n)[i])
  {
    if n >= 10 {
      DigitsReadBack(n / 10);
      assert Front(DecimalDigits(n)) == DecimalDigits(n / 10);
    }
  }
}
