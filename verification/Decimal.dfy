/** Decimal numbers as the Rust standard library prints and parses them. */
module Decimal {
  import opened Wrappers
  import opened Qos

  function Digit(d: nat): char
    requires d < 10
  {
    '0' + d as char
  }

  function PrintNat(n: nat): (s: string)
    ensures s != "" && forall c | c in s :: '0' <= c <= '9'
  {
    if n < 10 then [Digit(n)] else PrintNat(n / 10) + [Digit(n % 10)]
  }

  function ParseNat(s: string): Option<nat> {
    if s == "" || !('0' <= s[|s| - 1] <= '9') then None
    else
      var d := s[|s| - 1] as int - '0' as int;
      if |s| == 1 then Some(d)
      else match ParseNat(s[..|s| - 1])
        case None => None
        case Some(n) => Some(10 * n + d)
  }

  lemma {:induction false} ParsePrintNat(n: nat)
    ensures ParseNat(PrintNat(n)) == Some(n)
  {
    var s := PrintNat(n);
    if n >= 10 {
      ParsePrintNat(n / 10);
      assert s[..|s| - 1] == PrintNat(n / 10);
    }
  }

  function PrintI32(n: I32): string {
    if n < 0 then "-" + PrintNat(-(n as int)) else PrintNat(n)
  }

  predicate InI32(n: int) {
    -0x8000_0000 <= n < 0x8000_0000
  }

  /** `str::parse::<i32>`: an optional sign, digits, and no overflow. */
  function ParseI32(s: string): Option<I32> {
    var negative := s != "" && s[0] == '-';
    var digits := if s != "" && (s[0] == '-' || s[0] == '+') then s[1..] else s;
    match ParseNat(digits)
    case None => None
    case Some(n) =>
      var v: int := if negative then -(n as int) else n;
      if InI32(v) then Some(v) else None
  }

  lemma ParsePrintI32(n: I32)
    ensures ParseI32(PrintI32(n)) == Some(n)
    ensures forall c | c in PrintI32(n) :: c == '-' || '0' <= c <= '9'
    ensures PrintI32(n) != ""
  {
    var s := PrintI32(n);
    if n < 0 {
      ParsePrintNat(-(n as int));
      assert s[1..] == PrintNat(-(n as int));
    } else {
      ParsePrintNat(n);
      assert s[0] in s;
    }
  }
}
