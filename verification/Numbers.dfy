/** Decimal numbers as Go prints and parses them. */
module Numbers {
  import opened Common

  const MAX_INT := 0x7fff_ffff_ffff_ffff

  function Decimal(n: nat): string {
    (if n < 10 then "" else Decimal(n / 10)) + [('0' as int + n % 10) as char]
  }

  predicate IsDigit(c: char) {
    '0' <= c <= '9'
  }

  /** The longest run of leading digits, most significant first, added to `acc`. */
  function LeadingDigits(s: string, acc: nat): nat {
    if s != "" && IsDigit(s[0]) then LeadingDigits(s[1..], 10 * acc + (s[0] as int - '0' as int)) else acc
  }

  /** `strconv.ParseInt(s, 10, 64)` */
  function ParseInt(s: string): Option<int> {
    var digits := if s != "" && (s[0] == '-' || s[0] == '+') then s[1..] else s;
    if digits == "" || exists i :: 0 <= i < |digits| && !IsDigit(digits[i]) then None
    else
      var n := LeadingDigits(digits, 0);
      var v: int := if s[0] == '-' then 0 - n else n;
      if -MAX_INT - 1 <= v <= MAX_INT then Some(v) else None
  }

  /** Digits without a leading zero, whose value is the number. */
  lemma {:induction false} DecimalDigits(n: nat, rest: string, acc: nat)
    ensures |Decimal(n)| > 0 && forall i :: 0 <= i < |Decimal(n)| ==> IsDigit(Decimal(n)[i])
    ensures n > 0 ==> Decimal(n)[0] != '0'
    ensures acc == 0 ==> LeadingDigits(Decimal(n) + rest, acc) == LeadingDigits(rest, n)
    decreases n
  {
    var last := [('0' as int + n % 10) as char];
    if n < 10 {
      assert Decimal(n) + rest == last + rest && (last + rest)[1..] == rest;
    } else {
      DecimalDigits(n / 10, last + rest, acc);
      assert Decimal(n) + rest == Decimal(n / 10) + (last + rest);
      assert (last + rest)[1..] == rest;
    }
  }
}
