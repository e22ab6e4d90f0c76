/** Numbers: safe integers, and digits as `Number`, `padStart` and `padEnd` treat them. */
module Decimals {

  const MAX_SAFE_INTEGER := 9_007_199_254_740_991

  predicate IsSafeInteger(x: int) {
    -MAX_SAFE_INTEGER <= x <= MAX_SAFE_INTEGER
  }

  lemma AtLeastOnce(d: int, k: int)
    requires 1 <= d && 1 <= k
    ensures k <= d * k
  {}

  lemma NotLess(k: int, q: int, r: int, p: int, s: int)
    requires 0 <= r < k && 0 <= s < k && q * k + r == p * k + s
    ensures p <= q
  {
    if q < p {
      AtLeastOnce(p - q, k);
    }
  }

  lemma Divides(n: int, k: int, q: int, r: int)
    requires 0 <= r < k && n == q * k + r
    ensures n / k == q && n % k == r
  {
    assert n == n / k * k + n % k;
    NotLess(k, q, r, n / k, n % k);
    NotLess(k, n / k, n % k, q, r);
  }

  predicate IsDigit(c: char) {
    '0' <= c <= '9'
  }

  predicate AllDigits(s: string) {
    forall k :: 0 <= k < |s| ==> IsDigit(s[k])
  }

  /** `Number` of a digit string. */
  function Number(s: string): (n: nat)
    requires AllDigits(s)
  {
    if s == "" then 0 else 10 * Number(s[..|s| - 1]) + (s[|s| - 1] as int - '0' as int)
  }

  /** The last `width` digits of `n`, with leading zeros. */
  function Pad(n: nat, width: nat): (s: string)
    ensures |s| == width && AllDigits(s)
  {
    if width == 0 then "" else Pad(n / 10, width - 1) + [(n % 10 + '0' as int) as char]
  }

  /** `String` of a natural number. */
  function Shown(n: nat): string {
    if n < 10 then Pad(n, 1) else Shown(n / 10) + Pad(n % 10, 1)
  }

  lemma OneDigit(n: nat)
    requires n < 10
    ensures |Pad(n, 1)| == 1 && IsDigit(Pad(n, 1)[0]) && Pad(n, 1)[0] as int - '0' as int == n
    ensures n > 0 ==> Pad(n, 1)[0] != '0'
  {
    assert n % 10 == n;
    assert Pad(n, 1) == Pad(n / 10, 0) + [(n % 10 + '0' as int) as char];
  }

  lemma NumberNext(s: string, digit: string)
    requires AllDigits(s) && |digit| == 1 && IsDigit(digit[0])
    ensures AllDigits(s + digit) && Number(s + digit) == 10 * Number(s) + (digit[0] as int - '0' as int)
  {
    assert (s + digit)[..|s|] == s && (s + digit)[|s|] == digit[0];
  }

  /** It is the decimal number, without zeros in front. */
  lemma {:induction false} ShownIsDecimal(n: nat)
    ensures AllDigits(Shown(n)) && Shown(n) != "" && Number(Shown(n)) == n && (n > 0 ==> Shown(n)[0] != '0')
  {
    hide Pad, Number, AllDigits, IsDigit;
    OneDigit(n % 10);
    if n < 10 {
      NothingIsZero();
      NumberNext("", Pad(n, 1));
      assert "" + Pad(n, 1) == Pad(n, 1);
    } else {
      ShownIsDecimal(n / 10);
      NumberNext(Shown(n / 10), Pad(n % 10, 1));
    }
  }

  lemma NothingIsZero()
    ensures AllDigits("") && Number("") == 0
  {}

  function PowerOfTen(k: nat): nat {
    if k == 0 then 1 else 10 * PowerOfTen(k - 1)
  }

  lemma {:induction false} PadNumber(s: string)
    requires AllDigits(s)
    ensures Pad(Number(s), |s|) == s && Number(s) < PowerOfTen(|s|)
  {
    if s != "" {
      PadNumber(s[..|s| - 1]);
      Divides(Number(s), 10, Number(s[..|s| - 1]), s[|s| - 1] as int - '0' as int);
      assert s == s[..|s| - 1] + [s[|s| - 1]];
    }
  }

  lemma {:induction false} NumberPad(n: nat, width: nat)
    requires n < PowerOfTen(width)
    ensures Number(Pad(n, width)) == n
  {
    if width > 0 {
      NumberPad(n / 10, width - 1);
      assert Pad(n, width)[..width - 1] == Pad(n / 10, width - 1);
    }
  }

  /** `padEnd(length, "0")` */
  function PadEnd(s: string, length: nat): (r: string)
    ensures |r| == if |s| >= length then |s| else length
    ensures r[..|s|] == s && forall k :: |s| <= k < |r| ==> r[k] == '0'
    decreases length - |s|
  {
    if |s| >= length then s else PadEnd(s + "0", length)
  }

  lemma {:induction false} LeadingDigit(s: string)
    requires AllDigits(s) && s != "" && s[0] != '0'
    ensures PowerOfTen(|s| - 1) <= Number(s)
  {
    if |s| > 1 {
      LeadingDigit(s[..|s| - 1]);
    }
  }

  lemma {:induction false} LeadingZero(s: string)
    requires AllDigits(s) && s != "" && s[0] == '0'
    ensures Number(s[1..]) == Number(s)
  {
    if |s| > 1 {
      LeadingZero(s[..|s| - 1]);
      assert s[1..][..|s| - 2] == s[..|s| - 1][1..];
    }
  }

  lemma {:induction false} MoreDigits(m: nat, n: nat)
    requires m <= n
    ensures PowerOfTen(m) <= PowerOfTen(n)
  {
    if m < n {
      MoreDigits(m, n - 1);
    }
  }
}
