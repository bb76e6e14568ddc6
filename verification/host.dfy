/** Host.swift: the host role broadcasts to every connected peer and, when no join
    code is given, makes up a four-digit one. */
module Hosts {
  import opened Wrappers
  import opened Peers

  /** `defaultRequestRecipients`: `session.connectedPeerIDs` */
  function Recipients(connected: seq<Peer>): seq<Peer>
  {
    connected
  }

  function DigitChar(d: nat): (c: char)
    requires d < 10
    ensures '0' <= c <= '9' && c as int - '0' as int == d
  {
    ('0' as int + d) as char
  }

  /** Swift's `"\(n)"` for a non-negative integer: decimal, no leading zeros. */
  function Decimal(n: nat): string
    decreases n
  {
    if n < 10 then [DigitChar(n)] else Decimal(n / 10) + [DigitChar(n % 10)]
  }

  predicate AllDigits(s: string)
  {
    forall i :: 0 <= i < |s| ==> '0' <= s[i] <= '9'
  }

  /** Reference reading of a digit string as a number. */
  function DigitsValue(s: string): nat
    requires AllDigits(s)
    decreases |s|
  {
    if |s| == 0 then 0 else DigitsValue(s[..|s| - 1]) * 10 + (s[|s| - 1] as int - '0' as int)
  }

  function Pow10(k: nat): nat
  {
    if k == 0 then 1 else 10 * Pow10(k - 1)
  }

  /** The decimal form is made of digits, reads back as the number, has no leading
      zero, and has k digits exactly when the number is in [10^(k-1), 10^k). */
  lemma {:induction false} DecimalSpec(n: nat, k: nat)
    ensures AllDigits(Decimal(n)) && DigitsValue(Decimal(n)) == n
    ensures |Decimal(n)| > 1 ==> Decimal(n)[0] != '0'
    ensures k >= 1 && Pow10(k - 1) <= n < Pow10(k) ==> |Decimal(n)| == k
    decreases n
  {
    var s := Decimal(n);
    if n >= 10 {
      DecimalSpec(n / 10, if k >= 1 then k - 1 else 0);
      assert s[..|s| - 1] == Decimal(n / 10);
      if k >= 1 && Pow10(k - 1) <= n < Pow10(k) {
        assert Pow10(1) == 10;
        assert k >= 2;
        assert Pow10(k - 2) <= n / 10 < Pow10(k - 1);
      }
    } else if k >= 1 && Pow10(k - 1) <= n < Pow10(k) {
      assert k == 1 by {
        if k >= 2 {
          Pow10AtLeast(k - 1);
        }
      }
    }
  }

  lemma {:induction false} Pow10AtLeast(k: nat)
    requires k >= 1
    ensures Pow10(k) >= 10
  {
    if k > 1 {
      Pow10AtLeast(k - 1);
    }
  }

  /** The join code chosen in `init`: the given one verbatim, or else the decimal
      form of a random integer in [1000, 9999]. */
  function DefaultJoinCode(given: Option<string>, random: int): string
    requires 1000 <= random <= 9999
  {
    match given
    case Some(code) => code
    case None => Decimal(random)
  }

  /** A made-up join code is exactly four ASCII digits with no leading zero, and
      reads back as the random number it came from. */
  lemma DefaultJoinCodeSpec(given: Option<string>, random: int)
    requires 1000 <= random <= 9999
    ensures given.Some? ==> DefaultJoinCode(given, random) == given.value
    ensures given.None? ==> var code := DefaultJoinCode(given, random);
      |code| == 4 && AllDigits(code) && code[0] != '0' && DigitsValue(code) == random
  {
    assert Pow10(3) == 1000 && Pow10(4) == 10000;
    DecimalSpec(random, 4);
  }
}
