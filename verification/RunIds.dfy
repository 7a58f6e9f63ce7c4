/** Run identifiers: `run-` followed by the decimal position, padded with zeros to three digits. */
module RunIds {

  function Digit(d: nat): char
    requires d < 10
  {
    '0' + d as char
  }

  function Digits(n: nat): (s: string)
    ensures s != ""
  {
    if n < 10 then [Digit(n)] else Digits(n / 10) + [Digit(n % 10)]
  }

  function Padded(s: string): string
    decreases 3 - |s|
  {
    if |s| < 3 then Padded("0" + s) else s
  }

  /** `f"run-{n:03d}"`. */
  function RunId(n: nat): string {
    "run-" + Padded(Digits(n))
  }

  /** The number a decimal text denotes. */
  function Decoded(s: string): int {
    if s == "" then 0 else 10 * Decoded(s[..|s| - 1]) + (s[|s| - 1] as int - '0' as int)
  }

  lemma {:induction false} DecodedDigits(n: nat)
    ensures Decoded(Digits(n)) == n
  {
    if n >= 10 {
      DecodedDigits(n / 10);
      assert Digits(n)[..|Digits(n)| - 1] == Digits(n / 10);
    } else {
      assert Digits(n)[..0] == "";
    }
  }

  lemma {:induction false} DecodedLeadingZero(s: string)
    ensures Decoded("0" + s) == Decoded(s)
  {
    var t := "0" + s;
    if s == "" {
      assert t[..0] == "";
    } else {
      assert t[..|t| - 1] == "0" + s[..|s| - 1];
      DecodedLeadingZero(s[..|s| - 1]);
    }
  }

  lemma {:induction false} DecodedPadded(s: string)
    ensures Decoded(Padded(s)) == Decoded(s)
    decreases 3 - |s|
  {
    if |s| < 3 {
      DecodedLeadingZero(s);
      DecodedPadded("0" + s);
    }
  }

  /** The identifier of a position is `run-` and its decimal number, with at least three digits. */
  lemma RunIdIsRead(n: nat)
    ensures |RunId(n)| >= 7 && RunId(n)[..4] == "run-" && Decoded(RunId(n)[4..]) == n
  {
    assert RunId(n)[4..] == Padded(Digits(n));
    DecodedDigits(n);
    DecodedPadded(Digits(n));
    PaddedIsLong(Digits(n));
  }

  lemma {:induction false} PaddedIsLong(s: string)
    ensures |Padded(s)| >= 3
    decreases 3 - |s|
  {
    if |s| < 3 { PaddedIsLong("0" + s); }
  }

  /** Different positions have different identifiers, however many there are. */
  lemma RunIdInjective(a: nat, b: nat)
    requires RunId(a) == RunId(b)
    ensures a == b
  {
    assert RunId(a)[4..] == Padded(Digits(a)) && RunId(b)[4..] == Padded(Digits(b));
    DecodedDigits(a);
    DecodedDigits(b);
    DecodedPadded(Digits(a));
    DecodedPadded(Digits(b));
  }
}
