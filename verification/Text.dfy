/**
 Byte strings and decimal numbers.

 A byte is modelled as the character with the same code.  Nothing below or in the
 modules that use it looks at a character except to compare it with fixed ASCII
 characters, so every statement about all strings covers all byte strings.
 */
module Text {

  datatype Option<+T> = None | Some(value: T)

  const UINT32_MAX: nat := 0xFFFF_FFFF

  predicate IsDigit(c: char) { '0' <= c <= '9' }

  predicate AllDigits(s: string) { forall i :: 0 <= i < |s| ==> IsDigit(s[i]) }

  /** A decimal number in the only spelling the wire protocol accepts. */
  predicate Canonical(s: string) {
    |s| > 0 && AllDigits(s) && (|s| > 1 ==> s[0] != '0')
  }

  function Digit(d: nat): char
    requires d < 10
  {
    ('0' as int + d) as char
  }

  /** The digits that %d and PRIu32 print. */
  function Decimal(n: nat): string {
    if n < 10 then [Digit(n)] else Decimal(n / 10) + [Digit(n % 10)]
  }

  /** The number that strtoul() reads from a string of digits, without its limit. */
  function Value(s: string): nat
    requires AllDigits(s)
  {
    if |s| == 0 then 0
    else Value(s[..|s| - 1]) * 10 + (s[|s| - 1] as int - '0' as int)
  }

  function Pow10(k: nat): nat {
    if k == 0 then 1 else 10 * Pow10(k - 1)
  }

  lemma {:induction false} DecimalIsCanonical(n: nat)
    ensures Canonical(Decimal(n))
    ensures Value(Decimal(n)) == n
    ensures n > 0 ==> Decimal(n)[0] != '0'
  {
    var s := Decimal(n);
    if n < 10 {
      assert s[..|s| - 1] == [];
    } else {
      DecimalIsCanonical(n / 10);
      assert s[..|s| - 1] == Decimal(n / 10);
      assert forall i :: 0 <= i < |s| - 1 ==> s[i] == Decimal(n / 10)[i];
    }
  }

  lemma {:induction false} CanonicalIsDecimal(s: string)
    requires Canonical(s)
    ensures Decimal(Value(s)) == s
    ensures |s| > 1 ==> Value(s) >= 10
  {
    var front, last := s[..|s| - 1], s[|s| - 1] as int - '0' as int;
    if |s| == 1 {
      assert front == [];
      assert s == [Digit(last)];
    } else {
      assert Canonical(front);
      CanonicalIsDecimal(front);
      if |front| == 1 {
        assert front[..0] == [];
        assert Value(front) == front[0] as int - '0' as int;
      }
      assert Value(s) / 10 == Value(front) && Value(s) % 10 == last;
      assert s == front + [Digit(last)];
    }
  }

  /** A number has at most k digits exactly when it is below the k-th power of ten. */
  lemma {:induction false} DecimalLength(n: nat, k: nat)
    requires k > 0
    ensures |Decimal(n)| <= k <==> n < Pow10(k)
  {
    if n < 10 {
      PowAtLeast10(k);
    } else if k == 1 {
      assert Pow10(1) == 10 * Pow10(0) == 10;
    } else {
      DecimalLength(n / 10, k - 1);
    }
  }

  lemma {:induction false} PowAtLeast10(k: nat)
    requires k > 0
    ensures Pow10(k) >= 10
  {
    if k == 1 {
      assert Pow10(0) == 1;
    } else {
      PowAtLeast10(k - 1);
    }
  }

  /** Ten digits are enough for 32 bits, and more digits never fit. */
  lemma {:induction false} TenDigits(s: string)
    requires Canonical(s)
    ensures |s| > 10 ==> Value(s) > UINT32_MAX
  {
    CanonicalIsDecimal(s);
    DecimalLength(Value(s), 10);
    assert Pow10(10) == 10_000_000_000 by {
      assert Pow10(5) == 100_000;
      assert Pow10(7) == 100 * Pow10(5);
      assert Pow10(10) == 1000 * Pow10(7);
    }
  }

  /** Equal numbers are the only ones that print alike. */
  lemma {:induction false} DecimalInjective(m: nat, n: nat)
    requires Decimal(m) == Decimal(n)
    ensures m == n
  {
    DecimalIsCanonical(m);
    DecimalIsCanonical(n);
  }

  function Concat(chunks: seq<string>): string {
    if |chunks| == 0 then "" else chunks[0] + Concat(chunks[1..])
  }

  lemma {:induction false} ConcatAppend(chunks: seq<string>, last: string)
    ensures Concat(chunks + [last]) == Concat(chunks) + last
  {
    if |chunks| == 0 {
      assert Concat([last]) == last + Concat([]);
    } else {
      ConcatAppend(chunks[1..], last);
      assert (chunks + [last])[1..] == chunks[1..] + [last];
    }
  }
}
