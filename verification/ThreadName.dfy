/** A thread's name carries the address of its record, as eight upper-case hexadecimal
    digits; the library finds the record of the running thread by reading them back.
    Addresses are 32 bits wide. */
module ThreadName {
  import opened Kernel

  const DIGITS: string := "0123456789ABCDEF"

  /** The table `nybble`: the value of a digit, or -1. */
  function Nybble(c: char): int {
    if '0' <= c <= '9' then c as int - '0' as int
    else if 'A' <= c <= 'F' then c as int - 'A' as int + 10
    else -1
  }

  function Pow16(n: nat): nat { if n == 0 then 1 else 16 * Pow16(n - 1) }

  /** The n low hexadecimal digits of p, highest first. */
  function Encoded(p: nat, n: nat): (s: string)
    ensures |s| == n
  {
    if n == 0 then "" else Encoded(p / 16, n - 1) + [DIGITS[p % 16]]
  }

  predicate AllDigits(s: string) { forall i :: 0 <= i < |s| ==> Nybble(s[i]) >= 0 }

  function Decoded(s: string): nat
    requires AllDigits(s)
  {
    if s == "" then 0 else 16 * Decoded(s[..|s| - 1]) + Nybble(s[|s| - 1])
  }

  lemma DigitValue(d: nat)
    requires d < 16
    ensures Nybble(DIGITS[d]) == d
  {
  }

  lemma {:induction false} DecodeEncoded(p: nat, n: nat)
    requires p < Pow16(n)
    ensures AllDigits(Encoded(p, n)) && Decoded(Encoded(p, n)) == p
  {
    if n > 0 {
      DecodeEncoded(p / 16, n - 1);
      DigitValue(p % 16);
      assert Encoded(p, n)[..n - 1] == Encoded(p / 16, n - 1);
    }
  }

  lemma LastDigit(p: nat, q: nat, n: nat)
    requires q == p / 16
    ensures Encoded(p, n + 1) == Encoded(q, n) + [DIGITS[p % 16]]
  {
  }

  lemma Powers()
    ensures Pow16(1) == 0x10 && Pow16(2) == 0x100 && Pow16(3) == 0x1000 && Pow16(4) == 0x1_0000
    ensures Pow16(5) == 0x10_0000 && Pow16(6) == 0x100_0000 && Pow16(7) == 0x1000_0000 && Pow16(8) == RANGE
  {
    assert Pow16(0) == 1;
    assert Pow16(1) == 16 * Pow16(0);
    assert Pow16(2) == 16 * Pow16(1);
    assert Pow16(3) == 16 * Pow16(2);
    assert Pow16(4) == 16 * Pow16(3);
    assert Pow16(5) == 16 * Pow16(4);
    assert Pow16(6) == 16 * Pow16(5);
    assert Pow16(7) == 16 * Pow16(6);
    assert Pow16(8) == 16 * Pow16(7);
  }

  /** pthread_create: the address goes into the first eight characters of the name. */
  method Name(th: nat, name: array<char>)
    requires th < RANGE && name.Length >= 8
    modifies name
    ensures name[..8] == Encoded(th, 8) && name[8..] == old(name[8..])
  {
    name[0] := DIGITS[th / 0x1000_0000 % 16];
    name[1] := DIGITS[th / 0x100_0000 % 16];
    name[2] := DIGITS[th / 0x10_0000 % 16];
    name[3] := DIGITS[th / 0x1_0000 % 16];
    name[4] := DIGITS[th / 0x1000 % 16];
    name[5] := DIGITS[th / 0x100 % 16];
    name[6] := DIGITS[th / 0x10 % 16];
    name[7] := DIGITS[th % 16];
    LastDigit(th / 0x1000_0000, th / 0x1_0000_0000, 0);
    LastDigit(th / 0x100_0000, th / 0x1000_0000, 1);
    LastDigit(th / 0x10_0000, th / 0x100_0000, 2);
    LastDigit(th / 0x1_0000, th / 0x10_0000, 3);
    LastDigit(th / 0x1000, th / 0x1_0000, 4);
    LastDigit(th / 0x100, th / 0x1000, 5);
    LastDigit(th / 0x10, th / 0x100, 6);
    LastDigit(th, th / 0x10, 7);
    assert Encoded(th, 8) == [name[0], name[1], name[2], name[3], name[4], name[5], name[6], name[7]];
  }

  /** pthread_get: reads digits until one is not a digit; then the thread is not the
      library's, and the result is the address with all bits set. */
  method Get(name: string) returns (p: nat, known: bool)
    requires |name| >= 8
    ensures known <==> AllDigits(name[..8])
    ensures known ==> p == Decoded(name[..8])
    ensures !known ==> p == RANGE - 1
  {
    var i, c := 0, 0;
    p := 0;
    while i < 8 && c >= 0
      invariant 0 <= i <= 8
      invariant c >= 0 <==> AllDigits(name[..i])
      invariant c >= 0 ==> p == Decoded(name[..i]) && p < Pow16(i)
      invariant c < 0 ==> p == RANGE - 1
    {
      c := Nybble(name[i]);
      assert name[..i + 1][..i] == name[..i];
      p := if c < 0 then RANGE - 1 else p * 16 + c;
      i := i + 1;
    }
    known := c >= 0;
    if !known {
      assert name[..8][..i] == name[..i];
      assert !AllDigits(name[..i]);
      var j :| 0 <= j < i && Nybble(name[..i][j]) < 0;
      assert Nybble(name[..8][j]) < 0;
    }
  }

  /** Every record's address survives the journey through the name, whatever follows it. */
  lemma AddressRoundTrip(th: nat, rest: string)
    requires th < RANGE
    ensures AllDigits((Encoded(th, 8) + rest)[..8]) && Decoded((Encoded(th, 8) + rest)[..8]) == th
  {
    Powers();
    DecodeEncoded(th, 8);
    assert (Encoded(th, 8) + rest)[..8] == Encoded(th, 8);
  }
}
