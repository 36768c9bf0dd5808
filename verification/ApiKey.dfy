/** The base-62 API keys of scripts/api_key_admin.py. */
module ApiKey {
  /** _B62: upper-case letters, lower-case letters, digits. */
  function Char62(d: nat): char
    requires d < 62
  {
    if d < 26 then 'A' + d as char else if d < 52 then 'a' + (d - 26) as char else '0' + (d - 52) as char
  }

  predicate In62(c: char) { 'A' <= c <= 'Z' || 'a' <= c <= 'z' || '0' <= c <= '9' }

  function Value62(c: char): nat
    requires In62(c)
  {
    if 'A' <= c <= 'Z' then (c - 'A') as nat
    else if 'a' <= c <= 'z' then (c - 'a') as nat + 26 else (c - '0') as nat + 52
  }

  predicate All62(s: string) { forall i | 0 <= i < |s| :: In62(s[i]) }

  /** The digits of n, least significant first; none for 0. */
  function Digits(n: nat): string { if n == 0 then "" else [Char62(n % 62)] + Digits(n / 62) }

  /** What _b62 makes of the integer value of its random bytes. */
  function Encode(n: nat): string { if n == 0 then "0" else Digits(n) }

  method B62(bytesValue: nat) returns (out: string)
    ensures out == Encode(bytesValue)
  {
    var num := bytesValue;
    out := "";
    while num != 0
      invariant Digits(bytesValue) == out + Digits(num)
    {
      assert Digits(num) == [Char62(num % 62)] + Digits(num / 62);
      out := out + [Char62(num % 62)];
      num := num / 62;
    }
    assert out + "" == out;
    if out == "" {
      out := "0";
    }
  }

  /** Little-endian value of a digit string. */
  function Decode(s: string): nat
    requires All62(s)
  {
    if s == "" then 0 else Value62(s[0]) + 62 * Decode(s[1..])
  }

  lemma CharRoundTrip(d: nat, c: char)
    ensures d < 62 ==> In62(Char62(d)) && Value62(Char62(d)) == d
    ensures In62(c) ==> Value62(c) < 62 && Char62(Value62(c)) == c
  {
  }

  /** The digits decode to n, and the last of them is never the zero digit 'A'. */
  lemma {:induction false} DigitsDecode(n: nat)
    ensures All62(Digits(n)) && Decode(Digits(n)) == n
    ensures n > 0 ==> Digits(n) != "" && Digits(n)[|Digits(n)| - 1] != 'A'
  {
    if n > 0 {
      DigitsDecode(n / 62);
      CharRoundTrip(n % 62, 'A');
      assert Digits(n)[1..] == Digits(n / 62);
    }
  }

  /** Every text over the alphabet that does not end in the zero digit is the digits of its value. */
  lemma {:induction false} DecodeDigits(s: string)
    requires All62(s) && (s == "" || s[|s| - 1] != 'A')
    ensures Digits(Decode(s)) == s
  {
    if s != "" {
      DecodeDigits(s[1..]);
      CharRoundTrip(0, s[0]);
      assert Decode(s) % 62 == Value62(s[0]) && Decode(s) / 62 == Decode(s[1..]);
      if s[1..] == "" {
        assert s == [s[0]];
      } else {
        DigitsDecode(Decode(s[1..]));
      }
    }
  }

  lemma ZeroIsDigit()
    ensures Digits(52) == "0"
  {
    assert Digits(52) == "0" + Digits(0);
  }

  /** Two numbers share an encoding only when one of them is 0 and the other 52. */
  lemma EncodeCollidesIff(m: nat, n: nat)
    ensures Encode(m) == Encode(n) <==> m == n || (m == 0 && n == 52) || (m == 52 && n == 0)
  {
    ZeroIsDigit();
    hide Digits, Decode;
    DigitsDecode(m);
    DigitsDecode(n);
    DigitsDecode(52);
  }

  function Pow(b: nat, e: nat): nat { if e == 0 then 1 else b * Pow(b, e - 1) }

  /** k digits are enough exactly for the numbers below 62 to the k. */
  lemma {:induction false} LengthIff(n: nat, k: nat)
    ensures |Digits(n)| <= k <==> n < Pow(62, k)
  {
    if k == 0 || n == 0 {
      PowPositive(k);
    } else {
      LengthIff(n / 62, k - 1);
    }
  }

  lemma {:induction false} PowPositive(k: nat)
    ensures Pow(62, k) > 0
  {
    if k > 0 {
      PowPositive(k - 1);
    }
  }

  lemma {:induction false} PowAdd(b: nat, m: nat, n: nat)
    ensures Pow(b, m + n) == Pow(b, m) * Pow(b, n)
  {
    if m > 0 {
      var p, q := Pow(b, m - 1), Pow(b, n);
      PowAdd(b, m - 1, n);
      assert Pow(b, m + n) == b * Pow(b, m - 1 + n);
      assert b * (p * q) == (b * p) * q;
    }
  }

  lemma SmallPowers()
    ensures Pow(2, 2) == 4 && Pow(62, 3) == 238_328
  {
    assert Pow(62, 2) == 62 * Pow(62, 1);
    assert Pow(62, 3) == 62 * Pow(62, 2);
  }

  lemma BigPowers()
    ensures Pow(2, 256) == 0x1_0000_0000_0000_0000_0000_0000_0000_0000_0000_0000_0000_0000_0000_0000_0000_0000
    ensures Pow(62, 42)
            == 1_907_440_321_293_807_005_218_825_134_272_276_737_461_586_370_979_700_379_485_518_568_438_569_631_744
  {
    SmallPowers();
    hide Pow;
    PowAdd(2, 2, 2);
    PowAdd(2, 4, 4);
    PowAdd(2, 8, 8);
    PowAdd(2, 16, 16);
    PowAdd(2, 32, 32);
    PowAdd(2, 64, 64);
    PowAdd(2, 128, 128);
    PowAdd(62, 3, 3);
    PowAdd(62, 6, 6);
    PowAdd(62, 12, 12);
    PowAdd(62, 24, 12);
    PowAdd(62, 36, 6);
  }

  /** 43 digits are enough for 32 bytes, and 42 are not. */
  lemma FortyThreeDigits()
    ensures Pow(2, 256) < Pow(62, 43) && Pow(62, 42) < Pow(2, 256)
  {
    BigPowers();
    assert Pow(62, 43) == 62 * Pow(62, 42);
  }

  /** ek_live_ and the encoding of 32 random bytes. */
  function Key(n: nat): string { "ek_live_" + Encode(n) }

  /** A key has at most 51 characters, and 43 digits are sometimes needed. */
  lemma KeyLength(n: nat)
    requires n < Pow(2, 256)
    ensures 9 <= |Key(n)| <= 51
    ensures |Key(Pow(2, 256) - 1)| == 51
  {
    hide Pow, Digits;
    BigPowers();
    FortyThreeDigits();
    LengthIff(n, 43);
    LengthIff(Pow(2, 256) - 1, 42);
    LengthIff(Pow(2, 256) - 1, 43);
    DigitsDecode(n);
  }

  /** Keys begin with ek_live_, and two numbers share a key only when they are equal or are 0 and 52. */
  lemma KeysCollideIff(m: nat, n: nat)
    ensures "ek_live_" <= Key(m)
    ensures Key(m) == Key(n) <==> m == n || (m == 0 && n == 52) || (m == 52 && n == 0)
  {
    EncodeCollidesIff(m, n);
    hide Encode;
    assert Key(m)[8..] == Encode(m) && Key(n)[8..] == Encode(n);
  }
}
