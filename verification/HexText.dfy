/** Hex text of colours: what brand.js prints and parses. */
module HexText {
  import opened Colour

  predicate IsHex(c: char) { '0' <= c <= '9' || 'a' <= c <= 'f' || 'A' <= c <= 'F' }

  predicate AllHex(s: string) { forall i | 0 <= i < |s| :: IsHex(s[i]) }

  function HexValue(c: char): nat
    requires IsHex(c)
  {
    if c <= '9' then (c - '0') as nat else if c <= 'F' then (c - 'A') as nat + 10 else (c - 'a') as nat + 10
  }

  function LowerDigit(d: nat): char
    requires d < 16
  {
    if d < 10 then '0' + d as char else 'a' + (d - 10) as char
  }

  /** n.toString(16) */
  function ToString16(n: nat): string {
    (if n < 16 then "" else ToString16(n / 16)) + [LowerDigit(n % 16)]
  }

  function UpperChar(c: char): char { if 'a' <= c <= 'z' then 'A' + (c - 'a') else c }

  function Upper(s: string): string { seq(|s|, i requires 0 <= i < |s| => UpperChar(s[i])) }

  /** ('0' + n.toString(16)).slice(-2), in upper case. */
  function HexPair(n: nat): string {
    var s := "0" + ToString16(n);
    Upper(if |s| < 2 then s else s[|s| - 2..])
  }

  function Print(c: Rgb): string { "#" + HexPair(c.r) + HexPair(c.g) + HexPair(c.b) }

  /** parseInt(s, 16) on hex digits. */
  function ParseHex(s: string): nat
    requires AllHex(s)
  {
    if s == "" then 0 else 16 * ParseHex(s[..|s| - 1]) + HexValue(s[|s| - 1])
  }

  /** replace('#', '') takes out the first '#'. */
  function DropHash(s: string): string {
    if s == "" then s else if s[0] == '#' then s[1..] else [s[0]] + DropHash(s[1..])
  }

  /** Three digits stand for six. */
  function Expand(h: string): string {
    if |h| == 3 then [h[0], h[0], h[1], h[1], h[2], h[2]] else h
  }

  /** toRgb on text whose digits are hex digits; black for any other length. */
  function ToRgb(hex: string): Rgb
    requires AllHex(DropHash(hex))
  {
    assert AllHex(Expand(DropHash(hex)));
    FromSix(Expand(DropHash(hex)))
  }

  function FromSix(h: string): Rgb
    requires AllHex(h)
  {
    if |h| != 6 then Rgb(0, 0, 0)
    else
      var n := ParseHex(h);
      Rgb(n / 65536 % 256, n / 256 % 256, n % 256)
  }

  lemma HexPairOf(n: nat)
    requires n < 256
    ensures HexPair(n) == [UpperChar(LowerDigit(n / 16)), UpperChar(LowerDigit(n % 16))]
    ensures AllHex(HexPair(n)) && HexValue(HexPair(n)[0]) == n / 16 && HexValue(HexPair(n)[1]) == n % 16
  {
    if n < 16 {
      assert ToString16(n) == [LowerDigit(n)];
      assert "0" + ToString16(n) == ['0', LowerDigit(n)];
    } else {
      assert ToString16(n) == [LowerDigit(n / 16), LowerDigit(n % 16)];
      assert ("0" + ToString16(n))[1..] == ToString16(n);
    }
  }

  lemma ParseTwoMore(s: string, t: string)
    requires AllHex(s) && AllHex(t) && |t| == 2
    ensures AllHex(s + t) && ParseHex(s + t) == 256 * ParseHex(s) + 16 * HexValue(t[0]) + HexValue(t[1])
  {
    var u := s + [t[0]];
    assert s + t == u + [t[1]];
    assert (u + [t[1]])[..|u|] == u && u[..|s|] == s;
  }

  lemma ParseThreePairs(r: string, g: string, b: string)
    requires AllHex(r) && AllHex(g) && AllHex(b) && |r| == |g| == |b| == 2
    ensures AllHex(r + g + b)
    ensures ParseHex(r + g + b) == 65536 * (16 * HexValue(r[0]) + HexValue(r[1]))
                                   + 256 * (16 * HexValue(g[0]) + HexValue(g[1])) + 16 * HexValue(b[0]) + HexValue(b[1])
  {
    ParseTwoMore("", r);
    assert "" + r == r;
    ParseTwoMore(r, g);
    ParseTwoMore(r + g, b);
  }

  lemma ChannelsOf(r: nat, g: nat, b: nat, n: nat)
    requires r < 256 && g < 256 && b < 256 && n == 65536 * r + 256 * g + b
    ensures n / 65536 % 256 == r && n / 256 % 256 == g && n % 256 == b
  {
    assert n / 256 == 256 * r + g;
  }

  /** toRgb reads back exactly the channels of every colour printed as hex. */
  lemma ToRgbOfPrint(c: Rgb)
    requires c.r < 256 && c.g < 256 && c.b < 256
    ensures AllHex(DropHash(Print(c))) && ToRgb(Print(c)) == c
  {
    HexPairOf(c.r);
    HexPairOf(c.g);
    HexPairOf(c.b);
    var r, g, b := HexPair(c.r), HexPair(c.g), HexPair(c.b);
    PrintWithoutHash(r, g, b);
    ParseThreePairs(r, g, b);
    ChannelsOf(c.r, c.g, c.b, ParseHex(r + g + b));
  }

  lemma PrintWithoutHash(r: string, g: string, b: string)
    ensures DropHash("#" + r + g + b) == r + g + b
  {
    assert ("#" + r + g + b)[1..] == r + g + b;
  }

  /** Distinct colours print differently. */
  lemma PrintIsInjective(c: Rgb, d: Rgb)
    requires c.r < 256 && c.g < 256 && c.b < 256 && d.r < 256 && d.g < 256 && d.b < 256
    ensures Print(c) == Print(d) ==> c == d
  {
    ToRgbOfPrint(c);
    ToRgbOfPrint(d);
  }

  // ---- what toRgb makes of any text of hex digits ----

  /** Two digits at i as a byte. */
  function ByteAt(h: string, i: nat): nat
    requires AllHex(h) && i + 1 < |h|
  {
    16 * HexValue(h[i]) + HexValue(h[i + 1])
  }

  lemma {:induction false} WithoutHash(h: string)
    requires AllHex(h)
    ensures DropHash(h) == h && DropHash("#" + h) == h
  {
    assert ("#" + h)[1..] == h;
    if h != "" {
      WithoutHash(h[1..]);
    }
  }

  /** With or without the '#': six digits are three bytes, each of three digits d stands for the byte dd,
      and text of any other length is black. */
  lemma ToRgbOfText(h: string)
    requires AllHex(h)
    ensures DropHash(h) == h == DropHash("#" + h) && ToRgb("#" + h) == ToRgb(h)
    ensures |h| == 6 ==> ToRgb(h) == Rgb(ByteAt(h, 0), ByteAt(h, 2), ByteAt(h, 4))
    ensures |h| == 3 ==> ToRgb(h) == Rgb(17 * HexValue(h[0]), 17 * HexValue(h[1]), 17 * HexValue(h[2]))
    ensures |h| != 6 && |h| != 3 ==> ToRgb(h) == Rgb(0, 0, 0)
  {
    WithoutHash(h);
    hide DropHash, FromSix;
    if |h| == 6 {
      SixDigits(h);
    } else if |h| == 3 {
      ThreeDigits(h);
    } else {
      OtherLength(h);
    }
  }

  lemma ThreeDigits(h: string)
    requires AllHex(h) && |h| == 3
    ensures AllHex(Expand(h))
    ensures FromSix(Expand(h)) == Rgb(17 * HexValue(h[0]), 17 * HexValue(h[1]), 17 * HexValue(h[2]))
  {
    var e := Expand(h);
    SixDigits(e);
    hide FromSix;
    assert e[0] == e[1] == h[0] && e[2] == e[3] == h[1] && e[4] == e[5] == h[2];
  }

  lemma OtherLength(h: string)
    requires AllHex(h) && |h| != 6
    ensures FromSix(h) == Rgb(0, 0, 0)
  {
  }

  lemma SixDigits(h: string)
    requires AllHex(h) && |h| == 6
    ensures FromSix(h) == Rgb(ByteAt(h, 0), ByteAt(h, 2), ByteAt(h, 4))
  {
    var r, g, b := h[..2], h[2..4], h[4..];
    assert h == r + g + b;
    ParseThreePairs(r, g, b);
    BytesFit(h);
    ChannelsOf(ByteAt(h, 0), ByteAt(h, 2), ByteAt(h, 4), ParseHex(h));
  }

  lemma BytesFit(h: string)
    requires AllHex(h)
    ensures forall i: nat | i + 1 < |h| :: ByteAt(h, i) < 256
  {
  }

  /** Lower-case digits read like upper-case ones. */
  lemma CaseDoesNotMatter(h: string)
    requires AllHex(h)
    ensures AllHex(Upper(h)) && DropHash(h) == h && DropHash(Upper(h)) == Upper(h) && ToRgb(Upper(h)) == ToRgb(h)
  {
    assert forall i | 0 <= i < |h| :: IsHex(UpperChar(h[i])) && HexValue(UpperChar(h[i])) == HexValue(h[i]);
    hide ToRgb, DropHash, HexValue, IsHex, UpperChar;
    ToRgbOfText(h);
    ToRgbOfText(Upper(h));
  }
}
