/** The colour maths of apps/frontendall/brand.js: HSL to RGB, the way back to the hue, and hex text.
    The maths is over the reals; the 8-bit channels are integers. */
module Colour {
  datatype Triple = Triple(r: real, g: real, b: real)
  datatype Rgb = Rgb(r: nat, g: nat, b: nat)

  function Abs(x: real): real { if x < 0.0 then -x else x }

  function Max3(x: real, y: real, z: real): real { if x >= y && x >= z then x else if y >= z then y else z }

  function Min3(x: real, y: real, z: real): real { if x <= y && x <= z then x else if y <= z then y else z }

  /** x % 2 for x >= 0. */
  function Mod2(x: real): real { x - 2.0 * (x / 2.0).Floor as real }

  /** Math.round */
  function Round(x: real): int { (x + 0.5).Floor }

  // ---- hsl ----

  function Chroma(s: real, l: real): real { (1.0 - Abs(2.0 * l / 100.0 - 1.0)) * (s / 100.0) }

  function Second(h: real, c: real): real { c * (1.0 - Abs(Mod2(h / 60.0) - 1.0)) }

  /** The unrounded channels of hsl(h, s, l), as fractions of 1. */
  function HslTriple(h: real, s: real, l: real): Triple {
    var c := Chroma(s, l);
    var x := Second(h, c);
    var m := l / 100.0 - c / 2.0;
    var t := if h < 60.0 then Triple(c, x, 0.0) else if h < 120.0 then Triple(x, c, 0.0)
             else if h < 180.0 then Triple(0.0, c, x) else if h < 240.0 then Triple(0.0, x, c)
             else if h < 300.0 then Triple(x, 0.0, c) else Triple(c, 0.0, x);
    Triple(t.r + m, t.g + m, t.b + m)
  }

  // ---- hueOf ----

  /** hueOf on channels given as fractions of 1. */
  function Hue(t: Triple): real {
    var mx := Max3(t.r, t.g, t.b);
    var d := mx - Min3(t.r, t.g, t.b);
    if d == 0.0 then 0.0
    else
      60.0 * (if mx == t.r then (t.g - t.b) / d + (if t.g < t.b then 6.0 else 0.0)
              else if mx == t.g then (t.b - t.r) / d + 2.0 else (t.r - t.g) / d + 4.0)
  }

  predicate InGamut(h: real, s: real, l: real) { 0.0 <= h < 360.0 && 0.0 <= s <= 100.0 && 0.0 <= l <= 100.0 }

  /** h is sextant k plus the fraction f of 60 degrees. */
  predicate Sextant(h: real, k: int, f: real) { 0 <= k < 6 && 0.0 <= f < 1.0 && h == 60.0 * (k as real + f) }

  lemma SextantOf(h: real) returns (k: int, f: real)
    requires 0.0 <= h < 360.0
    ensures Sextant(h, k, f)
  {
    k := (h / 60.0).Floor;
    f := h / 60.0 - k as real;
  }

  /** The second largest component rises through even sextants and falls through odd ones. */
  lemma SecondInSextant(h: real, k: int, f: real, c: real)
    requires Sextant(h, k, f)
    ensures Second(h, c) == c * (if k % 2 == 0 then f else 1.0 - f)
  {
    var q := h / 60.0;
    assert q == k as real + f;
    var e := if k % 2 == 0 then k else k - 1;
    assert (q / 2.0).Floor == e / 2;
    assert Mod2(q) == q - e as real;
    assert 1.0 - Abs(Mod2(q) - 1.0) == if k % 2 == 0 then f else 1.0 - f;
  }

  lemma PartOf(c: real, f: real)
    requires c >= 0.0 && 0.0 <= f <= 1.0
    ensures 0.0 <= c * f <= c
    ensures c > 0.0 ==> (f < 1.0 ==> c * f < c) && (f > 0.0 ==> c * f > 0.0)
  {
    assert c - c * f == c * (1.0 - f);
  }

  lemma QuotientOf(c: real, x: real, f: real)
    requires c != 0.0 && x == c * f
    ensures x / c == f && -x / c == -f
  {
    assert (x / c - f) * c == 0.0;
    assert (-x / c + f) * c == 0.0;
  }

  lemma ScaledBy(w: real, u: real, p: real)
    requires w >= 0.0 && 0.0 <= u <= 1.0 && p == w * u
    ensures 0.0 <= p <= w && (w > 0.0 && u > 0.0 ==> p > 0.0)
  {
    PartOf(w, u);
  }

  lemma ChromaRange(s: real, l: real)
    requires 0.0 <= s <= 100.0 && 0.0 <= l <= 100.0
    ensures 0.0 <= Chroma(s, l) <= 1.0 - Abs(2.0 * l / 100.0 - 1.0)
    ensures 0.0 < s && 0.0 < l < 100.0 ==> Chroma(s, l) > 0.0
  {
    var w := 1.0 - Abs(2.0 * l / 100.0 - 1.0);
    assert 0.0 < l < 100.0 ==> w > 0.0;
    ScaledBy(w, s / 100.0, Chroma(s, l));
  }

  lemma SecondRange(h: real, c: real)
    requires 0.0 <= h < 360.0 && c >= 0.0
    ensures 0.0 <= Second(h, c) <= c
  {
    var k, f := SextantOf(h);
    SecondInSextant(h, k, f, c);
    PartOf(c, if k % 2 == 0 then f else 1.0 - f);
  }

  /** Every channel lies in [0, 1]; the extreme channels do not depend on the hue and add up to twice the lightness. */
  lemma HslChannels(h: real, s: real, l: real)
    requires InGamut(h, s, l)
    ensures var t := HslTriple(h, s, l);
      && 0.0 <= t.r <= 1.0 && 0.0 <= t.g <= 1.0 && 0.0 <= t.b <= 1.0
      && Max3(t.r, t.g, t.b) == l / 100.0 + Chroma(s, l) / 2.0
      && Min3(t.r, t.g, t.b) == l / 100.0 - Chroma(s, l) / 2.0
      && Max3(t.r, t.g, t.b) + Min3(t.r, t.g, t.b) == 2.0 * (l / 100.0)
  {
    ChromaRange(s, l);
    SecondRange(h, Chroma(s, l));
  }

  /** The second component as a share of the first. */
  lemma SecondShare(h: real, k: int, f: real, c: real)
    requires Sextant(h, k, f) && c > 0.0
    ensures var x := Second(h, c);
      && 0.0 <= x <= c && (if k % 2 == 0 then x < c else 0.0 < x)
      && x / c == if k % 2 == 0 then f else 1.0 - f
  {
    SecondInSextant(h, k, f, c);
    hide Second;
    var g := if k % 2 == 0 then f else 1.0 - f;
    PartOf(c, g);
    QuotientOf(c, Second(h, c), g);
  }

  /** How hsl lays out the largest component c and the second largest x in sextant k, over the smallest m. */
  function Layout(k: int, c: real, x: real, m: real): Triple {
    match k
    case 0 => Triple(c + m, x + m, 0.0 + m)
    case 1 => Triple(x + m, c + m, 0.0 + m)
    case 2 => Triple(0.0 + m, c + m, x + m)
    case 3 => Triple(0.0 + m, x + m, c + m)
    case 4 => Triple(x + m, 0.0 + m, c + m)
    case _ => Triple(c + m, 0.0 + m, x + m)
  }

  lemma HslTripleIsLayout(h: real, s: real, l: real, k: int, f: real)
    requires Sextant(h, k, f)
    ensures HslTriple(h, s, l) == Layout(k, Chroma(s, l), Second(h, Chroma(s, l)), l / 100.0 - Chroma(s, l) / 2.0)
  {
    hide Chroma, Second;
  }

  lemma HueOfLayout(k: int, c: real, x: real, m: real, t: Triple)
    requires 0 <= k < 6 && c > 0.0 && 0.0 <= x <= c && (if k % 2 == 0 then x < c else 0.0 < x)
    requires t == Layout(k, c, x, m)
    ensures Hue(t) == 60.0 * (if k % 2 == 0 then k as real + x / c else (k + 1) as real - x / c)
  {
    QuotientOf(c, c, 1.0);
    QuotientOf(c, x, x / c);
    assert Max3(t.r, t.g, t.b) - Min3(t.r, t.g, t.b) == c;
  }

  /** hueOf undoes hsl on every saturated colour between black and white, before rounding. */
  lemma HueRoundTrip(h: real, s: real, l: real)
    requires 0.0 <= h < 360.0 && 0.0 < s <= 100.0 && 0.0 < l < 100.0
    ensures Hue(HslTriple(h, s, l)) == h
  {
    var k, f := SextantOf(h);
    var c := Chroma(s, l);
    ChromaRange(s, l);
    SecondShare(h, k, f, c);
    HslTripleIsLayout(h, s, l, k, f);
    hide HslTriple, Layout, Hue, Chroma, Second;
    HueOfLayout(k, c, Second(h, c), l / 100.0 - c / 2.0, HslTriple(h, s, l));
  }

  /** Without saturation, or at black and white, the hue is lost: it comes back as 0. */
  lemma GreyHasNoHue(h: real, s: real, l: real)
    requires InGamut(h, s, l)
    ensures Hue(HslTriple(h, s, l)) == h <==> h == 0.0 || (0.0 < s && 0.0 < l < 100.0)
  {
    if 0.0 < s && 0.0 < l < 100.0 {
      HueRoundTrip(h, s, l);
    } else {
      ChromaRange(s, l);
      SecondRange(h, Chroma(s, l));
      assert Chroma(s, l) == 0.0;
    }
  }

  /** Any triple has a hue that hsl accepts. */
  lemma HueRange(t: Triple)
    ensures 0.0 <= Hue(t) < 360.0
  {
    var mx, mn := Max3(t.r, t.g, t.b), Min3(t.r, t.g, t.b);
    var d := mx - mn;
    if d != 0.0 {
      QuotientRange(t.g - t.b, d);
      QuotientRange(t.b - t.r, d);
      QuotientRange(t.r - t.g, d);
    }
  }

  lemma QuotientRange(n: real, d: real)
    requires d > 0.0
    ensures -d <= n <= d ==> -1.0 <= n / d <= 1.0
    ensures n < 0.0 ==> n / d < 0.0
    ensures n >= 0.0 ==> n / d >= 0.0
  {
    var q := n / d;
    assert q * d == n;
  }

  // ---- hsl told by its result ----

  /** max - min of the channels. */
  function Spread(t: Triple): real { Max3(t.r, t.g, t.b) - Min3(t.r, t.g, t.b) }

  /** The largest spread a colour with that max + min can have. */
  function Room(t: Triple): real { 1.0 - Abs(Max3(t.r, t.g, t.b) + Min3(t.r, t.g, t.b) - 1.0) }

  /** The saturation says how much of the room for its lightness a colour uses. */
  lemma SaturationLaw(h: real, s: real, l: real)
    requires InGamut(h, s, l)
    ensures Spread(HslTriple(h, s, l)) == Room(HslTriple(h, s, l)) * (s / 100.0)
  {
    HslChannels(h, s, l);
  }

  lemma PureHue(k: int)
    requires 0 <= k < 6
    ensures HslTriple(60.0 * k as real, 100.0, 50.0) == Layout(k, 1.0, if k % 2 == 0 then 0.0 else 1.0, 0.0)
  {
    var h := 60.0 * k as real;
    assert Chroma(100.0, 50.0) == 1.0;
    hide Chroma, HslTriple, Layout;
    HslTripleIsLayout(h, 100.0, 50.0, k, 0.0);
    SecondInSextant(h, k, 0.0, 1.0);
  }

  /** The corners of the colour cube: red, yellow, green, cyan, blue and magenta are 60 degrees apart. */
  lemma PureColours()
    ensures HslTriple(0.0, 100.0, 50.0) == Triple(1.0, 0.0, 0.0)
    ensures HslTriple(60.0, 100.0, 50.0) == Triple(1.0, 1.0, 0.0)
    ensures HslTriple(120.0, 100.0, 50.0) == Triple(0.0, 1.0, 0.0)
    ensures HslTriple(180.0, 100.0, 50.0) == Triple(0.0, 1.0, 1.0)
    ensures HslTriple(240.0, 100.0, 50.0) == Triple(0.0, 0.0, 1.0)
    ensures HslTriple(300.0, 100.0, 50.0) == Triple(1.0, 0.0, 1.0)
  {
    hide HslTriple;
    PureHue(0);
    PureHue(1);
    PureHue(2);
    PureHue(3);
    PureHue(4);
    PureHue(5);
  }

  // ---- every colour is an hsl colour ----

  predicate Unit(t: Triple) { 0.0 <= t.r <= 1.0 && 0.0 <= t.g <= 1.0 && 0.0 <= t.b <= 1.0 }

  /** The saturation and the lightness, in percent, of a colour that is not grey. */
  function Saturation(t: Triple): real
    requires Room(t) != 0.0
  {
    Spread(t) / Room(t) * 100.0
  }

  function Lightness(t: Triple): real { (Max3(t.r, t.g, t.b) + Min3(t.r, t.g, t.b)) / 2.0 * 100.0 }

  lemma RoomForSpread(t: Triple)
    requires Unit(t) && Spread(t) > 0.0
    ensures 0.0 < Spread(t) <= Room(t) && 0.0 < Saturation(t) <= 100.0 && 0.0 < Lightness(t) < 100.0
    ensures Chroma(Saturation(t), Lightness(t)) == Spread(t)
    ensures Lightness(t) / 100.0 - Spread(t) / 2.0 == Min3(t.r, t.g, t.b)
  {
    var d, room := Spread(t), Room(t);
    assert 0.0 < d <= room;
    ShareRange(d, room);
    assert 1.0 - Abs(2.0 * Lightness(t) / 100.0 - 1.0) == room;
    assert Saturation(t) / 100.0 == d / room;
  }

  lemma ShareRange(d: real, room: real)
    requires 0.0 < d <= room
    ensures 0.0 < d / room <= 1.0 && room * (d / room) == d
  {
    var q := d / room;
    assert q * room == d;
  }

  /** Sextant k and the fraction f of it, with x the second component there when d is the first. */
  predicate Placed(k: int, f: real, d: real, x: real) {
    0 <= k < 6 && 0.0 <= f < 1.0 && x == d * (if k % 2 == 0 then f else 1.0 - f)
  }

  /** The colour n / d of a sextant above the even corner e; at n == d it is the next corner. */
  lemma AboveCorner(e: int, n: real, d: real) returns (k: int, f: real)
    requires e in {0, 2, 4} && 0.0 <= n <= d && d > 0.0
    ensures Placed(k, f, d, n) && k as real + f == e as real + n / d && k == if n < d then e else e + 1
  {
    var q := n / d;
    assert q * d == n;
    k, f := if n < d then e else e + 1, if n < d then q else 0.0;
    QuotientRange(n, d);
    if n < d {
      assert q != 1.0;
    } else {
      assert (q - 1.0) * d == 0.0;
    }
  }

  /** The colour n / d of a sextant below the even corner e. */
  lemma BelowCorner(e: int, n: real, d: real) returns (k: int, f: real)
    requires e in {2, 4, 6} && 0.0 < n <= d
    ensures Placed(k, f, d, n) && k as real + f == e as real + -n / d && k == e - 1
  {
    var q := n / d;
    assert q * d == n;
    k, f := e - 1, 1.0 - q;
    assert (-n / d + q) * d == 0.0;
    assert d * (1.0 - q) >= 0.0;
  }

  /** The sextant of the hue that hueOf computes, and the second largest component there. */
  lemma SextantOfColour(t: Triple) returns (k: int, f: real, x: real)
    requires Spread(t) > 0.0
    ensures Sextant(Hue(t), k, f) && Placed(k, f, Spread(t), x)
    ensures t == Layout(k, Spread(t), x, Min3(t.r, t.g, t.b))
  {
    hide Placed;
    var d, mx := Spread(t), Max3(t.r, t.g, t.b);
    if mx == t.r && t.g >= t.b {
      x := t.g - t.b;
      k, f := AboveCorner(0, x, d);
    } else if mx == t.r {
      x := t.b - t.g;
      k, f := BelowCorner(6, x, d);
    } else if mx == t.g && t.b >= t.r {
      x := t.b - t.r;
      k, f := AboveCorner(2, x, d);
    } else if mx == t.g {
      x := t.r - t.b;
      k, f := BelowCorner(2, x, d);
    } else if t.r >= t.g {
      x := t.r - t.g;
      k, f := AboveCorner(4, x, d);
    } else {
      x := t.g - t.r;
      k, f := BelowCorner(4, x, d);
    }
    PlacedInSextant(k, f, d, x);
  }

  lemma PlacedInSextant(k: int, f: real, d: real, x: real)
    requires Placed(k, f, d, x)
    ensures 0 <= k < 6 && 0.0 <= f < 1.0
  {
  }

  /** hsl undoes hueOf: every colour that is not grey is the hsl colour of its hue, its saturation and its lightness. */
  lemma EveryColourIsHsl(t: Triple)
    requires Unit(t) && Spread(t) > 0.0
    ensures Room(t) > 0.0 && InGamut(Hue(t), Saturation(t), Lightness(t))
    ensures HslTriple(Hue(t), Saturation(t), Lightness(t)) == t
  {
    RoomForSpread(t);
    var k, f, x := SextantOfColour(t);
    var h, s, l := Hue(t), Saturation(t), Lightness(t);
    hide HslTriple, Hue, Saturation, Lightness, Spread, Room, Chroma, Second, Layout, Placed, Sextant;
    HslTripleIsLayout(h, s, l, k, f);
    SecondPlaced(h, k, f, Spread(t), x);
    HueRange(t);
  }

  lemma SecondPlaced(h: real, k: int, f: real, d: real, x: real)
    requires Sextant(h, k, f) && Placed(k, f, d, x)
    ensures Second(h, d) == x
  {
    SecondInSextant(h, k, f, d);
  }

  /** The settings of hsl can be read off its result, for every saturated colour between black and white. */
  lemma SettingsRoundTrip(h: real, s: real, l: real)
    requires 0.0 <= h < 360.0 && 0.0 < s <= 100.0 && 0.0 < l < 100.0
    ensures var t := HslTriple(h, s, l);
      Room(t) > 0.0 && Hue(t) == h && Saturation(t) == s && Lightness(t) == l
  {
    hide HslTriple, Hue, Chroma, Max3, Min3, Room, Spread, Saturation, Lightness;
    HueRoundTrip(h, s, l);
    HslChannels(h, s, l);
    SaturationLaw(h, s, l);
    RoomOfLightness(HslTriple(h, s, l), l);
    SaturationBack(HslTriple(h, s, l), s);
  }

  lemma RoomOfLightness(t: Triple, l: real)
    requires Max3(t.r, t.g, t.b) + Min3(t.r, t.g, t.b) == 2.0 * (l / 100.0) && 0.0 < l < 100.0
    ensures Room(t) > 0.0 && Lightness(t) == l
  {
    hide Max3, Min3;
  }

  lemma SaturationBack(t: Triple, s: real)
    requires Room(t) > 0.0 && Spread(t) == Room(t) * (s / 100.0)
    ensures Saturation(t) == s
  {
    hide Room, Spread;
    QuotientOf(Room(t), Spread(t), s / 100.0);
  }

  /** So off the greys different settings give different colours. */
  lemma HslIsInjective(h: real, s: real, l: real, h': real, s': real, l': real)
    requires 0.0 <= h < 360.0 && 0.0 < s <= 100.0 && 0.0 < l < 100.0
    requires 0.0 <= h' < 360.0 && 0.0 < s' <= 100.0 && 0.0 < l' < 100.0
    ensures HslTriple(h, s, l) == HslTriple(h', s', l') ==> h == h' && s == s' && l == l'
  {
    hide HslTriple, Hue, Saturation, Lightness, Room;
    SettingsRoundTrip(h, s, l);
    SettingsRoundTrip(h', s', l');
  }
}
