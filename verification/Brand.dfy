/** The ramps of apps/frontendall/brand.js and the loop that publishes them. */
module Brand {
  import opened Colour
  import opened HexText

  function Channel(v: real): int { Round(v * 255.0) }

  /** The colour hsl prints. */
  function HslRgb(h: real, s: real, l: real): Rgb
    requires InGamut(h, s, l)
  {
    HslChannels(h, s, l);
    var t := HslTriple(h, s, l);
    Rgb(Channel(t.r), Channel(t.g), Channel(t.b))
  }

  function Hsl(h: real, s: real, l: real): string
    requires InGamut(h, s, l)
  {
    Print(HslRgb(h, s, l))
  }

  /** hueOf(hex) for a text toRgb can read. */
  function HueOf(hex: string): real
    requires AllHex(DropHash(hex))
  {
    var c := ToRgb(hex);
    Hue(Triple(c.r as real / 255.0, c.g as real / 255.0, c.b as real / 255.0))
  }

  predicate NearestByte(n: nat, x: real) { x * 255.0 - 0.5 < n as real <= x * 255.0 + 0.5 }

  /** Every channel of the printed text is the byte nearest to the exact channel. */
  lemma HslIsNearest(h: real, s: real, l: real)
    requires InGamut(h, s, l)
    ensures AllHex(DropHash(Hsl(h, s, l)))
    ensures var c, t := ToRgb(Hsl(h, s, l)), HslTriple(h, s, l);
      NearestByte(c.r, t.r) && NearestByte(c.g, t.g) && NearestByte(c.b, t.b)
  {
    HslPrints(h, s, l);
    HslChannels(h, s, l);
    hide HslTriple, Hsl, ToRgb;
    var t := HslTriple(h, s, l);
    RoundIsClose(t.r * 255.0);
    RoundIsClose(t.g * 255.0);
    RoundIsClose(t.b * 255.0);
  }

  /** The hue hueOf finds in a text that is not grey is exact: some saturation and lightness make hsl give back
      precisely the channels of the text, before rounding. */
  lemma HueOfIsExact(hex: string)
    requires AllHex(DropHash(hex))
    ensures var c := ToRgb(hex);
      c.r == c.g == c.b || exists s, l ::
        InGamut(HueOf(hex), s, l)
        && HslTriple(HueOf(hex), s, l) == Triple(c.r as real / 255.0, c.g as real / 255.0, c.b as real / 255.0)
  {
    ChannelsFit(hex);
    var c := ToRgb(hex);
    if !(c.r == c.g == c.b) {
      var t := Triple(c.r as real / 255.0, c.g as real / 255.0, c.b as real / 255.0);
      UnitOfBytes(c);
      assert HueOf(hex) == Hue(t);
      hide HueOf, Hue, HslTriple, Saturation, Lightness, Spread, Room, Unit, ToRgb, AllHex, DropHash;
      EveryColourIsHsl(t);
    }
  }

  lemma UnitOfBytes(c: Rgb)
    requires c.r < 256 && c.g < 256 && c.b < 256
    ensures var t := Triple(c.r as real / 255.0, c.g as real / 255.0, c.b as real / 255.0);
      Unit(t) && (!(c.r == c.g == c.b) ==> Spread(t) > 0.0)
  {
  }

  function Max(a: nat, b: nat): nat { if a >= b then a else b }

  function Min(a: nat, b: nat): nat { if a <= b then a else b }

  /** The largest and the smallest 8-bit channel, added: 510 times the lightness, but for rounding. */
  function LightSum(c: Rgb): nat { Max(c.r, Max(c.g, c.b)) + Min(c.r, Min(c.g, c.b)) }

  lemma RoundIsMonotone(x: real, y: real)
    requires x <= y
    ensures Round(x) <= Round(y)
  {
  }

  lemma RoundIsClose(x: real)
    ensures x - 0.5 < Round(x) as real <= x + 0.5
  {
  }

  /** Rounding commutes with taking the extreme channels. */
  lemma LightSumOfHsl(h: real, s: real, l: real)
    requires InGamut(h, s, l)
    ensures LightSum(HslRgb(h, s, l)) ==
      Channel(l / 100.0 + Chroma(s, l) / 2.0) + Channel(l / 100.0 - Chroma(s, l) / 2.0)
  {
    HslChannels(h, s, l);
    hide HslTriple, Chroma, InGamut, Channel;
    ExtremesOfChannels(HslTriple(h, s, l));
  }

  lemma ExtremesOfChannels(t: Triple)
    ensures var r, g, b := Channel(t.r), Channel(t.g), Channel(t.b);
      && r <= Channel(Max3(t.r, t.g, t.b)) && g <= Channel(Max3(t.r, t.g, t.b)) && b <= Channel(Max3(t.r, t.g, t.b))
      && r >= Channel(Min3(t.r, t.g, t.b)) && g >= Channel(Min3(t.r, t.g, t.b)) && b >= Channel(Min3(t.r, t.g, t.b))
      && Channel(Max3(t.r, t.g, t.b)) in {r, g, b} && Channel(Min3(t.r, t.g, t.b)) in {r, g, b}
  {
    var mx, mn := Max3(t.r, t.g, t.b), Min3(t.r, t.g, t.b);
    RoundIsMonotone(t.r * 255.0, mx * 255.0);
    RoundIsMonotone(t.g * 255.0, mx * 255.0);
    RoundIsMonotone(t.b * 255.0, mx * 255.0);
    RoundIsMonotone(mn * 255.0, t.r * 255.0);
    RoundIsMonotone(mn * 255.0, t.g * 255.0);
    RoundIsMonotone(mn * 255.0, t.b * 255.0);
  }

  /** The printed channels lie within one of the exact light sum, whatever hue and saturation. */
  lemma LightSumIsClose(h: real, s: real, l: real)
    requires InGamut(h, s, l)
    ensures 510.0 * (l / 100.0) - 1.0 < LightSum(HslRgb(h, s, l)) as real <= 510.0 * (l / 100.0) + 1.0
  {
    LightSumOfHsl(h, s, l);
    var c := Chroma(s, l);
    RoundIsClose((l / 100.0 + c / 2.0) * 255.0);
    RoundIsClose((l / 100.0 - c / 2.0) * 255.0);
  }

  /** One percent of lightness is worth at least four in the light sum, so a ramp stays in order after rounding. */
  lemma RampOrder(h: real, s1: real, l1: real, s2: real, l2: real)
    requires InGamut(h, s1, l1) && InGamut(h, s2, l2) && l1 + 1.0 <= l2
    ensures LightSum(HslRgb(h, s1, l1)) + 4 <= LightSum(HslRgb(h, s2, l2))
  {
    LightSumIsClose(h, s1, l1);
    LightSumIsClose(h, s2, l2);
    assert 510.0 * (l2 / 100.0) - 510.0 * (l1 / 100.0) >= 5.1;
  }

  // ---- the ramps ----

  /** One step of a ramp: its number is its lightness. */
  datatype RampStep = RampStep(k: nat, s: nat)

  const NEUTRAL_SAT := 0.8

  // for-in visits integer-like keys in ascending order.
  const NEUTRALS: seq<RampStep> := [
    RampStep(68, 15), RampStep(79, 15), RampStep(81, 17), RampStep(83, 16), RampStep(84, 18), RampStep(85, 24),
    RampStep(88, 24), RampStep(89, 27), RampStep(91, 27), RampStep(92, 22), RampStep(93, 24), RampStep(94, 31),
    RampStep(95, 28), RampStep(96, 40), RampStep(97, 30), RampStep(98, 33), RampStep(99, 14)]

  const ACCENT_TINTS: seq<RampStep> := [
    RampStep(92, 54), RampStep(93, 100), RampStep(96, 100), RampStep(97, 100), RampStep(98, 100)]

  predicate RampOk(ramp: seq<RampStep>) {
    && (forall i | 0 <= i < |ramp| :: ramp[i].k <= 100 && ramp[i].s <= 100)
    && (forall i, j | 0 <= i < j < |ramp| :: ramp[i].k < ramp[j].k)
  }

  predicate Follows(a: RampStep, b: RampStep) { a.k < b.k <= 100 && b.s <= 100 }

  lemma RampOkSnoc(ramp: seq<RampStep>)
    requires |ramp| > 1 && RampOk(ramp[..|ramp| - 1]) && Follows(ramp[|ramp| - 2], ramp[|ramp| - 1])
    ensures RampOk(ramp)
  {
    var init := ramp[..|ramp| - 1];
    assert forall i | 0 <= i < |init| :: init[i] == ramp[i];
  }

  lemma {:induction false} RampOkByNeighbours(ramp: seq<RampStep>)
    requires |ramp| > 0 && ramp[0].k <= 100 && ramp[0].s <= 100
    requires forall i | 0 < i < |ramp| :: Follows(ramp[i - 1], ramp[i])
    ensures RampOk(ramp)
  {
    if |ramp| > 1 {
      RampOkByNeighbours(ramp[..|ramp| - 1]);
      RampOkSnoc(ramp);
    }
  }

  lemma RampsAreOk()
    ensures RampOk(NEUTRALS) && RampOk(ACCENT_TINTS)
  {
    hide RampOk;
    RampOkByNeighbours(NEUTRALS);
    RampOkByNeighbours(ACCENT_TINTS);
  }

  /** The saturation of a step, damped by the factor `sat`. */
  function Damped(sat: real, st: RampStep): (s: real)
    requires 0.0 <= sat <= 1.0 && st.s <= 100
    ensures 0.0 <= s <= 100.0
  {
    ScaledBy(st.s as real, sat, st.s as real * sat);
    st.s as real * sat
  }

  function StepColour(hue: real, sat: real, st: RampStep): Rgb
    requires 0.0 <= hue < 360.0 && 0.0 <= sat <= 1.0 && st.k <= 100 && st.s <= 100
  {
    HslRgb(hue, Damped(sat, st), st.k as real)
  }

  predicate IsStep(ramp: seq<RampStep>, k: nat) { exists i | 0 <= i < |ramp| :: ramp[i].k == k }

  /** But for the steps of the ramp, the variables are as before. */
  ghost predicate SameElsewhere<T(!new)>(before: map<nat, T>, after: map<nat, T>, ramp: seq<RampStep>) {
    forall k | !IsStep(ramp, k) :: (k in after <==> k in before) && (k in after ==> after[k] == before[k])
  }

  lemma StillSame<T(!new)>(before: map<nat, T>, after: map<nat, T>, ramp: seq<RampStep>, i: nat, v: T)
    requires SameElsewhere(before, after, ramp) && i < |ramp|
    ensures SameElsewhere(before, after[ramp[i].k := v], ramp)
  {
    assert IsStep(ramp, ramp[i].k);
  }

  /** The CSS variables of one ramp: --n99 and --n99-rgb, or --a98 and --a98-rgb. */
  class Ramp {
    var hex: map<nat, string>
    var rgb: map<nat, Rgb>

    constructor ()
      ensures hex == map[] && rgb == map[]
    {
      hex, rgb := map[], map[];
    }

    /** Variables k and k-rgb both hold the colour of the step, and every step up to n is published. */
    ghost predicate Published(hue: real, sat: real, ramp: seq<RampStep>, n: nat)
      requires 0.0 <= hue < 360.0 && 0.0 <= sat <= 1.0 && RampOk(ramp) && n <= |ramp|
      reads this
    {
      forall i | 0 <= i < n ::
        && ramp[i].k in hex && hex[ramp[i].k] == Print(StepColour(hue, sat, ramp[i]))
        && ramp[i].k in rgb && rgb[ramp[i].k] == StepColour(hue, sat, ramp[i])
    }

    method Publish(hue: real, sat: real, ramp: seq<RampStep>)
      requires 0.0 <= hue < 360.0 && 0.0 <= sat <= 1.0 && RampOk(ramp)
      modifies this
      ensures Published(hue, sat, ramp, |ramp|)
      ensures SameElsewhere(old(hex), hex, ramp) && SameElsewhere(old(rgb), rgb, ramp)
    {
      hide HslRgb, Hsl, Print, ToRgb;
      assert SameElsewhere(hex, hex, ramp) && SameElsewhere(rgb, rgb, ramp);
      hide SameElsewhere;
      var i := 0;
      while i < |ramp|
        invariant i <= |ramp| && Published(hue, sat, ramp, i)
        invariant SameElsewhere(old(hex), hex, ramp) && SameElsewhere(old(rgb), rgb, ramp)
      {
        var st := ramp[i];
        StepPrints(hue, sat, st);
        var colour := Hsl(hue, Damped(sat, st), st.k as real);
        StillSame(old(hex), hex, ramp, i, colour);
        StillSame(old(rgb), rgb, ramp, i, ToRgb(colour));
        hex := hex[st.k := colour];
        rgb := rgb[st.k := ToRgb(colour)];
        i := i + 1;
      }
    }
  }

  /** toRgb of the text hsl prints gives exactly the rounded channels. */
  lemma HslPrints(h: real, s: real, l: real)
    requires InGamut(h, s, l)
    ensures AllHex(DropHash(Hsl(h, s, l))) && ToRgb(Hsl(h, s, l)) == HslRgb(h, s, l)
  {
    HslChannels(h, s, l);
    var t := HslTriple(h, s, l);
    RoundIsMonotone(t.r * 255.0, 255.0);
    RoundIsMonotone(t.g * 255.0, 255.0);
    RoundIsMonotone(t.b * 255.0, 255.0);
    ToRgbOfPrint(HslRgb(h, s, l));
  }

  lemma StepPrints(hue: real, sat: real, st: RampStep)
    requires 0.0 <= hue < 360.0 && 0.0 <= sat <= 1.0 && st.k <= 100 && st.s <= 100
    ensures var text := Hsl(hue, Damped(sat, st), st.k as real); var c := StepColour(hue, sat, st);
      text == Print(c) && AllHex(DropHash(text)) && ToRgb(text) == c
  {
    HslPrints(hue, Damped(sat, st), st.k as real);
  }

  /** Every step of the ramp is published, at least four lighter than any step with a smaller number. */
  ghost predicate InOrder(rgb: map<nat, Rgb>, ramp: seq<RampStep>) {
    && (forall i | 0 <= i < |ramp| :: ramp[i].k in rgb)
    && (forall i, j | 0 <= i < j < |ramp| :: LightSum(rgb[ramp[i].k]) + 4 <= LightSum(rgb[ramp[j].k]))
  }

  /** The applyTheme loop over one ramp, for any accent: whatever its hue, reading the printed colours back
      gives light sums in the order of the step numbers. */
  method ApplyRamp(accent: string, sat: real, ramp: seq<RampStep>, vars: Ramp) returns (hue: real)
    requires AllHex(DropHash(accent)) && 0.0 <= sat <= 1.0 && RampOk(ramp)
    modifies vars
    ensures hue == HueOf(accent) && 0.0 <= hue < 360.0 && vars.Published(hue, sat, ramp, |ramp|)
    ensures InOrder(vars.rgb, ramp)
  {
    var c := ToRgb(accent);
    HueRange(Triple(c.r as real / 255.0, c.g as real / 255.0, c.b as real / 255.0));
    hue := HueOf(accent);
    vars.Publish(hue, sat, ramp);
    forall i, j | 0 <= i < j < |ramp|
      ensures LightSum(vars.rgb[ramp[i].k]) + 4 <= LightSum(vars.rgb[ramp[j].k])
    {
      StepOrder(hue, sat, ramp[i], ramp[j]);
    }
  }

  lemma StepOrder(hue: real, sat: real, a: RampStep, b: RampStep)
    requires 0.0 <= hue < 360.0 && 0.0 <= sat <= 1.0 && a.s <= 100 && b.s <= 100 && a.k < b.k <= 100
    ensures LightSum(StepColour(hue, sat, a)) + 4 <= LightSum(StepColour(hue, sat, b))
  {
    RampOrder(hue, Damped(sat, a), a.k as real, Damped(sat, b), b.k as real);
  }

  /** Both loops of applyTheme: the neutral ramp with damped saturation, the accent ramp with its own. */
  method ApplyTheme(accent: string, neutrals: Ramp, tints: Ramp) returns (hue: real)
    requires AllHex(DropHash(accent)) && neutrals != tints
    modifies neutrals, tints
    ensures hue == HueOf(accent) && 0.0 <= hue < 360.0 && RampOk(NEUTRALS) && RampOk(ACCENT_TINTS)
    ensures neutrals.Published(hue, NEUTRAL_SAT, NEUTRALS, |NEUTRALS|)
    ensures tints.Published(hue, 1.0, ACCENT_TINTS, |ACCENT_TINTS|)
    ensures InOrder(neutrals.rgb, NEUTRALS) && InOrder(tints.rgb, ACCENT_TINTS)
  {
    RampsAreOk();
    hue := ApplyRamp(accent, NEUTRAL_SAT, NEUTRALS, neutrals);
    hue := ApplyRamp(accent, 1.0, ACCENT_TINTS, tints);
  }

  /** A damped step uses exactly four fifths of the room for chroma that the undamped one uses. */
  lemma NeutralsAreDamped(hue: real, st: RampStep)
    requires 0.0 <= hue < 360.0 && st.k <= 100 && st.s <= 100
    ensures Spread(HslTriple(hue, Damped(NEUTRAL_SAT, st), st.k as real))
            == 0.8 * Spread(HslTriple(hue, st.s as real, st.k as real))
    ensures Damped(1.0, st) == st.s as real
  {
    var s, l := st.s as real, st.k as real;
    HslChannels(hue, s, l);
    HslChannels(hue, Damped(NEUTRAL_SAT, st), l);
    FourFifths(s, l);
    assert Damped(NEUTRAL_SAT, st) == s * 0.8;
    hide HslTriple, Chroma, Damped;
  }

  lemma FourFifths(s: real, l: real)
    ensures Chroma(s * 0.8, l) == 0.8 * Chroma(s, l)
  {
    var room := 1.0 - Abs(2.0 * l / 100.0 - 1.0);
    assert room * (s * 0.8 / 100.0) == 0.8 * (room * (s / 100.0));
  }

  // ---- lighten ----

  function LightenChannel(v: nat, amount: real): int { Round(v as real + (255.0 - v as real) * amount) }

  /** The unrounded result for v lies between v and the one for any lighter w, which lies below white. */
  lemma LightenExact(p: real, q: real, amount: real)
    requires 0.0 <= p <= q <= 255.0 && 0.0 <= amount <= 1.0
    ensures p <= p + (255.0 - p) * amount <= q + (255.0 - q) * amount <= 255.0
  {
    ScaledBy(255.0 - p, amount, (255.0 - p) * amount);
    ScaledBy(255.0 - q, amount, (255.0 - q) * amount);
    ScaledBy(q - p, 1.0 - amount, (q - p) * (1.0 - amount));
    assert q + (255.0 - q) * amount - (p + (255.0 - p) * amount) == (q - p) * (1.0 - amount);
  }

  /** lighten moves each channel toward white and never past it, and keeps the order of channels. */
  lemma LightenMovesTowardWhite(v: nat, w: nat, amount: real)
    requires v <= w <= 255 && 0.0 <= amount <= 1.0
    ensures v <= LightenChannel(v, amount) <= LightenChannel(w, amount) <= 255
  {
    var p, q := v as real, w as real;
    LightenExact(p, q, amount);
    RoundIsMonotone(p, p + (255.0 - p) * amount);
    RoundIsMonotone(p + (255.0 - p) * amount, q + (255.0 - q) * amount);
    RoundIsMonotone(q + (255.0 - q) * amount, 255.0);
  }

  function LightenedRgb(c: Rgb, amount: real): Rgb
    requires c.r < 256 && c.g < 256 && c.b < 256 && 0.0 <= amount <= 1.0
  {
    LightenMovesTowardWhite(c.r, 255, amount);
    LightenMovesTowardWhite(c.g, 255, amount);
    LightenMovesTowardWhite(c.b, 255, amount);
    Rgb(LightenChannel(c.r, amount), LightenChannel(c.g, amount), LightenChannel(c.b, amount))
  }

  lemma ChannelsFit(hex: string)
    requires AllHex(DropHash(hex))
    ensures var c := ToRgb(hex); c.r < 256 && c.g < 256 && c.b < 256
  {
  }

  function Lighten(hex: string, amount: real): string
    requires AllHex(DropHash(hex)) && 0.0 <= amount <= 1.0
  {
    ChannelsFit(hex);
    Print(LightenedRgb(ToRgb(hex), amount))
  }

  /** No channel of d is darker than that of c, and channels ordered in c are ordered in d. */
  predicate LighterInOrder(c: Rgb, d: Rgb) {
    && c.r <= d.r <= 255 && c.g <= d.g <= 255 && c.b <= d.b <= 255
    && (c.r <= c.g ==> d.r <= d.g) && (c.g <= c.r ==> d.g <= d.r)
    && (c.g <= c.b ==> d.g <= d.b) && (c.b <= c.g ==> d.b <= d.g)
    && (c.r <= c.b ==> d.r <= d.b) && (c.b <= c.r ==> d.b <= d.r)
  }

  lemma LightenKeepsOrder(c: Rgb, amount: real)
    requires c.r < 256 && c.g < 256 && c.b < 256 && 0.0 <= amount <= 1.0
    ensures LighterInOrder(c, LightenedRgb(c, amount))
  {
    hide LightenChannel;
    LightenMovesTowardWhite(c.r, 255, amount);
    LightenMovesTowardWhite(c.g, 255, amount);
    LightenMovesTowardWhite(c.b, 255, amount);
    LightenTwo(c.r, c.g, amount);
    LightenTwo(c.g, c.b, amount);
    LightenTwo(c.r, c.b, amount);
  }

  lemma LightenEnds(c: Rgb, amount: real)
    requires c.r < 256 && c.g < 256 && c.b < 256 && 0.0 <= amount <= 1.0
    ensures amount == 0.0 ==> LightenedRgb(c, amount) == c
    ensures amount == 1.0 ==> LightenedRgb(c, amount) == Rgb(255, 255, 255)
  {
    hide LightenChannel;
    ChannelEnds(c.r);
    ChannelEnds(c.g);
    ChannelEnds(c.b);
  }

  lemma ChannelEnds(v: nat)
    ensures LightenChannel(v, 0.0) == v && LightenChannel(v, 1.0) == 255
  {
    var white := v as real + (255.0 - v as real);
    assert white == 255.0;
  }

  lemma LightenTwo(v: nat, w: nat, amount: real)
    requires v <= 255 && w <= 255 && 0.0 <= amount <= 1.0
    ensures v <= w ==> LightenChannel(v, amount) <= LightenChannel(w, amount)
    ensures w <= v ==> LightenChannel(w, amount) <= LightenChannel(v, amount)
  {
    hide LightenChannel;
    if v <= w {
      LightenMovesTowardWhite(v, w, amount);
    }
    if w <= v {
      LightenMovesTowardWhite(w, v, amount);
    }
  }

  /** The channel goes the fraction `amount` of its way to white, rounded to the nearest byte. */
  lemma LightenIsNearest(v: nat, amount: real)
    requires v <= 255 && 0.0 <= amount <= 1.0
    ensures var exact := (1.0 - amount) * v as real + amount * 255.0;
      exact - 0.5 < LightenChannel(v, amount) as real <= exact + 0.5
  {
    var x := v as real;
    RoundIsClose(x + (255.0 - x) * amount);
    assert x + (255.0 - x) * amount == (1.0 - amount) * x + amount * 255.0;
  }

  predicate NearLightened(n: nat, v: nat, amount: real) {
    var exact := (1.0 - amount) * v as real + amount * 255.0;
    exact - 0.5 < n as real <= exact + 0.5
  }

  /** Channel by channel, the text lighten prints is the nearest to going that fraction of the way to white. */
  lemma LightenTextIsNearest(hex: string, amount: real)
    requires AllHex(DropHash(hex)) && 0.0 <= amount <= 1.0
    ensures AllHex(DropHash(Lighten(hex, amount)))
    ensures var c, d := ToRgb(hex), ToRgb(Lighten(hex, amount));
      NearLightened(d.r, c.r, amount) && NearLightened(d.g, c.g, amount) && NearLightened(d.b, c.b, amount)
  {
    ChannelsFit(hex);
    hide ToRgb, Print;
    var c := ToRgb(hex);
    LightenIsNearest(c.r, amount);
    LightenIsNearest(c.g, amount);
    LightenIsNearest(c.b, amount);
    LightenKeepsOrder(c, amount);
    ToRgbOfPrint(LightenedRgb(c, amount));
  }

  /** The text lighten prints reads back as a colour that is nowhere darker, keeps the order of the channels,
      and is the colour itself for amount 0 and white for amount 1. */
  lemma LightenPrints(hex: string, amount: real)
    requires AllHex(DropHash(hex)) && 0.0 <= amount <= 1.0
    ensures AllHex(DropHash(Lighten(hex, amount)))
    ensures LighterInOrder(ToRgb(hex), ToRgb(Lighten(hex, amount)))
    ensures amount == 0.0 ==> ToRgb(Lighten(hex, amount)) == ToRgb(hex)
    ensures amount == 1.0 ==> ToRgb(Lighten(hex, amount)) == Rgb(255, 255, 255)
  {
    ChannelsFit(hex);
    hide ToRgb, Print, LightenedRgb;
    var c := ToRgb(hex);
    LightenKeepsOrder(c, amount);
    LightenEnds(c, amount);
    ToRgbOfPrint(LightenedRgb(c, amount));
  }
}
