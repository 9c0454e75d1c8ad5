/** The HSV colour model: an HSV value with a wrapped hue and clamped saturation
    and value, its conversion to a packed 24-bit RGB integer, and the palette
    generator that walks the hue circle. */
module Color {

  // ---------------------------------------------------------------------------
  // Angles
  // ---------------------------------------------------------------------------

  /** Rounding toward zero, the quotient JavaScript's `%` is defined by. */
  function Trunc(x: real): (n: int)
    ensures x >= 0.0 ==> n as real <= x < n as real + 1.0
    ensures x < 0.0 ==> n as real - 1.0 < x <= n as real
  {
    if x >= 0.0 then x.Floor else -((-x).Floor)
  }

  /** `x` is a whole number of full turns. */
  predicate WholeTurns(x: real) {
    (x / 360.0).Floor as real == x / 360.0
  }

  /** JavaScript's `x % 360`: the remainder carries the sign of the dividend. */
  function Rem360(x: real): (r: real)
    ensures x >= 0.0 ==> 0.0 <= r < 360.0
    ensures x < 0.0 ==> -360.0 < r <= 0.0
    ensures WholeTurns(x - r)
  {
    var q := Trunc(x / 360.0) as real;
    assert x == 360.0 * (x / 360.0);
    assert (360.0 * q) / 360.0 == q && (q as int) as real == q;
    x - 360.0 * q
  }

  /** The angle in [0, 360) that `x` denotes: the floored remainder. */
  function Wrap(x: real): (r: real)
    ensures 0.0 <= r < 360.0
    ensures WholeTurns(x - r)
  {
    x - 360.0 * (x / 360.0).Floor as real
  }

  /** Angles a whole number of turns apart denote the same hue. */
  lemma WrapUnique(x: real, r: real)
    requires 0.0 <= r < 360.0 && WholeTurns(x - r)
    ensures Wrap(x) == r
  {
    var n := ((x - r) / 360.0).Floor;
    assert x / 360.0 == n as real + r / 360.0;
    assert (x / 360.0).Floor == n;
  }

  lemma WholeTurnsNeg(x: real)
    requires WholeTurns(x)
    ensures WholeTurns(-x)
  {
    var a := (x / 360.0).Floor;
    assert x / 360.0 == a as real;
    assert -x / 360.0 == (-a) as real;
    assert (-x / 360.0).Floor == -a;
  }

  lemma WholeTurnsAdd(x: real, y: real)
    requires WholeTurns(x) && WholeTurns(y)
    ensures WholeTurns(x + y)
  {
    var a, b := (x / 360.0).Floor, (y / 360.0).Floor;
    assert x / 360.0 == a as real && y / 360.0 == b as real;
    assert (x + y) / 360.0 == (a + b) as real;
    assert ((a + b) as real).Floor == a + b;
  }

  lemma WrapCongruent(x: real, y: real)
    requires WholeTurns(x - y)
    ensures Wrap(x) == Wrap(y)
  {
    WholeTurnsAdd(x - y, y - Wrap(y));
    WrapUnique(x, Wrap(y));
  }

  // ---------------------------------------------------------------------------
  // HSV values
  // ---------------------------------------------------------------------------

  /** An `HSV` object: hue in degrees, saturation and value in percent. */
  datatype Hsv = Hsv(h: real, s: real, v: real)

  predicate IsNormal(c: Hsv) {
    0.0 <= c.h < 360.0 && 0.0 <= c.s <= 100.0 && 0.0 <= c.v <= 100.0
  }

  /** `Math.max(0, Math.min(100, x))`. */
  function Clamp(x: real): real {
    var m := if x < 100.0 then x else 100.0;
    if 0.0 > m then 0.0 else m
  }

  /** The `HSV` constructor: the hue is reduced with `%` and, when negative,
      moved up by one turn; saturation and value are clamped to [0, 100]. */
  function NewHsv(h: real, s: real, v: real): (c: Hsv)
    ensures IsNormal(c)
    ensures c.h == Wrap(h)
    ensures 0.0 <= s <= 100.0 ==> c.s == s
    ensures s < 0.0 ==> c.s == 0.0
    ensures s > 100.0 ==> c.s == 100.0
    ensures 0.0 <= v <= 100.0 ==> c.v == v
    ensures v < 0.0 ==> c.v == 0.0
    ensures v > 100.0 ==> c.v == 100.0
  {
    var h1 := Rem360(h);
    var h2 := if h1 < 0.0 then Rem360(h1 + 360.0) else h1;
    WholeTurnsAdd(h - h1, h1 - h2);
    WrapUnique(h, h2);
    Hsv(h2, Clamp(s), Clamp(v))
  }

  /** Constructing again from an HSV object's own fields changes nothing. */
  lemma NewHsvIdempotent(h: real, s: real, v: real)
    ensures var c := NewHsv(h, s, v); NewHsv(c.h, c.s, c.v) == c
  {
    var c := NewHsv(h, s, v);
    WrapUnique(c.h, c.h);
  }

  // ---------------------------------------------------------------------------
  // Conversion to RGB
  // ---------------------------------------------------------------------------

  /** The three channels before flooring. */
  datatype Rgb = Rgb(r: real, g: real, b: real)

  /** `max` in `toRGB`: the brightest channel. */
  function Top(c: Hsv): real {
    c.v / 100.0 * 255.0
  }

  /** `min` in `toRGB`: the darkest channel. */
  function Bottom(c: Hsv): real {
    Top(c) - c.s / 100.0 * Top(c)
  }

  /** `t * (max - min) + min`, the in-between channel of a sector. */
  function Ramp(t: real, lo: real, hi: real): real {
    t * (hi - lo) + lo
  }

  /** The six hue sectors of `toRGB`, before flooring: in each, one channel is
      max and one is min. */
  function Channels(c: Hsv): (rgb: Rgb)
    ensures rgb.r == Top(c) || rgb.g == Top(c) || rgb.b == Top(c)
    ensures rgb.r == Bottom(c) || rgb.g == Bottom(c) || rgb.b == Bottom(c)
  {
    var max, min := Top(c), Bottom(c);
    if c.h < 60.0 then Rgb(max, Ramp(c.h / 60.0, min, max), min)
    else if c.h < 120.0 then Rgb(Ramp((120.0 - c.h) / 60.0, min, max), max, min)
    else if c.h < 180.0 then Rgb(min, max, Ramp((c.h - 120.0) / 60.0, min, max))
    else if c.h < 240.0 then Rgb(min, Ramp((240.0 - c.h) / 60.0, min, max), max)
    else if c.h < 300.0 then Rgb(Ramp((c.h - 240.0) / 60.0, min, max), min, max)
    else Rgb(max, min, Ramp((360.0 - c.h) / 60.0, min, max))
  }

  lemma ScaleBelow(t: real, x: real)
    requires 0.0 <= t <= 1.0 && 0.0 <= x
    ensures 0.0 <= t * x <= x
  {
    assert (1.0 - t) * x >= 0.0;
  }

  /** A ramp with 0 <= t <= 1 stays between its ends, and meets them at 0 and 1. */
  lemma RampBetween(t: real, lo: real, hi: real)
    requires 0.0 <= t <= 1.0 && lo <= hi
    ensures lo <= Ramp(t, lo, hi) <= hi
    ensures t == 0.0 ==> Ramp(t, lo, hi) == lo
    ensures t == 1.0 ==> Ramp(t, lo, hi) == hi
  {
    ScaleBelow(t, hi - lo);
  }

  /** Strictly inside its ends when 0 < t < 1 and the ends differ. */
  lemma RampStrict(t: real, lo: real, hi: real)
    requires 0.0 <= t <= 1.0 && lo < hi
    ensures t < 1.0 ==> Ramp(t, lo, hi) < hi
    ensures t > 0.0 ==> Ramp(t, lo, hi) > lo
  {
    if t < 1.0 {
      PositiveProduct(1.0 - t, hi - lo, hi - Ramp(t, lo, hi));
    }
    if t > 0.0 {
      PositiveProduct(t, hi - lo, Ramp(t, lo, hi) - lo);
    }
  }

  lemma PositiveProduct(x: real, y: real, p: real)
    requires x > 0.0 && y > 0.0 && p == x * y
    ensures p > 0.0
  {
  }

  /** 0 <= min <= max <= 255 for every normal HSV value. */
  lemma TopBottomRange(c: Hsv)
    requires IsNormal(c)
    ensures 0.0 <= Bottom(c) <= Top(c) <= 255.0
  {
    ScaleBelow(c.s / 100.0, Top(c));
  }

  /** The channels lie in [min, max]; one of them is max and one is min. */
  predicate Spans(rgb: Rgb, lo: real, hi: real) {
    && lo <= rgb.r <= hi && lo <= rgb.g <= hi && lo <= rgb.b <= hi
    && (rgb.r == hi || rgb.g == hi || rgb.b == hi)
    && (rgb.r == lo || rgb.g == lo || rgb.b == lo)
  }

  /** In every hue sector one channel is max, one is min, and the third lies
      between them; so every channel is in [0, 255]. */
  lemma ChannelsSpan(c: Hsv)
    requires IsNormal(c)
    ensures Spans(Channels(c), Bottom(c), Top(c))
    ensures var rgb := Channels(c); 0.0 <= rgb.r <= 255.0 && 0.0 <= rgb.g <= 255.0 && 0.0 <= rgb.b <= 255.0
  {
    TopBottomRange(c);
    var max, min := Top(c), Bottom(c);
    if c.h < 60.0 {
      RampBetween(c.h / 60.0, min, max);
    } else if c.h < 120.0 {
      RampBetween((120.0 - c.h) / 60.0, min, max);
    } else if c.h < 180.0 {
      RampBetween((c.h - 120.0) / 60.0, min, max);
    } else if c.h < 240.0 {
      RampBetween((240.0 - c.h) / 60.0, min, max);
    } else if c.h < 300.0 {
      RampBetween((c.h - 240.0) / 60.0, min, max);
    } else {
      RampBetween((360.0 - c.h) / 60.0, min, max);
    }
  }

  /** With no saturation every hue gives a grey: all channels equal max. */
  lemma GreyWithoutSaturation(c: Hsv)
    requires c.s == 0.0
    ensures Channels(c) == Rgb(Top(c), Top(c), Top(c))
  {
  }

  // The inverse conversion, used as an independent reference for `Channels`.

  function Max3(a: real, b: real, c: real): real {
    if a >= b && a >= c then a else if b >= c then b else c
  }

  function Min3(a: real, b: real, c: real): real {
    if a <= b && a <= c then a else if b <= c then b else c
  }

  /** The usual RGB-to-HSV conversion: the hue from the brightest channel and
      the other two, the saturation from the spread, the value from max. */
  function ToHsv(rgb: Rgb): Hsv {
    var mx := Max3(rgb.r, rgb.g, rgb.b);
    var mn := Min3(rgb.r, rgb.g, rgb.b);
    var h :=
      if mx == mn then 0.0
      else if mx == rgb.r then Wrap(60.0 * ((rgb.g - rgb.b) / (mx - mn)))
      else if mx == rgb.g then 60.0 * ((rgb.b - rgb.r) / (mx - mn) + 2.0)
      else 60.0 * ((rgb.r - rgb.g) / (mx - mn) + 4.0);
    var s := if mx == 0.0 then 0.0 else (mx - mn) / mx * 100.0;
    Hsv(h, s, mx / 255.0 * 100.0)
  }

  lemma Recover(t: real, lo: real, hi: real)
    requires lo < hi
    ensures (Ramp(t, lo, hi) - lo) / (hi - lo) == t
    ensures (lo - Ramp(t, lo, hi)) / (hi - lo) == -t
  {
    assert (-t) * (hi - lo) == lo - Ramp(t, lo, hi);
  }

  lemma SpreadRatio(s: real, top: real, bottom: real)
    requires top != 0.0 && bottom == top - s / 100.0 * top
    ensures (top - bottom) / top * 100.0 == s
  {
  }

  /** Converting back recovers the value; with a nonzero value it recovers the
      saturation; with both nonzero it recovers the hue. Before flooring, the
      conversion loses nothing that HSV can represent. */
  lemma ChannelsRoundTrip(c: Hsv)
    requires IsNormal(c)
    ensures ToHsv(Channels(c)).v == c.v
    ensures c.v > 0.0 ==> ToHsv(Channels(c)).s == c.s
    ensures c.v > 0.0 && c.s > 0.0 ==> ToHsv(Channels(c)).h == c.h
  {
    ChannelsSpan(c);
    var rgb := Channels(c);
    var max, min := Top(c), Bottom(c);
    assert Max3(rgb.r, rgb.g, rgb.b) == max;
    assert Min3(rgb.r, rgb.g, rgb.b) == min;
    if c.v > 0.0 {
      SpreadRatio(c.s, max, min);
    }
    if c.v > 0.0 && c.s > 0.0 {
      assert min < max by {
        assert c.s / 100.0 * max > 0.0;
      }
      RoundTripHue(c);
    }
  }

  lemma RoundTripHue(c: Hsv)
    requires IsNormal(c) && Bottom(c) < Top(c)
    ensures ToHsv(Channels(c)).h == c.h
  {
    var max, min := Top(c), Bottom(c);
    if c.h < 60.0 {
      HueOfSector0(c.h / 60.0, min, max);
    } else if c.h < 120.0 {
      HueOfSector1((120.0 - c.h) / 60.0, min, max);
    } else if c.h < 180.0 {
      HueOfSector2((c.h - 120.0) / 60.0, min, max);
    } else if c.h < 240.0 {
      HueOfSector3((240.0 - c.h) / 60.0, min, max);
    } else if c.h < 300.0 {
      HueOfSector4((c.h - 240.0) / 60.0, min, max);
    } else {
      HueOfSector5((360.0 - c.h) / 60.0, min, max);
    }
  }

  // One lemma per sector of `toRGB`: the inverse reads the hue back from the ramp.

  lemma HueOfSector0(t: real, lo: real, hi: real)
    requires lo < hi && 0.0 <= t < 1.0
    ensures ToHsv(Rgb(hi, Ramp(t, lo, hi), lo)).h == 60.0 * t
  {
    RampBetween(t, lo, hi);
    RampStrict(t, lo, hi);
    Recover(t, lo, hi);
    WrapUnique(60.0 * t, 60.0 * t);
  }

  lemma HueOfSector1(t: real, lo: real, hi: real)
    requires lo < hi && 0.0 < t <= 1.0
    ensures ToHsv(Rgb(Ramp(t, lo, hi), hi, lo)).h == 120.0 - 60.0 * t
  {
    RampBetween(t, lo, hi);
    RampStrict(t, lo, hi);
    Recover(t, lo, hi);
    if t == 1.0 {
      assert Rgb(Ramp(t, lo, hi), hi, lo) == Rgb(hi, hi, lo);
      assert (hi - lo) / (hi - lo) == 1.0;
      WrapUnique(60.0, 60.0);
    }
  }

  lemma HueOfSector2(t: real, lo: real, hi: real)
    requires lo < hi && 0.0 <= t < 1.0
    ensures ToHsv(Rgb(lo, hi, Ramp(t, lo, hi))).h == 120.0 + 60.0 * t
  {
    RampBetween(t, lo, hi);
    RampStrict(t, lo, hi);
    Recover(t, lo, hi);
  }

  lemma HueOfSector3(t: real, lo: real, hi: real)
    requires lo < hi && 0.0 < t <= 1.0
    ensures ToHsv(Rgb(lo, Ramp(t, lo, hi), hi)).h == 240.0 - 60.0 * t
  {
    RampBetween(t, lo, hi);
    RampStrict(t, lo, hi);
    Recover(t, lo, hi);
    if t == 1.0 {
      assert Rgb(lo, Ramp(t, lo, hi), hi) == Rgb(lo, hi, hi);
      assert (hi - lo) / (hi - lo) == 1.0;
    }
  }

  lemma HueOfSector4(t: real, lo: real, hi: real)
    requires lo < hi && 0.0 <= t < 1.0
    ensures ToHsv(Rgb(Ramp(t, lo, hi), lo, hi)).h == 240.0 + 60.0 * t
  {
    RampBetween(t, lo, hi);
    RampStrict(t, lo, hi);
    Recover(t, lo, hi);
  }

  lemma HueOfSector5(t: real, lo: real, hi: real)
    requires lo < hi && 0.0 < t <= 1.0
    ensures ToHsv(Rgb(hi, lo, Ramp(t, lo, hi))).h == 360.0 - 60.0 * t
  {
    RampBetween(t, lo, hi);
    RampStrict(t, lo, hi);
    Recover(t, lo, hi);
    WrapUnique(60.0 * -t, 360.0 - 60.0 * t);
  }

  /** Splits a packed colour into its red, green and blue bytes. */
  function Unpack(packed: int): (int, int, int) {
    (packed / 65536, packed / 256 % 256, packed % 256)
  }

  /** `toRGB`: floors the three channels and packs them as r*16^4 + g*16^2 + b.
      For an `HSV` object the result is a 24-bit integer whose bytes are the
      floored channels. */
  function ToRgb(c: Hsv): (packed: int)
    ensures IsNormal(c) ==> 0 <= packed <= 0xFF_FFFF
    ensures IsNormal(c) ==> var rgb := Channels(c); Unpack(packed) == (rgb.r.Floor, rgb.g.Floor, rgb.b.Floor)
    ensures IsNormal(c) ==> var (r, g, b) := Unpack(packed); 0 <= r < 256 && 0 <= g < 256 && 0 <= b < 256
  {
    var rgb := Channels(c);
    var r, g, b := rgb.r.Floor, rgb.g.Floor, rgb.b.Floor;
    assert IsNormal(c) ==> 0 <= r < 256 && 0 <= g < 256 && 0 <= b < 256 by {
      if IsNormal(c) {
        ChannelsSpan(c);
      }
    }
    assert IsNormal(c) ==> Unpack(r * 65536 + g * 256 + b) == (r, g, b) && 0 <= r * 65536 + g * 256 + b <= 0xFF_FFFF by {
      if IsNormal(c) {
        BytesUnpack(r, g, b);
      }
    }
    r * 65536 + g * 256 + b
  }

  lemma BytesUnpack(r: int, g: int, b: int)
    requires 0 <= r < 256 && 0 <= g < 256 && 0 <= b < 256
    ensures 0 <= r * 65536 + g * 256 + b <= 0xFF_FFFF
    ensures Unpack(r * 65536 + g * 256 + b) == (r, g, b)
  {
    var x := r * 65536 + g * 256 + b;
    assert x / 256 == r * 256 + g;
    assert (r * 256 + g) % 256 == g;
    assert x / 65536 == r;
  }

  // ---------------------------------------------------------------------------
  // The palette generator
  // ---------------------------------------------------------------------------

  /** The hue step taken by the k-th later colour: 150 at every sixth, 180 at
      every other third, 120 otherwise. */
  function HueIncrement(k: nat): real {
    if k % 6 == 0 then 150.0 else if k % 3 == 0 then 180.0 else 120.0
  }

  /** The raw hue variable `h` after k steps of the generator: after the first
      step always a remainder of `% 360`. */
  function PaletteHue(initH: real, k: nat): (h: real)
    ensures k > 0 ==> -360.0 < h < 360.0
  {
    if k == 0 then initH else Rem360(PaletteHue(initH, k - 1) + HueIncrement(k))
  }

  /** The sum of the first k hue steps. */
  function Increments(k: nat): real {
    if k == 0 then 0.0 else Increments(k - 1) + HueIncrement(k)
  }

  /** The steps in closed form: 120 each, 60 more at every third, 30 less at
      every sixth. */
  lemma {:induction false} IncrementsClosedForm(k: nat)
    ensures Increments(k) == 120.0 * k as real + 60.0 * (k / 3) as real - 30.0 * (k / 6) as real
  {
    if k > 0 {
      IncrementsClosedForm(k - 1);
      var p3, p6 := if k % 3 == 0 then 1 else 0, if k % 6 == 0 then 1 else 0;
      DivisionStep(k, 3);
      DivisionStep(k, 6);
      HueIncrementCounts(k);
      ClosedFormStep(Increments(k - 1), k, (k - 1) / 3, (k - 1) / 6, p3, p6);
    }
  }

  /** Each step is 120, plus 60 at a multiple of 3, minus 30 at a multiple of 6. */
  lemma HueIncrementCounts(k: nat)
    ensures HueIncrement(k)
         == (120 + 60 * (if k % 3 == 0 then 1 else 0) - 30 * (if k % 6 == 0 then 1 else 0)) as real
  {
    if k % 6 == 0 {
      assert k == 6 * (k / 6);
      assert k % 3 == 0;
    }
  }

  lemma ClosedFormStep(x: real, k: int, a: int, b: int, p3: int, p6: int)
    requires x == 120.0 * (k - 1) as real + 60.0 * a as real - 30.0 * b as real
    ensures x + (120 + 60 * p3 - 30 * p6) as real
         == 120.0 * k as real + 60.0 * (a + p3) as real - 30.0 * (b + p6) as real
  {
  }

  /** Counting the multiples of d: one more exactly when k is one. */
  lemma DivisionStep(k: nat, d: nat)
    requires k > 0 && (d == 3 || d == 6)
    ensures k / d == (k - 1) / d + (if k % d == 0 then 1 else 0)
  {
  }

  /** The k-th colour's hue is the initial hue plus the first k steps, wrapped. */
  lemma {:induction false} PaletteHueIsSum(initH: real, k: nat)
    ensures WholeTurns(PaletteHue(initH, k) - (initH + Increments(k)))
    ensures Wrap(PaletteHue(initH, k)) == Wrap(initH + Increments(k))
  {
    if k == 0 {
      assert PaletteHue(initH, k) - (initH + Increments(k)) == 0.0;
    } else {
      PaletteHueIsSum(initH, k - 1);
      var prev := PaletteHue(initH, k - 1) + HueIncrement(k);
      WholeTurnsNeg(prev - PaletteHue(initH, k));
      WholeTurnsAdd(PaletteHue(initH, k) - prev,
                    PaletteHue(initH, k - 1) - (initH + Increments(k - 1)));
    }
    WrapCongruent(PaletteHue(initH, k), initH + Increments(k));
  }

  /** Started on the circle, the raw hue never leaves [0, 360). */
  lemma {:induction false} PaletteHueInRange(initH: real, k: nat)
    requires 0.0 <= initH < 360.0
    ensures 0.0 <= PaletteHue(initH, k) < 360.0
  {
    if k > 0 {
      PaletteHueInRange(initH, k - 1);
    }
  }

  /** Six steps add 810 degrees: two full turns and a quarter. */
  lemma {:induction false} IncrementsOverSix(k: nat)
    ensures Increments(k + 6) == Increments(k) + 810.0
  {
    if k == 0 {
      assert Increments(6) == 810.0 by {
        assert Increments(1) == 120.0;
        assert Increments(2) == 240.0;
        assert Increments(3) == 420.0;
        assert Increments(4) == 540.0;
        assert Increments(5) == 660.0;
      }
    } else {
      IncrementsOverSix(k - 1);
      assert (k + 6) % 6 == k % 6;
      assert HueIncrement(k + 6) == HueIncrement(k);
    }
  }

  /** The palette's colours repeat with period 24: four quarter turns. */
  lemma PaletteRepeats(initH: real, k: nat)
    ensures Wrap(PaletteHue(initH, k + 24)) == Wrap(PaletteHue(initH, k))
  {
    IncrementsOverSix(k);
    IncrementsOverSix(k + 6);
    IncrementsOverSix(k + 12);
    IncrementsOverSix(k + 18);
    PaletteHueIsSum(initH, k);
    PaletteHueIsSum(initH, k + 24);
    assert WholeTurns((initH + Increments(k + 24)) - (initH + Increments(k)));
    WrapCongruent(initH + Increments(k + 24), initH + Increments(k));
  }

  /** The `HSV_palette` generator: `count` and `h` are its locals, `started`
      records whether the first colour has been produced. */
  class HsvPalette {
    const initH: real
    const s: real
    const v: real
    var started: bool
    var count: nat
    var h: real

    ghost predicate Valid()
      reads this
    {
      h == PaletteHue(initH, count) && (!started ==> count == 0)
    }

    constructor (initH: real, s: real, v: real)
      ensures Valid() && !started
      ensures this.initH == initH && this.s == s && this.v == v
    {
      this.initH := initH;
      this.s := s;
      this.v := v;
      started := false;
      count := 0;
      h := initH;
    }

    /** One `next()`: the first call yields the initial hue; every later call
        steps the hue and yields the new colour. */
    method Next() returns (c: Hsv)
      requires Valid()
      modifies this
      ensures Valid() && started
      ensures c == NewHsv(h, s, v)
      ensures c.h == Wrap(initH + Increments(count))
      ensures !old(started) ==> count == 0 && h == initH
      ensures old(started) ==> count == old(count) + 1
    {
      if !started {
        started := true;
      } else {
        var d1 := 120.0;
        var d2 := 30.0;
        count := count + 1;
        if count % 3 == 0 {
          d1 := 180.0;
        }
        if count % 6 == 0 {
          d1 := 180.0 - d2;
          d2 := d2 / 2.0;
        }
        h := Rem360(h + d1);
      }
      c := NewHsv(h, s, v);
      PaletteHueIsSum(initH, count);
    }
  }
}
