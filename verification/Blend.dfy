/** Blending one pixel over another (core/src/blend.cpp), with channel values as reals. How two colours
    mix in each mode is a parameter. */
module Blend {
  import opened Bytes

  datatype Pixel = Pixel(r: u8, g: u8, b: u8, a: u8)

  const CLEAR := Pixel(0, 0, 0, 0)

  datatype BlendMode = Erase | Paint(code: nat)

  datatype Rgb = Rgb(r: real, g: real, b: real)

  /** `blendChannel` and `nonSeparable`: backdrop and source colour to mixed colour. */
  type Mix = (BlendMode, Rgb, Rgb) -> Rgb

  function Clamp01(v: real): (c: real)
    ensures 0.0 <= c <= 1.0 && (0.0 <= v <= 1.0 ==> c == v)
  {
    if v < 0.0 then 0.0 else if v > 1.0 then 1.0 else v
  }

  function FromU8(v: u8): real { v as real / 255.0 }

  function ToU8(v: real): u8 { (Clamp01(v) * 255.0 + 0.5).Floor }

  lemma RoundTrip(v: u8)
    ensures ToU8(FromU8(v)) == v && 0.0 <= FromU8(v) <= 1.0
  {
    assert FromU8(v) * 255.0 == v as real;
  }

  function Colour(p: Pixel): Rgb { Rgb(FromU8(p.r), FromU8(p.g), FromU8(p.b)) }

  /** One channel of the mixed colour over the backdrop. */
  function Channel(cb: real, cs: real, b: real, ab: real, alpha: real, ao: real): real
    requires ao > 0.0
  {
    Clamp01(((1.0 - ab) * alpha * cs + ab * alpha * b + (1.0 - alpha) * ab * cb) / ao)
  }

  /** Alpha of the source at a strength. */
  function Alpha(a: u8, extra: real): real { FromU8(a) * Clamp01(extra) }

  /** What stays of the backdrop's alpha. */
  function Kept(ab: real, alpha: real): real { ab * (1.0 - alpha) }

  /** Alpha of the result of painting. */
  function Joined(alpha: real, ab: real): real { alpha + Kept(ab, alpha) }

  /** Blending once the alphas are known: `alpha` of the source, `ab` of the backdrop. */
  function BlendAt(mix: Mix, m: BlendMode, d: Pixel, s: Pixel, alpha: real, ab: real): Pixel {
    if m == Erase then d.(r := ToU8(FromU8(d.r)), g := ToU8(FromU8(d.g)), b := ToU8(FromU8(d.b)),
        a := ToU8(Kept(ab, alpha)))
    else if alpha <= 0.0 then Pixel(ToU8(FromU8(d.r)), ToU8(FromU8(d.g)), ToU8(FromU8(d.b)), ToU8(ab))
    else
      var b := mix(m, Colour(d), Colour(s));
      var ao := Joined(alpha, ab);
      if ao <= 0.0 then CLEAR
      else Pixel(ToU8(Channel(FromU8(d.r), FromU8(s.r), b.r, ab, alpha, ao)),
                 ToU8(Channel(FromU8(d.g), FromU8(s.g), b.g, ab, alpha, ao)),
                 ToU8(Channel(FromU8(d.b), FromU8(s.b), b.b, ab, alpha, ao)), ToU8(ao))
  }

  /** `blendPixel8`: `extra` is the layer's opacity times the mask. */
  function BlendPixel8(mix: Mix, m: BlendMode, d: Pixel, s: Pixel, extra: real): Pixel {
    BlendAt(mix, m, d, s, Alpha(s.a, extra), FromU8(d.a))
  }

  /** A transparent source, or one at no opacity, changes nothing in any mode. */
  lemma BlendNothing(mix: Mix, m: BlendMode, d: Pixel, s: Pixel, extra: real)
    requires s.a == 0 || extra <= 0.0
    ensures BlendPixel8(mix, m, d, s, extra) == d
  {
    hide ToU8, Channel;
    RoundTrip(d.r);
    RoundTrip(d.g);
    RoundTrip(d.b);
    RoundTrip(d.a);
    NoAlpha(s.a, extra);
  }

  lemma NoAlpha(a: u8, extra: real)
    requires a == 0 || extra <= 0.0
    ensures Alpha(a, extra) == 0.0
  {
  }

  /** The strength of a source pixel under a mask value. */
  function Strength(opacity: real, mask: u8): real { Clamp01(opacity) * FromU8(mask) }

  /** One pixel of `blendRowRgba8`, with its two shortcuts. */
  function Over(mix: Mix, m: BlendMode, d: Pixel, s: Pixel, extra: real): Pixel {
    if extra <= 0.0 then d
    else if s.a == 0 && m != Erase then d
    else BlendPixel8(mix, m, d, s, extra)
  }

  /** The shortcuts are invisible. */
  lemma OverIsBlend(mix: Mix, m: BlendMode, d: Pixel, s: Pixel, extra: real)
    ensures Over(mix, m, d, s, extra) == BlendPixel8(mix, m, d, s, extra)
  {
    hide BlendPixel8;
    if s.a == 0 || extra <= 0.0 { BlendNothing(mix, m, d, s, extra); }
  }

  // ---- what blending means ---------------------------------------------------------------------------

  /** `v` is the byte nearest to `255 * part / whole`, as far as bytes go. */
  predicate Nearest(v: u8, part: real, whole: real) {
    && (v > 0 ==> (2 * v - 1) as real * whole <= 510.0 * part)
    && (v < 255 ==> 510.0 * part < (2 * v + 1) as real * whole)
  }

  function Share(v: u8): real { v as real / 255.0 }

  function Colours(p: Pixel): Rgb { Rgb(Share(p.r), Share(p.g), Share(p.b)) }

  /** How much a source pixel covers at a strength. */
  function Reach(a: u8, strength: real): real { Share(a) * strength }

  /** The part of the backdrop's alpha that an eraser lets through. */
  function Left(ab: real, alpha: real): real { ab * (1.0 - alpha) }

  /** What either covers. */
  function Cover(ab: real, alpha: real): real { 1.0 - (1.0 - ab) * (1.0 - alpha) }

  /** Light of one channel that the painted pixel holds: where the source lies, its own colour counts by as
      much as nothing was there, the mixed one by as much as something was; elsewhere the backdrop stays. */
  function Light(cb: real, cs: real, b: real, ab: real, alpha: real): real {
    alpha * ((1.0 - ab) * cs + ab * b) + (1.0 - alpha) * (ab * cb)
  }

  /** What `s` over `d` must give. Erasing keeps the colour and leaves the part of the alpha that the source
      lets through. Painting covers what either pixel covers, and the colour is the light for that much
      cover. */
  predicate BlendedAt(mix: Mix, m: BlendMode, d: Pixel, s: Pixel, alpha: real, ab: real, r: Pixel) {
    if m == Erase then r == d.(a := r.a) && Nearest(r.a, Left(ab, alpha), 1.0)
    else if alpha == 0.0 then r == d
    else
      var b := mix(m, Colours(d), Colours(s));
      && Nearest(r.a, Cover(ab, alpha), 1.0)
      && Nearest(r.r, Light(Share(d.r), Share(s.r), b.r, ab, alpha), Cover(ab, alpha))
      && Nearest(r.g, Light(Share(d.g), Share(s.g), b.g, ab, alpha), Cover(ab, alpha))
      && Nearest(r.b, Light(Share(d.b), Share(s.b), b.b, ab, alpha), Cover(ab, alpha))
  }

  /** The same at a strength between 0 and 1. */
  predicate Blended(mix: Mix, m: BlendMode, d: Pixel, s: Pixel, strength: real, r: Pixel) {
    BlendedAt(mix, m, d, s, Reach(s.a, strength), Share(d.a), r)
  }

  lemma ByteIsNearest(v: real)
    ensures Nearest(ToU8(v), v, 1.0)
  {
  }

  lemma NearestOf(v: u8, q: real, part: real, whole: real)
    requires Nearest(v, q, 1.0) && q * whole == part && whole > 0.0
    ensures Nearest(v, part, whole)
  {
    Scale(q, part, whole);
    if v > 0 { Stretch((2 * v - 1) as real, 510.0 * q, whole); }
    if v < 255 { StretchLess(510.0 * q, (2 * v + 1) as real, whole); }
  }

  lemma Scale(q: real, part: real, whole: real)
    requires q * whole == part
    ensures (510.0 * q) * whole == 510.0 * part
  {
  }

  lemma Stretch(x: real, y: real, w: real)
    requires x <= y && w >= 0.0
    ensures x * w <= y * w
  {
    Times(y - x, w);
  }

  lemma StretchLess(x: real, y: real, w: real)
    requires x < y && w > 0.0
    ensures x * w < y * w
  {
    TimesLess(y - x, w);
  }

  lemma Times(x: real, w: real)
    requires x >= 0.0 && w >= 0.0
    ensures x * w >= 0.0
  {
  }

  lemma TimesLess(x: real, w: real)
    requires x > 0.0 && w > 0.0
    ensures x * w > 0.0
  {
  }

  lemma ClampedNearest(v: u8, q: real)
    requires Nearest(v, Clamp01(q), 1.0)
    ensures Nearest(v, q, 1.0)
  {
  }

  lemma ChannelIsLight(cb: real, cs: real, b: real, ab: real, alpha: real, ao: real)
    requires ao > 0.0
    ensures Nearest(ToU8(Channel(cb, cs, b, ab, alpha, ao)), Light(cb, cs, b, ab, alpha), ao)
  {
    hide Nearest, ToU8, Light;
    var sum := (1.0 - ab) * alpha * cs + ab * alpha * b + (1.0 - alpha) * ab * cb;
    SumIsLight(cb, cs, b, ab, alpha);
    Divides(sum, ao);
    ByteIsNearest(Channel(cb, cs, b, ab, alpha, ao));
    ClampedNearest(ToU8(Channel(cb, cs, b, ab, alpha, ao)), sum / ao);
    NearestOf(ToU8(Channel(cb, cs, b, ab, alpha, ao)), sum / ao, sum, ao);
  }

  lemma Divides(a: real, b: real)
    requires b > 0.0
    ensures a / b * b == a
  {
  }

  lemma SumIsLight(cb: real, cs: real, b: real, ab: real, alpha: real)
    ensures (1.0 - ab) * alpha * cs + ab * alpha * b + (1.0 - alpha) * ab * cb == Light(cb, cs, b, ab, alpha)
  {
    assert (1.0 - ab) * alpha * cs == alpha * ((1.0 - ab) * cs);
    assert ab * alpha * b == alpha * (ab * b);
  }

  lemma Covers(ab: real, alpha: real)
    requires 0.0 <= alpha <= 1.0 && 0.0 <= ab <= 1.0
    ensures Joined(alpha, ab) == Cover(ab, alpha) && alpha <= Cover(ab, alpha) <= 1.0
  {
    Times(ab, 1.0 - alpha);
    Times(1.0 - ab, 1.0 - alpha);
  }

  lemma AlphaIs(a: u8, strength: real)
    requires 0.0 <= strength <= 1.0
    ensures FromU8(a) == Share(a) && 0.0 <= Share(a) <= 1.0
    ensures 0.0 <= Alpha(a, strength) == Reach(a, strength) <= 1.0
  {
  }

  lemma BlendAtMeans(mix: Mix, m: BlendMode, d: Pixel, s: Pixel, alpha: real, ab: real)
    requires 0.0 <= alpha <= 1.0 && ab == FromU8(d.a)
    ensures BlendedAt(mix, m, d, s, alpha, ab, BlendAt(mix, m, d, s, alpha, ab))
  {
    hide Nearest, ToU8, Channel, Light, Cover, Left, Joined, Kept;
    Restored(d);
    if m == Erase {
      ErasedByte(ab, alpha);
    } else if alpha > 0.0 {
      var b, ao := mix(m, Colours(d), Colours(s)), Joined(alpha, ab);
      Covers(ab, alpha);
      ByteIsNearest(ao);
      ChannelIsLight(FromU8(d.r), FromU8(s.r), b.r, ab, alpha, ao);
      ChannelIsLight(FromU8(d.g), FromU8(s.g), b.g, ab, alpha, ao);
      ChannelIsLight(FromU8(d.b), FromU8(s.b), b.b, ab, alpha, ao);
    }
  }

  lemma Restored(d: Pixel)
    ensures Pixel(ToU8(FromU8(d.r)), ToU8(FromU8(d.g)), ToU8(FromU8(d.b)), ToU8(FromU8(d.a))) == d
  {
    hide ToU8, FromU8;
    RoundTrip(d.r);
    RoundTrip(d.g);
    RoundTrip(d.b);
    RoundTrip(d.a);
  }

  lemma ErasedByte(ab: real, alpha: real)
    ensures Nearest(ToU8(Kept(ab, alpha)), Left(ab, alpha), 1.0)
  {
    hide Nearest, ToU8;
    ByteIsNearest(Left(ab, alpha));
  }

  /** The pixel blend means what it should. */
  lemma BlendMeans(mix: Mix, m: BlendMode, d: Pixel, s: Pixel, strength: real)
    requires 0.0 <= strength <= 1.0
    ensures Blended(mix, m, d, s, strength, BlendPixel8(mix, m, d, s, strength))
  {
    hide BlendAt, BlendedAt, FromU8, Share, Alpha, Reach;
    AlphaIs(s.a, strength);
    AlphaIs(d.a, strength);
    BlendAtMeans(mix, m, d, s, Reach(s.a, strength), Share(d.a));
  }

  lemma OverMeans(mix: Mix, m: BlendMode, d: Pixel, s: Pixel, strength: real)
    requires 0.0 <= strength <= 1.0
    ensures Blended(mix, m, d, s, strength, Over(mix, m, d, s, strength))
  {
    hide Over, BlendPixel8, Blended;
    OverIsBlend(mix, m, d, s, strength);
    BlendMeans(mix, m, d, s, strength);
  }

  /** The strength is the mask's share of the opacity, which is taken to lie between 0 and 1. */
  lemma StrengthIs(opacity: real, mask: u8)
    ensures 0.0 <= Strength(opacity, mask) <= 1.0
    ensures 255.0 * Strength(opacity, mask) ==
            if opacity <= 0.0 then 0.0 else if opacity >= 1.0 then mask as real else opacity * mask as real
  {
  }

  /** An opaque eraser at full strength leaves nothing; at full strength what stays is the byte nearest
      to the product. */
  lemma Erased(mix: Mix, d: Pixel, s: Pixel, r: Pixel)
    requires Blended(mix, Erase, d, s, 1.0, r)
    ensures r.r == d.r && r.g == d.g && r.b == d.b
    ensures -255 <= 2 * (255 * r.a - d.a * (255 - s.a)) <= 255
    ensures s.a == 255 ==> r.a == 0
    ensures s.a == 0 ==> r == d
  {
    hide Nearest, Share, Left, Reach;
    FullStrength(s.a);
    Product(d.a, s.a);
    Within(d.a, s.a);
    NearestProduct(r.a, Left(Share(d.a), Share(s.a)), d.a * (255 - s.a));
  }

  lemma FullStrength(a: u8)
    ensures Reach(a, 1.0) == Share(a)
  {
  }

  lemma Within(a: u8, b: u8)
    ensures 0 <= a * (255 - b) <= 65025
    ensures b == 255 ==> a * (255 - b) == 0
    ensures b == 0 ==> a * (255 - b) == 255 * a
  {
    Scaled(a, 255 - b);
  }

  lemma Scaled(a: nat, b: nat)
    requires a <= 255 && b <= 255
    ensures 0 <= a * b <= 65025
  {
    assert a * b <= 255 * b;
  }

  lemma NearestProduct(v: u8, part: real, k: int)
    requires Nearest(v, part, 1.0) && 65025.0 * part == k as real && 0 <= k <= 65025
    ensures -255 <= 2 * (255 * v - k) <= 255
  {
  }

  lemma NearestMono(v: u8, v': u8, part: real, part': real)
    requires Nearest(v, part, 1.0) && Nearest(v', part', 1.0) && part' <= part
    ensures v' <= v
  {
  }

  lemma Product(a: u8, b: u8)
    ensures 65025.0 * Left(Share(a), Share(b)) == (a * (255 - b)) as real
  {
    var x, y := Share(a), 1.0 - Share(b);
    assert 255.0 * x == a as real && 255.0 * y == (255 - b) as real;
    Both(x, y, a, 255 - b);
  }

  lemma Both(x: real, y: real, a: int, b: int)
    requires 255.0 * x == a as real && 255.0 * y == b as real
    ensures 65025.0 * (x * y) == (a * b) as real
  {
    assert (255.0 * x) * (255.0 * y) == 65025.0 * (x * y);
  }

  /** The stronger the eraser, the less stays. */
  lemma ErasesMore(mix: Mix, d: Pixel, s: Pixel, s': Pixel, t: real, t': real, r: Pixel, r': Pixel)
    requires 0.0 <= t <= t' <= 1.0 && s.a <= s'.a
    requires Blended(mix, Erase, d, s, t, r) && Blended(mix, Erase, d, s', t', r')
    ensures r'.a <= r.a
  {
    hide Nearest, Share, Left, Reach;
    var ab, alpha, alpha' := Share(d.a), Reach(s.a, t), Reach(s'.a, t');
    Stronger(s.a, s'.a, t, t');
    LessLeft(d.a, alpha, alpha');
    NearestMono(r.a, r'.a, Left(ab, alpha), Left(ab, alpha'));
  }

  lemma LessLeft(a: u8, alpha: real, alpha': real)
    requires alpha <= alpha'
    ensures Left(Share(a), alpha') <= Left(Share(a), alpha)
  {
    Stretch(1.0 - alpha', 1.0 - alpha, Share(a));
  }

  lemma Stronger(a: u8, b: u8, t: real, t': real)
    requires 0.0 <= t <= t' && a <= b
    ensures Reach(a, t) <= Reach(b, t')
  {
    Stretch(Share(a), Share(b), t);
    Stretch(t, t', Share(b));
  }

  lemma Exact(v: u8, w: u8, part: real, whole: real)
    requires whole > 0.0 && part == whole * Share(w) && Nearest(v, part, whole)
    ensures v == w
  {
    hide Nearest;
    HalfStep(v, part, whole, (2 * w) as real);
  }

  lemma HalfStep(v: u8, part: real, whole: real, y: real)
    requires whole > 0.0 && Nearest(v, part, whole) && 510.0 * part == y * whole
    ensures v > 0 ==> (2 * v - 1) as real <= y
    ensures v < 255 ==> y < (2 * v + 1) as real
  {
    if v > 0 { Cancel(510.0 * part, (2 * v - 1) as real, y, whole); }
    if v < 255 { CancelLess(510.0 * part, y, (2 * v + 1) as real, whole); }
  }

  lemma Cancel(p: real, x: real, y: real, w: real)
    requires w > 0.0 && x * w <= p == y * w
    ensures x <= y
  {
    if x > y { TimesLess(x - y, w); }
  }

  lemma CancelLess(p: real, x: real, y: real, w: real)
    requires w > 0.0 && x * w == p < y * w
    ensures x < y
  {
    if x >= y { Times(x - y, w); }
  }

  /** Over a transparent backdrop every mode gives the source's colour; at full strength, the source. */
  lemma OverNothing(mix: Mix, m: BlendMode, d: Pixel, s: Pixel, t: real, r: Pixel)
    requires m != Erase && d.a == 0 && s.a > 0 && 0.0 < t <= 1.0 && Blended(mix, m, d, s, t, r)
    ensures r.r == s.r && r.g == s.g && r.b == s.b && (t == 1.0 ==> r == s)
  {
    hide Nearest, Light, Cover, Share, Reach;
    var alpha, b := Reach(s.a, t), mix(m, Colours(d), Colours(s));
    SomeAlpha(s.a, t);
    NoBackdrop(Share(d.r), Share(s.r), b.r, alpha);
    NoBackdrop(Share(d.g), Share(s.g), b.g, alpha);
    NoBackdrop(Share(d.b), Share(s.b), b.b, alpha);
    Exact(r.r, s.r, Light(Share(d.r), Share(s.r), b.r, 0.0, alpha), alpha);
    Exact(r.g, s.g, Light(Share(d.g), Share(s.g), b.g, 0.0, alpha), alpha);
    Exact(r.b, s.b, Light(Share(d.b), Share(s.b), b.b, 0.0, alpha), alpha);
    if t == 1.0 {
      FullStrength(s.a);
      ExactAlpha(r.a, s.a);
    }
  }

  lemma SomeAlpha(a: u8, t: real)
    requires a > 0 && 0.0 < t
    ensures Reach(a, t) > 0.0 && Share(0) == 0.0
  {
    TimesLess(Share(a), t);
  }

  lemma ExactAlpha(v: u8, w: u8)
    requires Nearest(v, Share(w), 1.0)
    ensures v == w
  {
  }

  lemma NoBackdrop(cb: real, cs: real, b: real, alpha: real)
    ensures Light(cb, cs, b, 0.0, alpha) == alpha * cs && Cover(0.0, alpha) == alpha
  {
  }

  /** Where both are opaque and the strength is full, the mixed colour shows. */
  lemma OpaqueOverOpaque(mix: Mix, m: BlendMode, d: Pixel, s: Pixel, r: Pixel)
    requires m != Erase && d.a == 255 && s.a == 255 && Blended(mix, m, d, s, 1.0, r)
    ensures r.a == 255
    ensures var b := mix(m, Colours(d), Colours(s));
            Nearest(r.r, b.r, 1.0) && Nearest(r.g, b.g, 1.0) && Nearest(r.b, b.b, 1.0)
  {
    var b := mix(m, Colours(d), Colours(s));
    assert Light(Share(d.r), Share(s.r), b.r, 1.0, 1.0) == b.r;
    assert Light(Share(d.g), Share(s.g), b.g, 1.0, 1.0) == b.g;
    assert Light(Share(d.b), Share(s.b), b.b, 1.0, 1.0) == b.b;
  }

  /** `blendRowRgba8` on a row of `dst`: `src` over it from column `col` on. Without a mask every pixel
      has the full strength. */
  method BlendRow(mix: Mix, m: BlendMode, dst: array2<Pixel>, row: nat, col: nat, src: seq<Pixel>, opacity: real,
          mask: seq<u8>)
    requires row < dst.Length0 && col + |src| <= dst.Length1 && (mask == [] || |mask| == |src|)
    modifies dst
    ensures forall i, j :: 0 <= i < dst.Length0 && 0 <= j < dst.Length1 ==>
              dst[i, j] == if i == row && col <= j < col + |src|
                           then Over(mix, m, old(dst[i, j]), src[j - col],
                             Strength(opacity, if mask == [] then 255 else mask[j - col]))
                           else old(dst[i, j])
    ensures forall j :: col <= j < col + |src| ==>
              Blended(mix, m, old(dst[row, j]), src[j - col],
                Strength(opacity, if mask == [] then 255 else mask[j - col]), dst[row, j])
  {
    hide BlendPixel8, Blended;
    forall d, s, v
      ensures Blended(mix, m, d, s, Strength(opacity, v), Over(mix, m, d, s, Strength(opacity, v)))
    {
      StrengthIs(opacity, v);
      OverMeans(mix, m, d, s, Strength(opacity, v));
    }
    var base := Clamp01(opacity);
    if base <= 0.0 {
      NoStrength(opacity);
      return;
    }
    var k := 0;
    while k < |src|
      invariant 0 <= k <= |src|
      invariant forall i, j :: 0 <= i < dst.Length0 && 0 <= j < dst.Length1 ==>
                  dst[i, j] == if i == row && col <= j < col + k
                               then Over(mix, m, old(dst[i, j]), src[j - col],
                                 Strength(opacity, if mask == [] then 255 else mask[j - col]))
                               else old(dst[i, j])
    {
      var a := base;
      if mask != [] { a := a * FromU8(mask[k]); }
      assert a == Strength(opacity, if mask == [] then 255 else mask[k]);
      if a > 0.0 && (src[k].a != 0 || m == Erase) {
        dst[row, col + k] := BlendPixel8(mix, m, dst[row, col + k], src[k], a);
      }
      k := k + 1;
    }
  }

  lemma NoStrength(opacity: real)
    requires Clamp01(opacity) <= 0.0
    ensures forall v: u8 :: Strength(opacity, v) == 0.0
  {
  }
}
