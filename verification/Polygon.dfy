/** Lasso rasterisation (core/src/selection.cpp, `accumulateSpan` and `fromPolygon`): exact area
    coverage along x, supersampled along y, under the even-odd rule. `f32` values are reals. */
module Polygon {
  import opened Bytes
  import opened EvenOdd
  import opened Geometry
  import D = Distance
  import S = Selection

  const SUB_SAMPLES := 4

  function Max(a: real, b: real): real { if a < b then b else a }

  function Min(a: real, b: real): real { if a < b then a else b }

  function Times(a: real, b: real): real { a * b }

  /** Length of `[a, b)` inside `[lo, hi)`. */
  function Overlap(a: real, b: real, lo: real, hi: real): real {
    Max(0.0, Min(b, hi) - Max(a, lo))
  }

  // ---- crossings of one scanline ---------------------------------------------------------

  /** The half-open test: an edge counts when exactly one endpoint is above the scanline. */
  predicate Crosses(p: PointF, q: PointF, yc: real) {
    (p.y <= yc && q.y > yc) || (q.y <= yc && p.y > yc)
  }

  /** Where a crossing edge meets the scanline. */
  function CrossX(p: PointF, q: PointF, yc: real): real
    requires Crosses(p, q, yc)
  {
    p.x + Times((yc - p.y) / (q.y - p.y), q.x - p.x)
  }

  /** The crossing point lies on the line of the edge. */
  lemma OnTheLine(p: PointF, q: PointF, yc: real)
    requires Crosses(p, q, yc)
    ensures (CrossX(p, q, yc) - p.x) * (q.y - p.y) == (yc - p.y) * (q.x - p.x)
  {
    var t, h, w := (yc - p.y) / (q.y - p.y), q.y - p.y, q.x - p.x;
    D.Quotient(if h > 0.0 then yc - p.y else p.y - yc, if h > 0.0 then h else -h);
    assert t * h == yc - p.y;
    Regroup(t, w, h);
  }

  lemma Regroup(t: real, w: real, h: real)
    ensures (t * w) * h == (t * h) * w
  {
  }

  /** An edge passes a point on the left exactly when it meets the point's line, and does so at or left of
      the point. */
  lemma PassesLeftMeets(p: PointF, q: PointF, x: real, yc: real)
    ensures PassesLeft(p, q, x, yc) <==> Crosses(p, q, yc) && CrossX(p, q, yc) <= x
  {
    if Crosses(p, q, yc) {
      var c, h := CrossX(p, q, yc), q.y - p.y;
      OnTheLine(p, q, yc);
      Across(x, c, p.x, h);
      assert Side(p, q, x, yc) == (c - x) * h;
      if h > 0.0 { D.SignOfProduct(h, x - c); } else { D.SignOfProduct(-h, x - c); }
    }
  }

  lemma Across(x: real, c: real, a: real, h: real)
    ensures (c - a) * h - (x - a) * h == (c - x) * h
  {
  }

  /** `k % n` for `k <= n`. */
  function Wrap(k: nat, n: nat): nat { if k == n then 0 else k }

  /** Crossings of the first `k` edges of the closed polygon, in edge order. */
  function Crossings(ps: seq<PointF>, yc: real, k: nat): seq<real>
    requires k <= |ps|
  {
    if k == 0 then []
    else
      var p, q := ps[k - 1], ps[Wrap(k, |ps|)];
      Crossings(ps, yc, k - 1) + if Crosses(p, q, yc) then [CrossX(p, q, yc)] else []
  }

  /** Going round the polygon, the side of the scanline flips at each crossing. */
  lemma {:induction false} CrossingParity(ps: seq<PointF>, yc: real, k: nat)
    requires k <= |ps| && |ps| > 0
    ensures |Crossings(ps, yc, k)| % 2 == if (ps[0].y <= yc) == (ps[Wrap(k, |ps|)].y <= yc) then 0 else 1
  {
    hide CrossX;
    if k > 0 {
      CrossingParity(ps, yc, k - 1);
    }
  }

  /** A closed polygon meets every scanline an even number of times. */
  lemma CrossingsEven(ps: seq<PointF>, yc: real)
    ensures |Crossings(ps, yc, |ps|)| % 2 == 0
  {
    if |ps| > 0 { CrossingParity(ps, yc, |ps|); }
  }

  // ---- sorting ------------------------------------------------------------------------------

  predicate Sorted(xs: seq<real>) {
    forall i, j :: 0 <= i < j < |xs| ==> xs[i] <= xs[j]
  }

  /** How many entries are at or left of `x`. */
  function CountLe(xs: seq<real>, x: real): (n: nat)
    ensures n <= |xs|
  {
    if |xs| == 0 then 0 else CountLe(xs[..|xs| - 1], x) + if xs[|xs| - 1] <= x then 1 else 0
  }

  lemma {:induction false} CountConcat(a: seq<real>, b: seq<real>, x: real)
    ensures CountLe(a + b, x) == CountLe(a, x) + CountLe(b, x)
  {
    if |b| == 0 {
      assert a + b == a;
    } else {
      CountConcat(a, b[..|b| - 1], x);
      assert (a + b)[..|a + b| - 1] == a + b[..|b| - 1];
    }
  }

  /** In a sorted list the entries at or left of `x` are exactly the first `CountLe` ones. */
  lemma {:induction false} CountSplits(xs: seq<real>, x: real)
    requires Sorted(xs)
    ensures forall i :: 0 <= i < |xs| ==> (xs[i] <= x <==> i < CountLe(xs, x))
  {
    if |xs| > 0 {
      var ys := xs[..|xs| - 1];
      CountSplits(ys, x);
      if CountLe(ys, x) < |ys| {
        assert !(ys[CountLe(ys, x)] <= x);
      }
      assert forall i :: 0 <= i < |ys| ==> ys[i] == xs[i];
    }
  }

  /** Inserts `v` after every entry that does not exceed it. */
  function Insert(xs: seq<real>, v: real): (r: seq<real>)
    requires Sorted(xs)
    ensures Sorted(r) && multiset(r) == multiset(xs) + multiset{v}
  {
    var k := CountLe(xs, v);
    CountSplits(xs, v);
    OneMore(xs, k, v);
    xs[..k] + [v] + xs[k..]
  }

  lemma OneMore(xs: seq<real>, k: nat, v: real)
    requires k <= |xs|
    ensures multiset(xs[..k] + [v] + xs[k..]) == multiset(xs) + multiset{v}
  {
    assert xs == xs[..k] + xs[k..];
  }

  /** `std::sort`: the ascending rearrangement. */
  function Ascending(xs: seq<real>): (r: seq<real>)
    ensures Sorted(r) && multiset(r) == multiset(xs) && |r| == |xs|
  {
    if |xs| == 0 then [] else
    assert xs == xs[..|xs| - 1] + [xs[|xs| - 1]];
    Insert(Ascending(xs[..|xs| - 1]), xs[|xs| - 1])
  }

  lemma CountInsert(xs: seq<real>, v: real, x: real)
    requires Sorted(xs)
    ensures CountLe(Insert(xs, v), x) == CountLe(xs, x) + if v <= x then 1 else 0
  {
    var k := CountLe(xs, v);
    assert xs == xs[..k] + xs[k..];
    CountConcat(xs[..k], xs[k..], x);
    CountConcat(xs[..k] + [v], xs[k..], x);
    CountConcat(xs[..k], [v], x);
    assert CountLe([v], x) == if v <= x then 1 else 0;
  }

  /** The count does not depend on the order. */
  lemma {:induction false} CountAscending(xs: seq<real>, x: real)
    ensures CountLe(Ascending(xs), x) == CountLe(xs, x)
  {
    if |xs| > 0 {
      CountAscending(xs[..|xs| - 1], x);
      CountInsert(Ascending(xs[..|xs| - 1]), xs[|xs| - 1], x);
    }
  }

  // ---- the spans ---------------------------------------------------------------------------

  /** The crossings at or left of a point belong to the edges that pass it on the left. */
  lemma {:induction false} CountIsEdgesLeft(ps: seq<PointF>, yc: real, x: real, k: nat)
    requires k <= |ps|
    ensures CountLe(Crossings(ps, yc, k), x) == EdgesLeft(ps, x, yc, k)
  {
    hide Crosses, CrossX, PassesLeft;
    if k > 0 {
      CountIsEdgesLeft(ps, yc, x, k - 1);
      OneEdge(ps, yc, x, k);
      Wraps(k, |ps|);
    }
  }

  lemma Wraps(k: nat, n: nat)
    requires 0 < k <= n
    ensures k % n == Wrap(k, n)
  {
  }

  lemma OneEdge(ps: seq<PointF>, yc: real, x: real, k: nat)
    requires 0 < k <= |ps|
    ensures CountLe(Crossings(ps, yc, k), x) == CountLe(Crossings(ps, yc, k - 1), x) +
            if PassesLeft(ps[k - 1], ps[Wrap(k, |ps|)], x, yc) then 1 else 0
  {
    hide Crosses, CrossX, PassesLeft, CountLe;
    var p, q := ps[k - 1], ps[Wrap(k, |ps|)];
    PassesLeftMeets(p, q, x, yc);
    if Crosses(p, q, yc) {
      CountOneMore(Crossings(ps, yc, k - 1), CrossX(p, q, yc), x);
    } else {
      assert Crossings(ps, yc, k) == Crossings(ps, yc, k - 1);
    }
  }

  lemma CountOneMore(xs: seq<real>, v: real, x: real)
    ensures CountLe(xs + [v], x) == CountLe(xs, x) + if v <= x then 1 else 0
  {
    assert (xs + [v])[..|xs|] == xs;
  }

  /** The spans handed to `accumulateSpan` for one scanline are consecutive pairs of this list. */
  function Spans(ps: seq<PointF>, yc: real): seq<real> {
    Ascending(Crossings(ps, yc, |ps|))
  }

  ghost predicate InPair(xs: seq<real>, i: int, x: real) {
    0 <= i && 2 * i + 1 < |xs| && xs[2 * i] <= x < xs[2 * i + 1]
  }

  /** The union of the spans is exactly the even-odd interior of the scanline. */
  lemma SpansAreInterior(ps: seq<PointF>, yc: real, x: real)
    ensures Interior(ps, x, yc) <==> exists i :: InPair(Spans(ps, yc), i, x)
  {
    hide Ascending, Crossings, EdgesLeft;
    var xs := Spans(ps, yc);
    CrossingsEven(ps, yc);
    CountSpans(ps, yc, x);
    CountSplits(xs, x);
    var n := CountLe(xs, x);
    if n % 2 == 1 {
      assert InPair(xs, n / 2, x);
    }
  }

  lemma CountSpans(ps: seq<PointF>, yc: real, x: real)
    ensures CountLe(Spans(ps, yc), x) == EdgesLeft(ps, x, yc, |ps|)
  {
    CountAscending(Crossings(ps, yc, |ps|), x);
    CountIsEdgesLeft(ps, yc, x, |ps|);
  }

  /** Total length of the first `k` spans inside `[lo, hi)`. */
  function Covered(xs: seq<real>, k: nat, lo: real, hi: real): real
    requires 2 * k <= |xs|
  {
    if k == 0 then 0.0 else Covered(xs, k - 1, lo, hi) + Overlap(xs[2 * k - 2], xs[2 * k - 1], lo, hi)
  }

  /** Sorted spans do not overlap, so together they cover at most the interval. */
  lemma {:induction false} CoveredBounds(xs: seq<real>, k: nat, lo: real, hi: real)
    requires 2 * k <= |xs| && Sorted(xs) && lo <= hi
    ensures 0.0 <= Covered(xs, k, lo, hi) <= hi - lo
    ensures k > 0 ==> Covered(xs, k, lo, hi) <= Max(0.0, Min(xs[2 * k - 1], hi) - lo)
  {
    if k > 0 {
      CoveredBounds(xs, k - 1, lo, hi);
    }
  }

  // ---- the spans measure the interior ----------------------------------------------------------

  /** The ends of the spans as cuts of `[lo, hi)`. */
  function Ends(xs: seq<real>, lo: real, hi: real): (r: seq<real>)
    ensures |r| == |xs| + 2
  {
    seq(|xs| + 2, j requires 0 <= j < |xs| + 2 =>
      if j == 0 then lo else if j == |xs| + 1 then hi else Max(lo, Min(xs[j - 1], hi)))
  }

  /** The set whose points have an odd number of entries at or left of them. */
  ghost predicate OddLeft(inside: real -> bool, xs: seq<real>) {
    forall x :: inside(x) <==> CountLe(xs, x) % 2 == 1
  }

  lemma CountInPiece(xs: seq<real>, lo: real, hi: real, j: nat, x: real)
    requires Sorted(xs) && lo <= hi && j <= |xs| && Ends(xs, lo, hi)[j] <= x < Ends(xs, lo, hi)[j + 1]
    ensures CountLe(xs, x) == j
  {
    CountSplits(xs, x);
    if j > 0 { assert xs[j - 1] <= x; }
    if j < |xs| { assert x < xs[j]; }
  }

  lemma PieceInside(inside: real -> bool, xs: seq<real>, lo: real, hi: real, j: nat, x: real)
    requires Sorted(xs) && lo <= hi && OddLeft(inside, xs)
    requires j <= |xs| && Ends(xs, lo, hi)[j] <= x < Ends(xs, lo, hi)[j + 1]
    ensures inside(x) <==> j % 2 == 1
  {
    hide Ends;
    CountInPiece(xs, lo, hi, j, x);
  }

  lemma EndsSorted(xs: seq<real>, lo: real, hi: real)
    requires Sorted(xs) && lo <= hi
    ensures Sorted(Ends(xs, lo, hi))
  {
  }

  lemma EndsCut(inside: real -> bool, xs: seq<real>, lo: real, hi: real)
    requires Sorted(xs) && lo <= hi && OddLeft(inside, xs)
    ensures Cuts(inside, Ends(xs, lo, hi), lo, hi)
  {
    hide OddLeft;
    var r := Ends(xs, lo, hi);
    EndsSorted(xs, lo, hi);
    forall i, x | 0 <= i < |r| - 1 && r[i] <= x < r[i + 1]
      ensures inside(x) == inside(r[i])
    {
      PieceInside(inside, xs, lo, hi, i, x);
      PieceInside(inside, xs, lo, hi, i, r[i]);
    }
  }

  lemma TotalStep(inside: real -> bool, xs: seq<real>, lo: real, hi: real, j: nat)
    requires Sorted(xs) && lo <= hi && OddLeft(inside, xs) && j <= |xs|
    ensures var r := Ends(xs, lo, hi);
            Total(inside, r[j..]) == Total(inside, r[j + 1..]) + if j % 2 == 1 then r[j + 1] - r[j] else 0.0
  {
    hide OddLeft, Ends;
    var r := Ends(xs, lo, hi);
    EndsSorted(xs, lo, hi);
    assert r[j..][1..] == r[j + 1..];
    if r[j] < r[j + 1] { PieceInside(inside, xs, lo, hi, j, r[j]); }
  }

  /** Summing the overlaps of the spans is summing the pieces inside. */
  lemma {:induction false} CoveredIsTotal(inside: real -> bool, xs: seq<real>, k: nat, lo: real, hi: real)
    requires Sorted(xs) && lo <= hi && OddLeft(inside, xs) && 2 * k <= |xs|
    ensures Covered(xs, k, lo, hi) + Total(inside, Ends(xs, lo, hi)[2 * k..]) == Total(inside, Ends(xs, lo, hi))
  {
    hide OddLeft, Total;
    var r := Ends(xs, lo, hi);
    if k == 0 {
      assert r[0..] == r;
    } else {
      CoveredIsTotal(inside, xs, k - 1, lo, hi);
      TotalStep(inside, xs, lo, hi, 2 * k - 2);
      TotalStep(inside, xs, lo, hi, 2 * k - 1);
      assert Overlap(xs[2 * k - 2], xs[2 * k - 1], lo, hi) == r[2 * k] - r[2 * k - 1];
    }
  }

  /** The spans cover exactly the length of the interior. */
  lemma SpansMeasureInterior(ps: seq<PointF>, yc: real, lo: real, hi: real)
    requires lo <= hi
    ensures Measures(v => Interior(ps, v, yc), lo, hi, Covered(Spans(ps, yc), |Spans(ps, yc)| / 2, lo, hi))
  {
    hide Ascending, Crossings, EdgesLeft, Covered, Ends, Total, Cuts;
    var xs, inside := Spans(ps, yc), v => Interior(ps, v, yc);
    var r := Ends(xs, lo, hi);
    CrossingsEven(ps, yc);
    forall x
      ensures inside(x) <==> CountLe(xs, x) % 2 == 1
    {
      CountSpans(ps, yc, x);
    }
    EndsCut(inside, xs, lo, hi);
    CoveredIsTotal(inside, xs, |xs| / 2, lo, hi);
    TotalStep(inside, xs, lo, hi, |xs|);
    LastCut(inside, r);
  }

  lemma LastCut(inside: real -> bool, r: seq<real>)
    requires |r| > 0
    ensures Total(inside, r[|r| - 1..]) == 0.0
  {
  }

  // ---- coverage ------------------------------------------------------------------------------

  function SampleY(y: int, s: int, subs: int): real
    requires subs > 0
  {
    y as real + (s as real + 0.5) / subs as real
  }

  function PixelOverlap(a: real, b: real, x: int): real {
    Overlap(a, b, x as real, x as real + 1.0)
  }

  function PixelCovered(xs: seq<real>, k: nat, x: int): real
    requires 2 * k <= |xs|
  {
    Covered(xs, k, x as real, x as real + 1.0)
  }

  /** Length of the even-odd interior of one scanline inside pixel column `x`. */
  function SpanLength(ps: seq<PointF>, yc: real, x: int): real {
    PixelCovered(Spans(ps, yc), |Spans(ps, yc)| / 2, x)
  }

  /** Area coverage of pixel `(x, y)` accumulated over its first `k` sub-scanlines. */
  function Coverage(ps: seq<PointF>, x: int, y: int, subs: int, k: nat): real
    requires subs > 0
  {
    if k == 0 then 0.0
    else Coverage(ps, x, y, subs, k - 1) + Times(SpanLength(ps, SampleY(y, k - 1, subs), x), 1.0 / subs as real)
  }

  lemma SpanLengthBounds(ps: seq<PointF>, yc: real, x: int)
    ensures 0.0 <= SpanLength(ps, yc, x) <= 1.0
  {
    hide Covered;
    var xs := Spans(ps, yc);
    CoveredBounds(xs, |xs| / 2, x as real, x as real + 1.0);
  }

  lemma Scaled(a: real, w: real)
    requires 0.0 <= a <= 1.0 && 0.0 <= w
    ensures 0.0 <= Times(a, w) <= w
  {
    if w > 0.0 {
      D.SignOfProduct(w, a);
      D.SignOfProduct(w, 1.0 - a);
      assert w * (1.0 - a) == w - a * w;
    }
  }

  /** Coverage never exceeds the share of sub-scanlines seen so far: at most 1 in all. */
  lemma {:induction false} CoverageBounds(ps: seq<PointF>, x: int, y: int, subs: int, k: nat)
    requires subs > 0
    ensures 0.0 <= Coverage(ps, x, y, subs, k) <= k as real * (1.0 / subs as real)
  {
    hide SpanLength, SampleY;
    if k > 0 {
      CoverageBounds(ps, x, y, subs, k - 1);
      var yc := SampleY(y, k - 1, subs);
      SpanLengthBounds(ps, yc, x);
      Scaled(SpanLength(ps, yc, x), 1.0 / subs as real);
    }
  }

  function ToByte(v: real): u8 {
    ((if v < 0.0 then 0.0 else if v > 1.0 then 1.0 else v) * 255.0 + 0.5).Floor
  }

  /** The mask value `fromPolygon` promises at a pixel. */
  function PixelValue(ps: seq<PointF>, antialias: bool, x: int, y: int): u8 {
    var subs := if antialias then SUB_SAMPLES else 1;
    var c := Coverage(ps, x, y, subs, subs);
    if antialias then ToByte(c) else if c >= 0.5 then 255 else 0
  }

  // ---- what the value means ------------------------------------------------------------------

  lemma SampleIsLine(y: int, s: nat, subs: nat)
    requires subs > 0
    ensures SampleY(y, s, subs) == Line(y, s, subs)
  {
    Doubled(s as real + 0.5, subs as real);
  }

  lemma Doubled(a: real, b: real)
    requires b > 0.0
    ensures a / b == (2.0 * a) / (2.0 * b)
  {
  }

  lemma OneLine(ps: seq<PointF>, x: int, y: int, s: nat, subs: nat)
    requires subs > 0
    ensures LineLength(ps, Line(y, s, subs), x, SpanLength(ps, SampleY(y, s, subs), x))
  {
    hide Spans, Measures, Line, SampleY, Covered, Interior;
    SampleIsLine(y, s, subs);
    SpansMeasureInterior(ps, Line(y, s, subs), x as real, x as real + 1.0);
  }

  /** The lengths accumulated for a pixel. */
  function Lengths(ps: seq<PointF>, x: int, y: int, subs: nat, k: nat): (r: seq<real>)
    requires subs > 0
    ensures |r| == k
  {
    seq(k, s requires 0 <= s < k => SpanLength(ps, SampleY(y, s, subs), x))
  }

  lemma {:induction false} CoverageSums(ps: seq<PointF>, x: int, y: int, subs: nat, k: nat)
    requires subs > 0
    ensures subs as real * Coverage(ps, x, y, subs, k) == Sum(Lengths(ps, x, y, subs, k))
  {
    hide SpanLength, SampleY, Times;
    if k > 0 {
      var ls := Lengths(ps, x, y, subs, k);
      CoverageSums(ps, x, y, subs, k - 1);
      assert ls[..k - 1] == Lengths(ps, x, y, subs, k - 1);
      OneShare(subs as real, Coverage(ps, x, y, subs, k - 1), ls[k - 1]);
    }
  }

  lemma OneShare(n: real, c: real, l: real)
    requires n > 0.0
    ensures n * (c + Times(l, 1.0 / n)) == n * c + l
  {
    var w := 1.0 / n;
    assert n * w == 1.0;
    assert n * (l * w) == l * (n * w);
  }

  lemma CoverageCovers(ps: seq<PointF>, x: int, y: int, subs: nat)
    requires subs > 0
    ensures Covers(ps, x, y, subs, Coverage(ps, x, y, subs, subs))
  {
    hide LineLength, SpanLength, Line, SampleY, Coverage, Sum;
    var ls := Lengths(ps, x, y, subs, subs);
    CoverageSums(ps, x, y, subs, subs);
    forall s | 0 <= s < subs
      ensures LineLength(ps, Line(y, s, subs), x, ls[s])
    {
      OneLine(ps, x, y, s, subs);
    }
    assert RowLengths(ps, x, y, ls);
  }

  lemma ByteIsNearest(v: real)
    requires 0.0 <= v <= 1.0
    ensures Nearest(v, ToByte(v))
  {
  }

  /** The promised value is the one the even-odd rule asks for. */
  lemma ValueMeans(ps: seq<PointF>, antialias: bool, x: int, y: int)
    ensures LassoValue(ps, antialias, x, y, PixelValue(ps, antialias, x, y))
  {
    hide Covers, Coverage, Nearest, ToByte;
    var subs := if antialias then SUB_SAMPLES else 1;
    var c := Coverage(ps, x, y, subs, subs);
    CoverageCovers(ps, x, y, subs);
    CoverageBounds(ps, x, y, subs, subs);
    if antialias { ByteIsNearest(c); }
  }

  // ---- outside the bounding box ------------------------------------------------------------

  /** All points lie in `[x0, x1] x [y0, y1]`. */
  ghost predicate Boxed(ps: seq<PointF>, x0: real, x1: real, y0: real, y1: real) {
    forall i :: 0 <= i < |ps| ==> x0 <= ps[i].x <= x1 && y0 <= ps[i].y <= y1
  }

  lemma ScaledDown(a: real, w: real)
    requires 0.0 <= a <= 1.0 && w <= 0.0
    ensures w <= Times(a, w) <= 0.0
  {
    Scaled(a, -w);
    assert a * w == -(a * -w);
  }

  lemma Between(a: real, w: real, t: real, lo: real, hi: real)
    requires 0.0 <= t <= 1.0 && lo <= a <= hi && lo <= a + w <= hi
    ensures lo <= a + Times(t, w) <= hi
  {
    hide Times;
    if w >= 0.0 {
      Scaled(t, w);
    } else {
      ScaledDown(t, w);
    }
  }

  lemma Fraction(a: real, b: real)
    requires (0.0 <= a <= b && 0.0 < b) || (b <= a <= 0.0 && b < 0.0)
    ensures 0.0 <= a / b <= 1.0
  {
    var t := a / b;
    assert t * b == a;
    if b > 0.0 {
      D.SignOfProduct(b, t);
      D.SignOfProduct(b, 1.0 - t);
    } else {
      D.SignOfProduct(-b, t);
      D.SignOfProduct(-b, 1.0 - t);
    }
  }

  lemma CrossXBetween(p: PointF, q: PointF, yc: real, x0: real, x1: real)
    requires Crosses(p, q, yc) && x0 <= p.x <= x1 && x0 <= q.x <= x1
    ensures x0 <= CrossX(p, q, yc) <= x1
  {
    var t := (yc - p.y) / (q.y - p.y);
    Fraction(yc - p.y, q.y - p.y);
    Between(p.x, q.x - p.x, t, x0, x1);
  }

  lemma {:induction false} CrossingsBoxed(ps: seq<PointF>, yc: real, k: nat, x0: real, x1: real, y0: real, y1: real)
    requires k <= |ps| && Boxed(ps, x0, x1, y0, y1)
    ensures forall i :: 0 <= i < |Crossings(ps, yc, k)| ==> x0 <= Crossings(ps, yc, k)[i] <= x1
    ensures yc < y0 || yc >= y1 ==> Crossings(ps, yc, k) == []
  {
    hide CrossX, Crosses;
    if k > 0 {
      CrossingsBoxed(ps, yc, k - 1, x0, x1, y0, y1);
      var p, q := ps[k - 1], ps[Wrap(k, |ps|)];
      if Crosses(p, q, yc) {
        CrossXBetween(p, q, yc, x0, x1);
        CrossesBetween(p, q, yc, y0, y1);
      }
    }
  }

  lemma CrossesBetween(p: PointF, q: PointF, yc: real, y0: real, y1: real)
    requires Crosses(p, q, yc) && y0 <= p.y <= y1 && y0 <= q.y <= y1
    ensures y0 <= yc < y1
  {
  }

  lemma {:induction false} CoveredNothing(xs: seq<real>, k: nat, lo: real, hi: real, x0: real, x1: real)
    requires 2 * k <= |xs| && (x1 <= lo || hi <= x0) && lo <= hi
    requires forall i :: 0 <= i < |xs| ==> x0 <= xs[i] <= x1
    ensures Covered(xs, k, lo, hi) == 0.0
  {
    if k > 0 { CoveredNothing(xs, k - 1, lo, hi, x0, x1); }
  }

  lemma NoLength(ps: seq<PointF>, yc: real, x: int, x0: real, x1: real, y0: real, y1: real)
    requires Boxed(ps, x0, x1, y0, y1)
    requires yc < y0 || yc >= y1 || x1 <= x as real || x as real + 1.0 <= x0
    ensures SpanLength(ps, yc, x) == 0.0
  {
    hide Crossings, Ascending;
    var cs, xs := Crossings(ps, yc, |ps|), Spans(ps, yc);
    CrossingsBoxed(ps, yc, |ps|, x0, x1, y0, y1);
    forall i | 0 <= i < |xs|
      ensures x0 <= xs[i] <= x1
    {
      assert xs[i] in multiset(xs);
      assert xs[i] in multiset(cs);
      assert xs[i] in cs;
    }
    if cs != [] {
      CoveredNothing(xs, |xs| / 2, x as real, x as real + 1.0, x0, x1);
    }
  }

  lemma SampleInRow(y: int, s: int, subs: int)
    requires 0 <= s < subs
    ensures y as real < SampleY(y, s, subs) < y as real + 1.0
  {
    var t, n := (s as real + 0.5) / subs as real, subs as real;
    assert n * t == s as real + 0.5;
    D.SignOfProduct(n, t);
    D.SignOfProduct(n, 1.0 - t);
    assert n * (1.0 - t) == n - n * t;
  }

  /** A pixel off the integer box around the points has no coverage. */
  lemma {:induction false} OffBox(ps: seq<PointF>, x: int, y: int, subs: int, k: nat, x0: real, x1: real, y0: real,
          y1: real)
    requires 0 < subs && k <= subs && Boxed(ps, x0, x1, y0, y1)
    requires y as real + 1.0 <= y0 || y1 <= y as real || x1 <= x as real || x as real + 1.0 <= x0
    ensures Coverage(ps, x, y, subs, k) == 0.0
  {
    hide SpanLength, SampleY;
    if k > 0 {
      OffBox(ps, x, y, subs, k - 1, x0, x1, y0, y1);
      var yc := SampleY(y, k - 1, subs);
      SampleInRow(y, k - 1, subs);
      NoLength(ps, yc, x, x0, x1, y0, y1);
    }
  }

  // ---- the loops ---------------------------------------------------------------------------

  function Ceil(v: real): int { -((-v).Floor) }

  /** Adds one span to the coverage of a row of `w` pixels starting at column `originX`. */
  method AccumulateSpan(row: array<real>, w: int, originX: int, sx: real, ex: real, weight: real)
    requires 0 <= w <= row.Length
    modifies row
    ensures forall px :: 0 <= px < w ==>
                           row[px] == old(row[px]) + Times(PixelOverlap(sx, ex, originX + px), weight)
    ensures forall px :: w <= px < row.Length ==> row[px] == old(row[px])
  {
    hide Times;
    NoTimes(weight);
    if ex <= sx { return; }
    var lo, hi := Max(sx, originX as real), Min(ex, (originX + w) as real);
    if hi <= lo { return; }
    var first, last := lo.Floor - originX, Ceil(hi) - originX;
    var start, end := if first < 0 then 0 else first, if w < last then w else last;
    assert 0 <= start;
    var px := start;
    while px < end
      invariant start <= px && (px <= end || px == start)
      invariant forall i :: 0 <= i < w ==>
                              row[i] == old(row[i]) + if start <= i < px
                                then Times(PixelOverlap(sx, ex, originX + i), weight) else 0.0
      invariant forall i :: w <= i < row.Length ==> row[i] == old(row[i])
    {
      var pl := (originX + px) as real;
      var overlap := Min(hi, pl + 1.0) - Max(lo, pl);
      assert PixelOverlap(sx, ex, originX + px) == Max(0.0, overlap);
      if overlap > 0.0 {
        row[px] := row[px] + Times(overlap, weight);
      }
      px := px + 1;
    }
    forall i | 0 <= i < w
      ensures row[i] == old(row[i]) + Times(PixelOverlap(sx, ex, originX + i), weight)
    {
      if !(start <= i < px) { assert PixelOverlap(sx, ex, originX + i) == 0.0; }
    }
  }

  lemma NoTimes(weight: real)
    ensures Times(0.0, weight) == 0.0
  {
  }

  /** The crossing loop of one sub-scanline. */
  method FindCrossings(ps: seq<PointF>, yc: real) returns (xs: seq<real>)
    ensures xs == Crossings(ps, yc, |ps|)
  {
    xs := [];
    var i := 0;
    while i < |ps|
      invariant 0 <= i <= |ps| && xs == Crossings(ps, yc, i)
    {
      var p0, p1 := ps[i], ps[Wrap(i + 1, |ps|)];
      if Crosses(p0, p1, yc) {
        xs := xs + [CrossX(p0, p1, yc)];
      }
      i := i + 1;
    }
  }

  /** Insertion in place of the library's sort. */
  method Sort(xs: seq<real>) returns (r: seq<real>)
    ensures r == Ascending(xs)
  {
    r := [];
    var i := 0;
    while i < |xs|
      invariant 0 <= i <= |xs| && r == Ascending(xs[..i])
    {
      r := Insert(r, xs[i]);
      assert xs[..i + 1][..i] == xs[..i];
      i := i + 1;
    }
    assert xs[..i] == xs;
  }

  /** One sub-scanline: adds `weight` times the interior length to every pixel of the row. */
  method AddScanline(cov: array<real>, w: int, originX: int, ps: seq<PointF>, yc: real, weight: real)
    requires 0 <= w <= cov.Length
    modifies cov
    ensures forall px :: 0 <= px < w ==> cov[px] == old(cov[px]) + Times(SpanLength(ps, yc, originX + px), weight)
  {
    hide Times, PixelOverlap, PixelCovered, Crossings, Ascending;
    NoTimes(weight);
    var cs := FindCrossings(ps, yc);
    var xs := Sort(cs);
    CrossingsEven(ps, yc);
    NothingYet(xs);
    ghost var k := 0;
    var i := 0;
    while i + 1 < |xs|
      invariant i == 2 * k <= |xs|
      invariant forall px :: 0 <= px < w ==>
                               cov[px] == old(cov[px]) + Times(PixelCovered(xs, k, originX + px), weight)
    {
      AccumulateSpan(cov, w, originX, xs[i], xs[i + 1], weight);
      k := k + 1;
      forall px | 0 <= px < w
        ensures cov[px] == old(cov[px]) + Times(PixelCovered(xs, k, originX + px), weight)
      {
        TimesAdds(xs, k, originX + px, weight);
      }
      i := i + 2;
    }
    assert k == |xs| / 2;
  }

  lemma NothingYet(xs: seq<real>)
    ensures forall x :: PixelCovered(xs, 0, x) == 0.0
  {
  }

  lemma TimesAdds(xs: seq<real>, k: nat, x: int, weight: real)
    requires 0 < 2 * k <= |xs|
    ensures Times(PixelCovered(xs, k, x), weight) ==
            Times(PixelCovered(xs, k - 1, x), weight) + Times(PixelOverlap(xs[2 * k - 2], xs[2 * k - 1], x), weight)
  {
    Distribute(PixelCovered(xs, k - 1, x), PixelOverlap(xs[2 * k - 2], xs[2 * k - 1], x), weight);
  }

  lemma Distribute(c: real, o: real, weight: real)
    ensures Times(c + o, weight) == Times(c, weight) + Times(o, weight)
  {
  }

  /** Coverage of one pixel row, accumulated over its sub-scanlines. */
  method CoverRow(cov: array<real>, w: int, originX: int, ps: seq<PointF>, y: int, subs: int)
    requires 0 <= w <= cov.Length && 0 < subs
    modifies cov
    ensures forall px :: 0 <= px < w ==> cov[px] == Coverage(ps, originX + px, y, subs, subs)
  {
    hide Times, SpanLength, SampleY;
    var weight := 1.0 / subs as real;
    var i := 0;
    while i < w
      invariant 0 <= i <= w && forall px :: 0 <= px < i ==> cov[px] == 0.0
    {
      cov[i] := 0.0;
      i := i + 1;
    }
    var s := 0;
    while s < subs
      invariant 0 <= s <= subs
      invariant forall px :: 0 <= px < w ==> cov[px] == Coverage(ps, originX + px, y, subs, s)
    {
      var yc := SampleY(y, s, subs);
      AddScanline(cov, w, originX, ps, yc, weight);
      s := s + 1;
    }
  }

  /** One row of mask bytes. */
  method RowBytes(cov: array<real>, work: Rect, ps: seq<PointF>, y: int, antialias: bool) returns (row: seq<u8>)
    requires cov.Length == work.width
    modifies cov
    ensures |row| == work.width
    ensures forall i :: 0 <= i < work.width ==> row[i] == PixelValue(ps, antialias, work.x + i, work.y + y)
  {
    hide Coverage, ToByte;
    var subs := if antialias then SUB_SAMPLES else 1;
    CoverRow(cov, work.width, work.x, ps, work.y + y, subs);
    row := [];
    var x := 0;
    while x < work.width
      invariant 0 <= x <= work.width && |row| == x
      invariant forall i :: 0 <= i < x ==> row[i] == PixelValue(ps, antialias, work.x + i, work.y + y)
    {
      row := row + [if antialias then ToByte(cov[x]) else if cov[x] >= 0.5 then 255 else 0];
      x := x + 1;
    }
  }

  /** The integer box around the points. */
  method PointBox(ps: seq<PointF>) returns (box: Rect, ghost x0: real, ghost x1: real, ghost y0: real, ghost y1: real)
    requires |ps| > 0
    ensures Boxed(ps, x0, x1, y0, y1)
    ensures forall x, y :: !box.Contains(x, y) ==> OffPoint(x, y, x0, x1, y0, y1)
  {
    var minx, maxx, miny, maxy := ps[0].x, ps[0].x, ps[0].y, ps[0].y;
    var i := 0;
    while i < |ps|
      invariant 0 <= i <= |ps|
      invariant minx <= maxx && miny <= maxy
      invariant forall j :: 0 <= j < i ==> minx <= ps[j].x <= maxx && miny <= ps[j].y <= maxy
    {
      minx, maxx := Min(minx, ps[i].x), Max(maxx, ps[i].x);
      miny, maxy := Min(miny, ps[i].y), Max(maxy, ps[i].y);
      i := i + 1;
    }
    var l, t, r, b := minx.Floor, miny.Floor, Ceil(maxx) + 1, Ceil(maxy) + 1;
    box := Rect(l, t, r - l, b - t);
    x0, x1, y0, y1 := minx, maxx, miny, maxy;
  }

  ghost predicate OffPoint(x: int, y: int, x0: real, x1: real, y0: real, y1: real) {
    y as real + 1.0 <= y0 || y1 <= y as real || x1 <= x as real || x as real + 1.0 <= x0
  }

  lemma OffBoxValue(ps: seq<PointF>, antialias: bool, x: int, y: int, x0: real, x1: real, y0: real, y1: real)
    requires Boxed(ps, x0, x1, y0, y1) && OffPoint(x, y, x0, x1, y0, y1)
    ensures PixelValue(ps, antialias, x, y) == 0
  {
    hide Coverage;
    var subs := if antialias then SUB_SAMPLES else 1;
    OffBox(ps, x, y, subs, subs, x0, x1, y0, y1);
  }

  /** The rows of the area's bytes. */
  method Raster(work: Rect, ps: seq<PointF>, antialias: bool, ghost image: (int, int) -> u8) returns (out: seq<u8>)
    requires !work.IsEmpty() && forall x, y :: image(x, y) == PixelValue(ps, antialias, x, y)
    ensures S.RowMajor(out, work, work.height, image)
  {
    hide PixelValue;
    var cov := new real[work.width];
    out := [];
    var y := 0;
    while y < work.height
      invariant 0 <= y <= work.height && S.RowMajor(out, work, y, image)
    {
      var row := RowBytes(cov, work, ps, y, antialias);
      S.AppendRow(out, row, work, y, image);
      out := out + row;
      y := y + 1;
    }
  }

  lemma AllMean(ps: seq<PointF>, antialias: bool)
    ensures forall x, y :: LassoValue(ps, antialias, x, y, PixelValue(ps, antialias, x, y))
  {
    hide PixelValue, LassoValue;
    forall x, y
      ensures LassoValue(ps, antialias, x, y, PixelValue(ps, antialias, x, y))
    {
      ValueMeans(ps, antialias, x, y);
    }
  }

  /** A lasso selection: every canvas pixel has the value the even-odd interior of the closed polygon
      asks for. Fewer than three points are refused. */
  method FromPolygon(canvas: Size, ps: seq<PointF>, antialias: bool) returns (ok: bool, m: S.SelectionMask)
    ensures ok <==> |ps| >= 3
    ensures fresh(m) && m.Valid() && m.canvas == canvas
    ensures ok ==> forall x, y :: canvas.Area().Contains(x, y) ==> LassoValue(ps, antialias, x, y, m.ValueAt(x, y))
  {
    hide PixelValue, LassoValue, S.Tight, S.Minimal;
    AllMean(ps, antialias);
    m := new S.SelectionMask(canvas, 0);
    if |ps| < 3 { return false, m; }
    ok := true;
    var box;
    ghost var x0, x1, y0, y1;
    box, x0, x1, y0, y1 := PointBox(ps);
    var work := box.Intersected(canvas.Area());
    forall x, y | canvas.Area().Contains(x, y) && !work.Contains(x, y)
      ensures PixelValue(ps, antialias, x, y) == 0
    {
      OffBoxValue(ps, antialias, x, y, x0, x1, y0, y1);
    }
    if work.IsEmpty() { return; }
    ghost var image := (x, y) => PixelValue(ps, antialias, x, y);
    var out := Raster(work, ps, antialias, image);
    S.RowMajorHolds(out, work, image);
    assert forall x, y :: work.Intersected(canvas.Area()).Contains(x, y) <==> work.Contains(x, y);
    m.WriteRegion(work, out, work.width, image);
    m.Normalize();
  }
}
