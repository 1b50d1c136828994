/** What a lasso selects, said without crossing points or spans: the even-odd interior of a closed
    polygon, the length of a set of reals, and the mask value a pixel must get. */
module EvenOdd {
  import opened Bytes

  datatype PointF = PointF(x: real, y: real)

  // ---- the interior --------------------------------------------------------------------------

  /** The cross product of the edge and the way from `p` to `(x, y)`: its sign is the side of the edge's
      line that the point is on. */
  function Side(p: PointF, q: PointF, x: real, y: real): real {
    (q.x - p.x) * (y - p.y) - (x - p.x) * (q.y - p.y)
  }

  /** The edge passes `(x, y)` on the left or through it: the point is level with the edge, its lower end
      included, and not on the left side of the edge taken upwards. */
  predicate PassesLeft(p: PointF, q: PointF, x: real, y: real) {
    (p.y <= y < q.y && Side(p, q, x, y) <= 0.0) || (q.y <= y < p.y && Side(p, q, x, y) >= 0.0)
  }

  /** How many of the first `k` edges of the closed polygon pass the point on the left. */
  function EdgesLeft(ps: seq<PointF>, x: real, y: real, k: nat): nat
    requires k <= |ps|
  {
    if k == 0 then 0
    else EdgesLeft(ps, x, y, k - 1) + if PassesLeft(ps[k - 1], ps[k % |ps|], x, y) then 1 else 0
  }

  /** The even-odd rule. */
  predicate Interior(ps: seq<PointF>, x: real, y: real) {
    EdgesLeft(ps, x, y, |ps|) % 2 == 1
  }

  // ---- the length of a set of reals ----------------------------------------------------------

  /** The set inside `[lo, hi)` does not change between neighbouring cuts. */
  ghost predicate Cuts(inside: real -> bool, cuts: seq<real>, lo: real, hi: real) {
    && |cuts| > 0 && cuts[0] == lo && cuts[|cuts| - 1] == hi
    && (forall i, j :: 0 <= i < j < |cuts| ==> cuts[i] <= cuts[j])
    && forall i, x :: 0 <= i < |cuts| - 1 && cuts[i] <= x < cuts[i + 1] ==> inside(x) == inside(cuts[i])
  }

  /** Total length of the pieces that belong to the set. */
  function Total(inside: real -> bool, cuts: seq<real>): real {
    if |cuts| < 2 then 0.0
    else Total(inside, cuts[1..]) + if inside(cuts[0]) then cuts[1] - cuts[0] else 0.0
  }

  /** The set has this length inside `[lo, hi)`. */
  ghost predicate Measures(inside: real -> bool, lo: real, hi: real, length: real) {
    exists cuts :: Cuts(inside, cuts, lo, hi) && Total(inside, cuts) == length
  }

  lemma {:induction false} NothingBetween(inside: real -> bool, cuts: seq<real>, lo: real)
    requires Cuts(inside, cuts, lo, lo)
    ensures Total(inside, cuts) == 0.0
  {
    if |cuts| >= 2 {
      DropCut(inside, cuts, lo, lo);
      NothingBetween(inside, cuts[1..], lo);
    }
  }

  lemma DropCut(inside: real -> bool, cuts: seq<real>, lo: real, hi: real)
    requires Cuts(inside, cuts, lo, hi) && |cuts| >= 2
    ensures lo <= cuts[1] <= hi && Cuts(inside, cuts[1..], cuts[1], hi)
  {
    var r := cuts[1..];
    forall i, x | 0 <= i < |r| - 1 && r[i] <= x < r[i + 1]
      ensures inside(x) == inside(r[i])
    {
      assert r[i] == cuts[i + 1] && r[i + 1] == cuts[i + 2];
    }
  }

  /** Moving the first cut to the right inside its piece. */
  lemma Shorten(inside: real -> bool, cuts: seq<real>, lo: real, hi: real, c: real)
    requires Cuts(inside, cuts, lo, hi) && |cuts| >= 2 && lo <= c < cuts[1]
    ensures Cuts(inside, [c] + cuts[1..], c, hi)
    ensures Total(inside, cuts) == Total(inside, [c] + cuts[1..]) + if inside(lo) then c - lo else 0.0
  {
    var r := [c] + cuts[1..];
    assert forall i :: 0 < i < |r| ==> r[i] == cuts[i];
    assert inside(c) == inside(lo);
    assert r[1..] == cuts[1..];
    forall i, x | 0 <= i < |r| - 1 && r[i] <= x < r[i + 1]
      ensures inside(x) == inside(r[i])
    {
      if i == 0 { assert cuts[0] <= x < cuts[1]; } else { assert cuts[i] <= x < cuts[i + 1]; }
    }
  }

  /** However the set is cut, its length is the same. */
  lemma {:induction false} OneLength(inside: real -> bool, a: seq<real>, b: seq<real>, lo: real, hi: real)
    requires Cuts(inside, a, lo, hi) && Cuts(inside, b, lo, hi)
    ensures Total(inside, a) == Total(inside, b)
    decreases |a| + |b|
  {
    hide Cuts;
    if |a| < 2 {
      Single(inside, a, lo, hi);
      NothingBetween(inside, b, lo);
    } else if |b| < 2 {
      Single(inside, b, lo, hi);
      NothingBetween(inside, a, lo);
    } else {
      First(inside, a, lo, hi);
      First(inside, b, lo, hi);
      DropCut(inside, a, lo, hi);
      DropCut(inside, b, lo, hi);
      if a[1] == b[1] {
        OneLength(inside, a[1..], b[1..], a[1], hi);
      } else if a[1] < b[1] {
        Shorten(inside, b, lo, hi, a[1]);
        OneLength(inside, a[1..], [a[1]] + b[1..], a[1], hi);
      } else {
        Shorten(inside, a, lo, hi, b[1]);
        OneLength(inside, [b[1]] + a[1..], b[1..], b[1], hi);
      }
    }
  }

  lemma Single(inside: real -> bool, cuts: seq<real>, lo: real, hi: real)
    requires Cuts(inside, cuts, lo, hi) && |cuts| < 2
    ensures lo == hi
  {
  }

  lemma First(inside: real -> bool, cuts: seq<real>, lo: real, hi: real)
    requires Cuts(inside, cuts, lo, hi)
    ensures |cuts| > 0 && cuts[0] == lo
  {
  }

  // ---- what the mask must hold ---------------------------------------------------------------

  /** The interior on the horizontal line at `y` has this length in pixel column `x`. */
  ghost predicate LineLength(ps: seq<PointF>, y: real, x: int, length: real) {
    Measures(v => Interior(ps, v, y), x as real, x as real + 1.0, length)
  }

  function Sum(lengths: seq<real>): real {
    if |lengths| == 0 then 0.0 else Sum(lengths[..|lengths| - 1]) + lengths[|lengths| - 1]
  }

  /** The middle of the `s`-th of `n` equal parts of row `y`. */
  function Line(y: int, s: nat, n: nat): real
    requires n > 0
  {
    y as real + (2 * s + 1) as real / (2 * n) as real
  }

  /** These are the lengths on as many lines of row `y`. */
  ghost predicate RowLengths(ps: seq<PointF>, x: int, y: int, lengths: seq<real>) {
    forall s :: 0 <= s < |lengths| ==> LineLength(ps, Line(y, s, |lengths|), x, lengths[s])
  }

  /** `area` is the mean of the lengths on `n` lines. */
  ghost predicate Covers(ps: seq<PointF>, x: int, y: int, n: nat, area: real) {
    exists lengths :: |lengths| == n && RowLengths(ps, x, y, lengths) && n as real * area == Sum(lengths)
  }

  /** The byte nearest to `255 * area`, the larger one of two. */
  predicate Nearest(area: real, v: u8) {
    v as real - 0.5 <= 255.0 * area < v as real + 0.5
  }

  /** Four lines a row and the nearest byte, or the middle line and all or nothing. */
  ghost predicate LassoValue(ps: seq<PointF>, antialias: bool, x: int, y: int, v: u8) {
    if antialias then exists area :: Covers(ps, x, y, 4, area) && Nearest(area, v)
    else exists area :: Covers(ps, x, y, 1, area) && v == if area >= 0.5 then 255 else 0
  }

  lemma OneLineLength(ps: seq<PointF>, y: real, x: int, a: real, b: real)
    requires LineLength(ps, y, x, a) && LineLength(ps, y, x, b)
    ensures a == b
  {
    hide Cuts, Total, Interior;
    var inside := v => Interior(ps, v, y);
    var lo, hi := x as real, x as real + 1.0;
    var p :| Cuts(inside, p, lo, hi) && Total(inside, p) == a;
    var q :| Cuts(inside, q, lo, hi) && Total(inside, q) == b;
    OneLength(inside, p, q, lo, hi);
  }

  /** The rule leaves no choice. */
  lemma OneLassoValue(ps: seq<PointF>, antialias: bool, x: int, y: int, v: u8, w: u8)
    requires LassoValue(ps, antialias, x, y, v) && LassoValue(ps, antialias, x, y, w)
    ensures v == w
  {
    hide Covers;
    var n := if antialias then 4 else 1;
    var a :| Covers(ps, x, y, n, a) && if antialias then Nearest(a, v) else v == if a >= 0.5 then 255 else 0;
    var b :| Covers(ps, x, y, n, b) && if antialias then Nearest(b, w) else w == if b >= 0.5 then 255 else 0;
    OneArea(ps, x, y, n, a, b);
  }

  lemma OneArea(ps: seq<PointF>, x: int, y: int, n: nat, a: real, b: real)
    requires Covers(ps, x, y, n, a) && Covers(ps, x, y, n, b) && n > 0
    ensures a == b
  {
    hide RowLengths, Sum;
    var l :| |l| == n && RowLengths(ps, x, y, l) && n as real * a == Sum(l);
    var m :| |m| == n && RowLengths(ps, x, y, m) && n as real * b == Sum(m);
    OneRow(ps, x, y, l, m);
    SameShare(n as real, a, b);
  }

  lemma OneRow(ps: seq<PointF>, x: int, y: int, l: seq<real>, m: seq<real>)
    requires RowLengths(ps, x, y, l) && RowLengths(ps, x, y, m) && |l| == |m|
    ensures l == m
  {
    hide LineLength;
    forall s | 0 <= s < |l|
      ensures l[s] == m[s]
    {
      OneLineLength(ps, Line(y, s, |l|), x, l[s], m[s]);
    }
  }

  lemma SameShare(n: real, a: real, b: real)
    requires n > 0.0 && n * a == n * b
    ensures a == b
  {
  }
}
