/** The squared-distance transform behind growing and shrinking a selection
    (core/src/selection.cpp, `distance1d` and `distance2d`). `f32` values are reals. */
module Distance {

  /** `std::numeric_limits<f32>::max()`, the sentinel at both ends of the envelope. */
  const F32_MAX: real := 340282346638528859811704183484516925440.0

  /** The parabola rooted at sample `p`, evaluated at `x`. */
  function Parabola(f: seq<real>, p: int, x: real): real
    requires 0 <= p < |f|
  {
    (x - p as real) * (x - p as real) + f[p]
  }

  /** Where the parabolas of `a` and `b` cross, as the code computes it. */
  function Meet(f: seq<real>, a: int, b: int): real
    requires 0 <= a < b < |f|
  {
    ((f[b] + b as real * b as real) - (f[a] + a as real * a as real)) / (2.0 * b as real - 2.0 * a as real)
  }

  /** `r` is the least value at `x` over all parabolas, and is attained. */
  ghost predicate IsLower(f: seq<real>, x: real, r: real) {
    && (exists p :: 0 <= p < |f| && r == Parabola(f, p, x))
    && (forall p :: 0 <= p < |f| ==> r <= Parabola(f, p, x))
  }

  /** At `x`, no parabola rooted before `m` is below the one rooted at `p`. */
  ghost predicate Least(f: seq<real>, p: int, m: int, x: real)
    requires 0 <= p < |f| && 0 <= m <= |f|
  {
    forall i :: 0 <= i < m ==> Parabola(f, p, x) <= Parabola(f, i, x)
  }

  lemma SignOfProduct(c: real, u: real)
    requires c > 0.0
    ensures c * u >= 0.0 <==> u >= 0.0
    ensures c * u > 0.0 <==> u > 0.0
  {
  }

  lemma Quotient(n: real, w: real)
    requires w > 0.0
    ensures n / w * w == n
  {
  }

  lemma Square(x: real, p: real)
    ensures (x - p) * (x - p) == x * x - 2.0 * (x * p) + p * p
  {
  }

  lemma Distribute(x: real, b: real, a: real)
    ensures x * (2.0 * b - 2.0 * a) == 2.0 * (x * b) - 2.0 * (x * a)
  {
  }

  lemma ByFactor(w: real, s: real, x: real)
    ensures w * (s - x) == s * w - x * w
  {
  }

  /** Left of the crossing the earlier parabola is the lower one, right of it the later one. */
  lemma MeetOrders(f: seq<real>, a: int, b: int, x: real)
    requires 0 <= a < b < |f|
    ensures Parabola(f, a, x) <= Parabola(f, b, x) <==> x <= Meet(f, a, b)
    ensures Parabola(f, b, x) <= Parabola(f, a, x) <==> Meet(f, a, b) <= x
  {
    var ra, rb, s := a as real, b as real, Meet(f, a, b);
    var w, n := 2.0 * rb - 2.0 * ra, (f[b] + rb * rb) - (f[a] + ra * ra);
    Quotient(n, w);
    Square(x, ra);
    Square(x, rb);
    Distribute(x, rb, ra);
    ByFactor(w, s, x);
    assert Parabola(f, b, x) - Parabola(f, a, x) == n - x * w == w * (s - x);
    SignOfProduct(w, s - x);
    SignOfProduct(w, x - s);
    ByFactor(w, x, s);
  }

  /** The lower envelope of the parabolas rooted before `m`: parabola `v[j]` is lowest between
      `z[j]` and `z[j+1]`, and the pieces reach from just above -F32_MAX up to F32_MAX. */
  ghost predicate Envelope(f: seq<real>, v: seq<int>, z: seq<real>, k: int, m: int) {
    && 0 <= k < m <= |f|
    && k < |v| && k + 1 < |z|
    && z[0] == -F32_MAX && z[k + 1] == F32_MAX
    && (forall j :: 0 <= j <= k ==> 0 <= v[j] < m)
    && (forall i, j :: 1 <= i <= j <= k ==> z[i] <= z[j])
    && (forall j, x :: 0 <= j <= k && -F32_MAX < x <= F32_MAX && z[j] <= x <= z[j + 1] ==> Least(f, v[j], m, x))
  }

  /** Right of `from`, parabola `q` is below every parabola rooted before it. */
  ghost predicate Wins(f: seq<real>, q: int, from: real)
    requires 0 <= q < |f|
  {
    forall x :: from < x <= F32_MAX && -F32_MAX < x ==> Least(f, q, q, x)
  }

  /** Popping: if `q` crosses the top piece at or left of the piece's start, `q` wins from there. */
  lemma PopWins(f: seq<real>, v: seq<int>, z: seq<real>, k0: int, k: int, q: int)
    requires 0 < q < |f| && Envelope(f, v, z, k0, q) && 0 <= k <= k0
    requires Wins(f, q, z[k + 1])
    requires Meet(f, v[k], q) <= z[k]
    ensures Wins(f, q, z[k])
  {
    forall x | z[k] < x <= F32_MAX && -F32_MAX < x
      ensures Least(f, q, q, x)
    {
      if x <= z[k + 1] {
        assert Least(f, v[k], q, x);
        MeetOrders(f, v[k], q, x);
      }
    }
  }

  lemma LeastAfter(f: seq<real>, p: int, q: int, x: real)
    requires 0 <= q < |f| && 0 <= p <= q
    requires Least(f, p, q, x) && Parabola(f, p, x) <= Parabola(f, q, x)
    ensures Least(f, p, q + 1, x)
  {
  }

  /** Pushing `q` on top of piece `k` at crossing `s` restores the envelope, one sample longer. */
  lemma PushKeepsEnvelope(f: seq<real>, v: seq<int>, z: seq<real>, k0: int, k: int, q: int, s: real,
                          v': seq<int>, z': seq<real>)
    requires 0 < q < |f| && Envelope(f, v, z, k0, q) && 0 <= k <= k0
    requires s == Meet(f, v[k], q)
    requires (s > z[k] && Wins(f, q, z[k + 1])) || (k == 0 && s <= z[0] && Wins(f, q, z[0]))
    requires k + 1 < |v| && k + 2 < |z|
    requires v' == v[k + 1 := q] && z' == z[k + 1 := s][k + 2 := F32_MAX]
    ensures Envelope(f, v', z', k + 1, q + 1)
  {
    var m := q + 1;
    forall j, x | 0 <= j <= k + 1 && -F32_MAX < x <= F32_MAX && z'[j] <= x <= z'[j + 1]
      ensures Least(f, v'[j], m, x)
    {
      MeetOrders(f, v[k], q, x);
      if j < k {
        assert x <= z[j + 1] <= z[k] < s;
        assert Least(f, v[j], q, x);
        LeastAfter(f, v[j], q, x);
      } else if j == k {
        assert v'[j] == v[k] && x <= s;
        if x <= z[k + 1] {
          assert Least(f, v[k], q, x);
        } else {
          assert Least(f, q, q, x);
        }
        LeastAfter(f, v[k], q, x);
      } else {
        if s > z[k] && x <= z[k + 1] {
          assert Least(f, v[k], q, x);
        } else {
          assert Least(f, q, q, x);
        }
      }
    }
  }

  lemma SumPositive(a: real, b: real, m: real)
    requires a > -(2.0 * m) && b >= 2.0 * m
    ensures a + b > 0.0
  {
  }

  lemma AboveBound(w: real, s: real, m: real)
    requires 0.0 < w && s * w > -(2.0 * m) && m * w >= 2.0 * m
    ensures s > -m
  {
    SumPositive(s * w, m * w, m);
    assert w * (s + m) == s * w + m * w;
    SignOfProduct(w, s + m);
  }

  lemma CrossingAbove(fa: real, fb: real, ra: real, rb: real, s: real, m: real)
    requires 0.0 <= ra && ra + 1.0 <= rb
    requires fa <= m && -m <= fb && 0.0 < m
    requires s * (2.0 * rb - 2.0 * ra) == (fb + rb * rb) - (fa + ra * ra)
    ensures s > -m
  {
    var w := 2.0 * rb - 2.0 * ra;
    var gap := (rb - ra) * (rb + ra);
    assert gap > 0.0 by { SignOfProduct(rb - ra, rb + ra); }
    assert gap == rb * rb - ra * ra;
    assert s * w > -(2.0 * m);
    assert m * w >= 2.0 * m by {
      SignOfProduct(m, w - 2.0);
      assert m * (w - 2.0) == m * w - 2.0 * m;
    }
    AboveBound(w, s, m);
  }

  /** With finite `f32` samples no crossing lies at or left of the first sentinel. */
  lemma FiniteNeverFalls(f: seq<real>, a: int, b: int)
    requires 0 <= a < b < |f|
    requires -F32_MAX <= f[a] <= F32_MAX && -F32_MAX <= f[b] <= F32_MAX
    ensures Meet(f, a, b) > -F32_MAX
  {
    CrossingAbove(f[a], f[b], a as real, b as real, Meet(f, a, b), F32_MAX);
  }

  lemma FirstPiece(f: seq<real>, v: seq<int>, z: seq<real>)
    requires |f| > 0 && |v| >= |f| && |z| >= |f| + 1 && v[0] == 0 && z[0] == -F32_MAX && z[1] == F32_MAX
    ensures Envelope(f, v, z, 0, 1)
  {
  }

  /** With larger samples a crossing can lie at the sentinel or left of it, and the guard fires. */
  lemma LargeFallOff()
    ensures exists f: seq<real> :: |f| == 2 && Meet(f, 0, 1) <= -F32_MAX && !FiniteSamples(f)
  {
    var f := [3.0 * F32_MAX, 0.0];
    assert Meet(f, 0, 1) == (1.0 - 3.0 * F32_MAX) / 2.0;
    assert f[0] > F32_MAX;
  }

  ghost predicate FiniteSamples(f: seq<real>) {
    forall i :: 0 <= i < |f| ==> -F32_MAX <= f[i] <= F32_MAX
  }

  /** The popping loop of `distance1d`: drops every top piece that parabola `q` beats from its
      start, and returns the remaining top and the crossing with it. */
  method PopPieces(f: seq<real>, v: array<int>, z: array<real>, k0: int, q: int)
    returns (k: int, s: real, ghost fell: bool)
    requires 0 < q < |f| && Envelope(f, v[..], z[..], k0, q)
    ensures 0 <= k <= k0 && s == Meet(f, v[k], q)
    ensures if fell then k == 0 && s <= z[0] && Wins(f, q, z[0]) else s > z[k] && Wins(f, q, z[k + 1])
    ensures FiniteSamples(f) ==> !fell
  {
    k, fell := k0, false;
    while true
      invariant 0 <= k <= k0 && Wins(f, q, z[k + 1])
      decreases k
    {
      s := Meet(f, v[k], q);
      if s > z[k] { return; }
      PopWins(f, v[..], z[..], k0, k, q);
      k := k - 1;
      if k < 0 {
        k := 0;
        if FiniteSamples(f) { FiniteNeverFalls(f, v[0], q); }
        fell := true;
        return;
      }
    }
  }

  /** One round of the outer loop: pops, then pushes parabola `q`. */
  method PushPiece(f: seq<real>, v: array<int>, z: array<real>, k0: int, q: int) returns (k: int, ghost fell: bool)
    requires 0 < q < |f| && Envelope(f, v[..], z[..], k0, q)
    requires v.Length > k0 + 1 && z.Length > k0 + 2
    modifies v, z
    ensures k <= k0 + 1 && Envelope(f, v[..], z[..], k, q + 1)
    ensures FiniteSamples(f) ==> !fell
  {
    ghost var v0, z0 := v[..], z[..];
    var s;
    k, s, fell := PopPieces(f, v, z, k0, q);
    k := k + 1;
    v[k] := q;
    z[k] := s;
    z[k + 1] := F32_MAX;
    PushKeepsEnvelope(f, v0, z0, k0, k - 1, q, s, v[..], z[..]);
  }

  /** First half of `distance1d`: builds the lower envelope in `v` and `z` and returns its top
      piece. `fellOff` records whether the guard `k < 0` ever fired. */
  method BuildEnvelope(f: seq<real>, v: array<int>, z: array<real>) returns (k: int, ghost fellOff: bool)
    requires v.Length >= |f| && v.Length >= 1 && z.Length >= |f| + 1 && z.Length >= 2
    modifies v, z
    ensures |f| > 0 ==> Envelope(f, v[..], z[..], k, |f|)
    ensures FiniteSamples(f) ==> !fellOff
  {
    hide Envelope;
    fellOff := false;
    k := 0;
    v[0] := 0;
    z[0] := -F32_MAX;
    z[1] := F32_MAX;
    var q := 1;
    if |f| > 0 { FirstPiece(f, v[..], z[..]); }
    while q < |f|
      invariant |f| == 0 || 1 <= q <= |f|
      invariant |f| > 0 ==> k < q && Envelope(f, v[..], z[..], k, q)
      invariant FiniteSamples(f) ==> !fellOff
    {
      ghost var fell;
      k, fell := PushPiece(f, v, z, k, q);
      fellOff := fellOff || fell;
      q := q + 1;
    }
  }

  /** Second half: reads the envelope off at every sample position. */
  method ReadEnvelope(f: seq<real>, d: array<real>, v: array<int>, z: array<real>, ghost top: int)
    requires |f| <= 0x7fff_ffff && d.Length >= |f| && d != z
    requires |f| > 0 ==> Envelope(f, v[..], z[..], top, |f|)
    modifies d
    ensures forall q :: 0 <= q < |f| ==> IsLower(f, q as real, d[q])
    ensures forall q :: |f| <= q < d.Length ==> d[q] == old(d[q])
  {
    var k, q := 0, 0;
    while q < |f|
      invariant 0 <= q <= |f|
      invariant q < |f| ==> 0 <= k <= top && z[k] <= q as real
      invariant forall i :: 0 <= i < q ==> IsLower(f, i as real, d[i])
      invariant forall i :: |f| <= i < d.Length ==> d[i] == old(d[i])
    {
      while z[k + 1] < q as real
        invariant 0 <= k <= top && z[k] <= q as real
        decreases top - k
      {
        k := k + 1;
      }
      var dx := q as real - v[k] as real;
      d[q] := dx * dx + f[v[k]];
      assert Least(f, v[..][k], |f|, q as real);
      assert d[q] == Parabola(f, v[k], q as real);
      q := q + 1;
    }
  }

  /** One row or column of the transform: `d[q]` becomes the exact minimum of
      `(q - p)^2 + f[p]`. With finite samples the guard `k < 0` never fires. */
  method Distance1D(f: seq<real>, d: array<real>, v: array<int>, z: array<real>) returns (ghost fellOff: bool)
    requires |f| <= 0x7fff_ffff && d.Length >= |f| && d != z
    requires v.Length >= |f| && v.Length >= 1 && z.Length >= |f| + 1 && z.Length >= 2
    modifies d, v, z
    ensures forall q :: 0 <= q < |f| ==> IsLower(f, q as real, d[q])
    ensures forall q :: |f| <= q < d.Length ==> d[q] == old(d[q])
    ensures FiniteSamples(f) ==> !fellOff
  {
    var k;
    k, fellOff := BuildEnvelope(f, v, z);
    ReadEnvelope(f, d, v, z, k);
  }

  // ---- two dimensions -------------------------------------------------------------------

  /** Position of column `x`, row `y` in a row-major field `w` wide. */
  function Cell(w: int, x: int, y: int): int {
    y * w + x
  }

  lemma CellBounds(w: int, h: int, x: int, y: int)
    requires 0 <= x < w && 0 <= y < h
    ensures 0 <= Cell(w, x, y) < w * h && y * w + w <= w * h
  {
    assert y * w + w == (y + 1) * w <= h * w by { MulMono(y + 1, h, w); }
    MulMono(0, y, w);
  }

  lemma MulMono(a: int, b: int, w: int)
    requires a <= b && 0 <= w
    ensures a * w <= b * w
  {
  }

  lemma CellInjective(w: int, x: int, y: int, x': int, y': int)
    requires 0 <= x < w && 0 <= x' < w
    ensures Cell(w, x, y) == Cell(w, x', y') <==> x == x' && y == y'
  {
    if y < y' {
      MulMono(y + 1, y', w);
    } else if y' < y {
      MulMono(y' + 1, y, w);
    }
  }

  ghost predicate Field(f: seq<real>, w: int, h: int) {
    && 0 <= w <= 0x7fff_ffff && 0 <= h <= 0x7fff_ffff
    && |f| == w * h
  }

  /** Column `x` of the field as a one-dimensional array of samples. */
  ghost function Column(f: seq<real>, w: int, h: int, x: int): (c: seq<real>)
    requires Field(f, w, h) && 0 <= x < w
    ensures |c| == h
    ensures forall y :: 0 <= y < h ==> CellOk(w, h, x, y) && c[y] == f[Cell(w, x, y)]
  {
    assert forall y :: 0 <= y < h ==> CellOk(w, h, x, y) by {
      forall y | 0 <= y < h ensures CellOk(w, h, x, y) { CellBounds(w, h, x, y); }
    }
    seq(h, y requires 0 <= y < h && CellOk(w, h, x, y) => f[Cell(w, x, y)])
  }

  ghost predicate CellOk(w: int, h: int, x: int, y: int) {
    0 <= Cell(w, x, y) < w * h
  }

  /** Squared Euclidean distance from sample `(px, py)` to `(x, y)`, plus the sample's height. */
  function Cone(f: seq<real>, w: int, px: int, py: int, x: int, y: int): real
    requires 0 <= Cell(w, px, py) < |f|
  {
    (x as real - px as real) * (x as real - px as real) +
    (y as real - py as real) * (y as real - py as real) + f[Cell(w, px, py)]
  }

  ghost predicate Inside(w: int, h: int, x: int, y: int) {
    0 <= x < w && 0 <= y < h
  }

  /** `r` is the exact two-dimensional minimum at `(x, y)`, and is attained. */
  ghost predicate IsLower2(f: seq<real>, w: int, h: int, x: int, y: int, r: real)
    requires Field(f, w, h)
  {
    && (exists px, py :: Inside(w, h, px, py) && CellOk(w, h, px, py) && r == Cone(f, w, px, py, x, y))
    && (forall px, py :: Inside(w, h, px, py) && CellOk(w, h, px, py) ==> r <= Cone(f, w, px, py, x, y))
  }

  lemma ConeIs(f: seq<real>, g: seq<real>, w: int, h: int, px: int, py: int, x: int, y: int)
    requires Field(f, w, h) && Inside(w, h, px, py) && |g| == w && CellOk(w, h, px, py)
    ensures Cone(f, w, px, py, x, y) - Parabola(g, px, x as real)
            == Parabola(Column(f, w, h, px), py, y as real) - g[px]
  {
  }

  lemma UnderCone(f: seq<real>, g: seq<real>, w: int, h: int, x: int, y: int, r: real, px: int, py: int)
    requires Field(f, w, h) && Inside(w, h, px, py) && |g| == w && CellOk(w, h, px, py)
    requires IsLower(Column(f, w, h, px), y as real, g[px]) && IsLower(g, x as real, r)
    ensures r <= Cone(f, w, px, py, x, y)
  {
    hide Parabola, Cone, Column;
    assert r <= Parabola(g, px, x as real);
    assert g[px] <= Parabola(Column(f, w, h, px), py, y as real);
    ConeIs(f, g, w, h, px, py, x, y);
  }

  /** Minimum over columns of minima along columns is the minimum over the plane. */
  lemma RowOfColumnMinima(f: seq<real>, g: seq<real>, w: int, h: int, x: int, y: int, r: real)
    requires Field(f, w, h) && Inside(w, h, x, y) && |g| == w
    requires forall px :: 0 <= px < w ==> IsLower(Column(f, w, h, px), y as real, g[px])
    requires IsLower(g, x as real, r)
    ensures IsLower2(f, w, h, x, y, r)
  {
    forall px, py | Inside(w, h, px, py) && CellOk(w, h, px, py)
      ensures r <= Cone(f, w, px, py, x, y)
    {
      UnderCone(f, g, w, h, x, y, r, px, py);
    }
    var px :| 0 <= px < w && r == Parabola(g, px, x as real);
    var py :| 0 <= py < h && g[px] == Parabola(Column(f, w, h, px), py, y as real);
    assert Inside(w, h, px, py) && CellOk(w, h, px, py);
    ConeIs(f, g, w, h, px, py, x, y);
  }

  method LoadColumn(f: array<real>, w: int, h: int, x: int, col: array<real>)
    requires Field(f[..], w, h) && 0 <= x < w && col.Length >= h && f != col
    modifies col
    ensures col[..h] == Column(f[..], w, h, x)
  {
    var y := 0;
    while y < h
      invariant 0 <= y <= h
      invariant forall i :: 0 <= i < y ==> col[i] == Column(f[..], w, h, x)[i]
    {
      CellBounds(w, h, x, y);
      assert CellOk(w, h, x, y);
      col[y] := f[y * w + x];
      y := y + 1;
    }
  }

  lemma SetCellAt(f: seq<real>, w: int, h: int, x: int, y: int, r: real, x': int, y': int)
    requires Field(f, w, h) && Inside(w, h, x, y) && CellOk(w, h, x, y) && Inside(w, h, x', y')
    ensures Column(f[Cell(w, x, y) := r], w, h, x')[y'] == if x' == x && y' == y then r else Column(f, w, h, x')[y']
  {
    assert CellOk(w, h, x', y') by { CellBounds(w, h, x', y'); }
    CellInjective(w, x, y, x', y');
  }

  lemma SetCell(f: seq<real>, w: int, h: int, x: int, y: int, r: real, x': int)
    requires Field(f, w, h) && Inside(w, h, x, y) && CellOk(w, h, x, y) && 0 <= x' < w
    ensures Column(f[Cell(w, x, y) := r], w, h, x') == if x' == x then Column(f, w, h, x)[y := r]
            else Column(f, w, h, x')
  {
    var c' := Column(f[Cell(w, x, y) := r], w, h, x');
    forall y' | 0 <= y' < h
      ensures c'[y'] == if x' == x && y' == y then r else Column(f, w, h, x')[y']
    {
      SetCellAt(f, w, h, x, y, r, x', y');
    }
  }

  method StoreColumn(f: array<real>, w: int, h: int, x: int, out: array<real>)
    requires Field(f[..], w, h) && 0 <= x < w && out.Length >= h && f != out
    modifies f
    ensures Column(f[..], w, h, x) == out[..h]
    ensures forall x' :: 0 <= x' < w && x' != x ==> Column(f[..], w, h, x') == Column(old(f[..]), w, h, x')
  {
    var y := 0;
    while y < h
      invariant 0 <= y <= h
      invariant Column(f[..], w, h, x)[..y] == out[..y]
      invariant forall x' :: 0 <= x' < w && x' != x ==> Column(f[..], w, h, x') == Column(old(f[..]), w, h, x')
    {
      ghost var f1 := f[..];
      CellBounds(w, h, x, y);
      forall x' | 0 <= x' < w { SetCell(f1, w, h, x, y, out[y], x'); }
      f[y * w + x] := out[y];
      assert f[..] == f1[Cell(w, x, y) := out[y]];
      y := y + 1;
    }
  }

  /** Row `y` of the field. */
  ghost function Row(f: seq<real>, w: int, h: int, y: int): (r: seq<real>)
    requires Field(f, w, h) && 0 <= y < h
    ensures |r| == w
    ensures forall x :: 0 <= x < w ==> r[x] == Column(f, w, h, x)[y]
  {
    seq(w, x requires 0 <= x < w => Column(f, w, h, x)[y])
  }

  method LoadRow(f: array<real>, w: int, h: int, y: int) returns (row: seq<real>)
    requires Field(f[..], w, h) && 0 <= y < h
    ensures row == Row(f[..], w, h, y)
  {
    MulMono(0, y, w);
    MulMono(y + 1, h, w);
    row := f[y * w..y * w + w];
    forall x | 0 <= x < w
      ensures row[x] == Column(f[..], w, h, x)[y]
    {
      assert CellOk(w, h, x, y) by { CellBounds(w, h, x, y); }
    }
  }

  method StoreRow(f: array<real>, w: int, h: int, y: int, out: array<real>)
    requires Field(f[..], w, h) && 0 <= y < h && out.Length >= w && f != out
    modifies f
    ensures forall x :: 0 <= x < w ==> Column(f[..], w, h, x) == Column(old(f[..]), w, h, x)[y := out[x]]
  {
    var x := 0;
    while x < w
      invariant 0 <= x <= w
      invariant forall i :: 0 <= i < w ==>
                  Column(f[..], w, h, i) == if i < x then Column(old(f[..]), w, h, i)[y := out[i]]
                    else Column(old(f[..]), w, h, i)
    {
      ghost var f1 := f[..];
      CellBounds(w, h, x, y);
      forall x' | 0 <= x' < w { SetCell(f1, w, h, x, y, out[x], x'); }
      f[y * w + x] := out[x];
      assert f[..] == f1[Cell(w, x, y) := out[x]];
      x := x + 1;
    }
  }

  ghost predicate ColumnsDone(f: seq<real>, g: seq<real>, w: int, h: int) {
    && Field(f, w, h) && Field(g, w, h)
    && forall x, y :: Inside(w, h, x, y) ==> IsLower(Column(f, w, h, x), y as real, Column(g, w, h, x)[y])
  }

  ghost predicate RowsDone(f: seq<real>, g: seq<real>, w: int, h: int) {
    && Field(f, w, h) && Field(g, w, h)
    && forall x, y :: Inside(w, h, x, y) ==> IsLower(Row(f, w, h, y), x as real, Column(g, w, h, x)[y])
  }

  method TransformColumns(f: array<real>, w: int, h: int, col: array<real>, out: array<real>, v: array<int>,
          z: array<real>)
    requires Field(f[..], w, h)
    requires col.Length >= h && out.Length >= h && v.Length >= h + 1 && z.Length >= h + 2
    requires f != col && f != out && f != z && col != out && col != z && out != z
    modifies f, col, out, v, z
    ensures ColumnsDone(old(f[..]), f[..], w, h)
  {
    ghost var f0 := f[..];
    var x := 0;
    while x < w
      invariant 0 <= x <= w
      invariant forall i, y :: Inside(w, h, i, y) && i < x ==>
                IsLower(Column(f0, w, h, i), y as real, Column(f[..], w, h, i)[y])
      invariant forall i :: x <= i < w ==> Column(f[..], w, h, i) == Column(f0, w, h, i)
    {
      ghost var f1 := f[..];
      LoadColumn(f, w, h, x, col);
      var _ := Distance1D(col[..h], out, v, z);
      assert f[..] == f1;
      StoreColumn(f, w, h, x, out);
      x := x + 1;
    }
  }

  method TransformRows(f: array<real>, w: int, h: int, out: array<real>, v: array<int>, z: array<real>)
    requires Field(f[..], w, h)
    requires out.Length >= w && v.Length >= w + 1 && z.Length >= w + 2
    requires f != out && f != z && out != z
    modifies f, out, v, z
    ensures RowsDone(old(f[..]), f[..], w, h)
  {
    ghost var f0 := f[..];
    var y := 0;
    while y < h
      invariant 0 <= y <= h
      invariant forall x, i :: Inside(w, h, x, i) && i < y ==>
                IsLower(Row(f0, w, h, i), x as real, Column(f[..], w, h, x)[i])
      invariant forall x, i :: Inside(w, h, x, i) && y <= i ==> Column(f[..], w, h, x)[i] == Column(f0, w, h, x)[i]
    {
      ghost var f1 := f[..];
      var row := LoadRow(f, w, h, y);
      assert row == Row(f0, w, h, y);
      var _ := Distance1D(row, out, v, z);
      assert f[..] == f1;
      StoreRow(f, w, h, y, out);
      y := y + 1;
    }
  }

  /** Every cell of `g` is the exact two-dimensional minimum over the cells of `f`. */
  ghost predicate Transformed(f: seq<real>, g: seq<real>, w: int, h: int) {
    && Field(f, w, h) && Field(g, w, h)
    && forall x, y :: Inside(w, h, x, y) ==> IsLower2(f, w, h, x, y, Column(g, w, h, x)[y])
  }

  lemma TwoPasses(f0: seq<real>, f1: seq<real>, f2: seq<real>, w: int, h: int)
    requires ColumnsDone(f0, f1, w, h) && RowsDone(f1, f2, w, h)
    ensures Transformed(f0, f2, w, h)
  {
    forall x, y | Inside(w, h, x, y)
      ensures IsLower2(f0, w, h, x, y, Column(f2, w, h, x)[y])
    {
      forall px | 0 <= px < w
        ensures IsLower(Column(f0, w, h, px), y as real, Row(f1, w, h, y)[px])
      {
        assert Inside(w, h, px, y);
      }
      RowOfColumnMinima(f0, Row(f1, w, h, y), w, h, x, y, Column(f2, w, h, x)[y]);
    }
  }

  /** `distance2d`: a transform down every column, then along every row, in place. */
  method Distance2D(f: array<real>, w: int, h: int)
    requires Field(f[..], w, h)
    modifies f
    ensures Transformed(old(f[..]), f[..], w, h)
  {
    var n := if w < h then h else w;
    var col := new real[n];
    var out := new real[n];
    var v := new int[n + 1];
    var z := new real[n + 2];
    ghost var f0 := f[..];
    assert f0 == old(f[..]);
    TransformColumns(f, w, h, col, out, v, z);
    ghost var f1 := f[..];
    TransformRows(f, w, h, out, v, z);
    TwoPasses(f0, f1, f[..], w, h);
  }
}
