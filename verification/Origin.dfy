/** Stroke origins and per-origin counts (include/mari/core/origin.hpp). */
module Origin {
  import opened Bytes
  import opened Frame

  const SLOTS := 6

  /** Unknown origins are counted in slot 0, never dropped. */
  function Slot(origin: u8): (s: nat)
    ensures s < SLOTS
  {
    if origin < SLOTS then origin else 0
  }

  type Stats = s: seq<nat> | |s| == SLOTS witness [0, 0, 0, 0, 0, 0]

  const NONE: Stats := [0, 0, 0, 0, 0, 0]

  function Add(st: Stats, origin: u8, n: nat): Stats {
    st[Slot(origin) := st[Slot(origin)] + n]
  }

  function Sum(a: Stats, b: Stats): Stats {
    [a[0] + b[0], a[1] + b[1], a[2] + b[2], a[3] + b[3], a[4] + b[4], a[5] + b[5]]
  }

  lemma AddSum(a: Stats, b: Stats, origin: u8, n: nat)
    ensures Sum(Add(a, origin, n), b) == Add(Sum(a, b), origin, n) == Sum(a, Add(b, origin, n))
  {
  }

  /** Stroke starts per origin: brush strokes, or region operations when `synthetic`. */
  function Downs(frames: seq<StrokeFrame>, synthetic: bool): Stats {
    if |frames| == 0 then NONE
    else
      var init, f := Downs(frames[..|frames| - 1], synthetic), frames[|frames| - 1];
      if HasFlag(f.flags, DOWN) && HasFlag(f.flags, SYNTHETIC) == synthetic then Add(init, f.origin, 1) else init
  }

  /** The slot of an origin: its own number, or 0 for one that is not known. */
  predicate InSlot(origin: u8, k: nat) { if k == 0 then origin == 0 || origin >= 6 else origin == k < 6 }

  /** Frame `f` starts a stroke of this kind from this origin. */
  predicate Starts(f: StrokeFrame, synthetic: bool, k: nat) {
    f.flags % 2 == 1 && (f.flags % 32 >= 16) == synthetic && InSlot(f.origin, k)
  }

  /** One slot grows, the others stay. */
  lemma AddAt(st: Stats, origin: u8, n: nat, k: nat)
    requires k < SLOTS
    ensures Add(st, origin, n)[k] == st[k] + if InSlot(origin, k) then n else 0
  {
  }

  lemma OneMore(was: set<nat>, now: set<nat>, n: nat, more: bool)
    requires n !in was && forall i :: i in now <==> i in was || (more && i == n)
    ensures |now| == |was| + if more then 1 else 0
  {
    if more { assert now == was + {n}; } else { assert now == was; }
  }

  /** Slot by slot the counts are the numbers of such frames. */
  lemma {:induction false} DownsCount(frames: seq<StrokeFrame>, synthetic: bool, k: nat)
    requires k < SLOTS
    ensures Downs(frames, synthetic)[k] == |set i | 0 <= i < |frames| && Starts(frames[i], synthetic, k) :: i|
    decreases |frames|
  {
    hide Add, Starts;
    if |frames| > 0 {
      var n := |frames| - 1;
      var head := frames[..n];
      DownsCount(head, synthetic, k);
      StartAdds(Downs(head, synthetic), frames[n], synthetic, k);
      OneMore(set i | 0 <= i < n && Starts(head[i], synthetic, k) :: i,
        set i | 0 <= i < |frames| && Starts(frames[i], synthetic, k) :: i, n, Starts(frames[n], synthetic, k));
    }
  }

  lemma StartAdds(st: Stats, f: StrokeFrame, synthetic: bool, k: nat)
    requires k < SLOTS
    ensures (if HasFlag(f.flags, DOWN) && HasFlag(f.flags, SYNTHETIC) == synthetic then Add(st, f.origin, 1) else st)[k]
            == st[k] + if Starts(f, synthetic, k) then 1 else 0
  {
    hide Add, HasFlag, InSlot;
    StartBits(f.flags);
    AddAt(st, f.origin, 1, k);
  }

  lemma StartBits(flags: u32)
    ensures HasFlag(flags, DOWN) <==> flags % 2 == 1
    ensures HasFlag(flags, SYNTHETIC) <==> flags % 32 >= 16
  {
    FlagBit(flags, 1);
    FlagBit(flags, 16);
  }

  lemma DownsAppend(frames: seq<StrokeFrame>, f: StrokeFrame, synthetic: bool)
    ensures Downs(frames + [f], synthetic) ==
            if HasFlag(f.flags, DOWN) && HasFlag(f.flags, SYNTHETIC) == synthetic
                then Add(Downs(frames, synthetic), f.origin, 1)
            else Downs(frames, synthetic)
  {
    assert (frames + [f])[..|frames|] == frames;
  }
}
