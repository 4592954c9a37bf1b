/** Layer two of the accelerator: the 14 x 14 x 8 layer-one map, four filters
    of one bit per tap broadcast across all eight channels, giving a 4 x 7 x 7
    map indexed `[filter][row][col]`. */
module LayerTwo {
  import opened Errors
  import opened Bits
  import Layout
  import opened Sequences
  import opened Scatter
  import opened BinaryConv
  import LayerOne

  /** Trained weights `[f][kr][kc][ch]`: one bit per tap and input channel. */
  type Trained = seq<seq<seq<seq<Bit>>>>

  predicate IsTrained(tw: Trained) {
    |tw| == 4 && forall f :: 0 <= f < 4 ==> IsBox3(tw[f], 3, 3, 8)
  }

  /** Hardware weights `[kr][kc][f]`: one bit per tap and filter. */
  type HwWeights = seq<seq<seq<Bit>>>

  predicate IsHw(hw: HwWeights) {
    IsBox3(hw, 3, 3, 4)
  }

  /** `derive_hw_weights`: tap `(kr, kc)` of filter `f` gets 1 iff at least
      four of its eight trained channel bits are 1. */
  function DeriveHwWeights(tw: Trained): (hw: HwWeights)
    requires IsTrained(tw)
    ensures IsHw(hw)
    ensures forall kr, kc, f :: 0 <= kr < 3 && 0 <= kc < 3 && 0 <= f < 4 ==>
              (hw[kr][kc][f] == 1 <==> Popcount(tw[f][kr][kc]) >= 4)
  {
    seq(3, kr requires 0 <= kr < 3 => seq(3, kc requires 0 <= kc < 3 =>
      seq(4, f requires 0 <= f < 4 => if Popcount(tw[f][kr][kc]) >= 4 then 1 else 0)))
  }

  /** The derived bit is a majority vote over the eight channels in which a
      4-4 tie goes to 1: it is 1 iff the ones are at least as many as the zeros. */
  lemma MajorityVote(tw: Trained, kr: nat, kc: nat, f: nat)
    requires IsTrained(tw) && kr < 3 && kc < 3 && f < 4
    ensures DeriveHwWeights(tw)[kr][kc][f] == 1 <==> Count(tw[f][kr][kc], 1) >= Count(tw[f][kr][kc], 0)
  {
    ZerosAndOnes(tw[f][kr][kc]);
  }

  /** The per-filter kernels `[f][kr][kc]` the engine reads. */
  function HwKernels(hw: HwWeights): (ws: seq<Kernel>)
    requires IsHw(hw)
    ensures |ws| == 4 && IsKernels(ws)
    ensures forall f, kr, kc :: 0 <= f < 4 && 0 <= kr < 3 && 0 <= kc < 3 ==> ws[f][kr][kc] == hw[kr][kc][f]
  {
    Permute(hw, LastToFirst, 3, 3, 4)
  }

  /** The eight channel values a tap reads at `(ir, ic)`; all zero outside the map. */
  function ChannelsAt(x: Grid, ir: int, ic: int): (v: seq<Bit>)
    requires IsGrid(x, 14, 8)
    ensures |v| == 8
  {
    if 0 <= ir < 14 && 0 <= ic < 14 then x[ir][ic] else seq(8, _ => 0)
  }

  function Sum(s: seq<nat>): nat {
    if |s| == 0 then 0 else Sum(s[..|s| - 1]) + s[|s| - 1]
  }

  /** Per tap of the window centred on `(i, j)`, the number of channels equal
      to filter `f`'s weight bit there (`np.sum(ch_vals == wt_bit)`). */
  function TapScores(x: Grid, hw: HwWeights, f: nat, i: int, j: int): (s: seq<nat>)
    requires IsGrid(x, 14, 8) && IsHw(hw) && f < 4
    ensures |s| == 9
  {
    seq(9, t requires 0 <= t < 9 => Count(ChannelsAt(x, i + t / 3 - 1, j + t % 3 - 1), hw[t / 3][t % 3][f]))
  }

  /** `matches` of the layer-two loop at input position `(i, j)`. */
  function Matches(x: Grid, hw: HwWeights, f: nat, i: int, j: int): nat
    requires IsGrid(x, 14, 8) && IsHw(hw) && f < 4
  {
    Sum(TapScores(x, hw, f, i, j))
  }

  predicate Fires(x: Grid, hw: HwWeights, f: nat, t: int, r: int, c: int, pr: int, pc: int)
    requires IsGrid(x, 14, 8) && IsHw(hw) && f < 4
  {
    Matches(x, hw, f, 2 * r + pr, 2 * c + pc) >= t
  }

  lemma {:induction false} ChannelPrefix(x: Grid, ir: int, ic: int, wb: Bit, k: nat)
    requires IsGrid(x, 14, 8) && k <= 8
    ensures ChannelMatches(x, 14, 8, ir, ic, wb, k) == Count(ChannelsAt(x, ir, ic)[..k], wb)
  {
    var v := ChannelsAt(x, ir, ic);
    if k == 0 {
      assert v[..0] == [];
    } else {
      ChannelPrefix(x, ir, ic, wb, k - 1);
      assert v[..k] == v[..k - 1] + [v[k - 1]];
      CountAppend(v[..k - 1], [v[k - 1]], wb);
      assert [v[k - 1]][1..] == [];
      assert Tap(x, 14, 8, ir, ic, k - 1) == v[k - 1];
    }
  }

  /** A tap's contribution is the count of its channels equal to the weight bit. */
  lemma TapCount(x: Grid, ir: int, ic: int, wb: Bit)
    requires IsGrid(x, 14, 8)
    ensures TapMatches(x, 14, 8, ir, ic, wb) == Count(ChannelsAt(x, ir, ic), wb)
  {
    ChannelPrefix(x, ir, ic, wb, 8);
    assert ChannelsAt(x, ir, ic)[..8] == ChannelsAt(x, ir, ic);
  }

  lemma TapScoreIsTap(x: Grid, hw: HwWeights, f: nat, i: int, j: int, t: nat)
    requires IsGrid(x, 14, 8) && IsHw(hw) && f < 4 && t < 9
    ensures TapScores(x, hw, f, i, j)[t] == TapMatches(x, 14, 8, i + t / 3 - 1, j + t % 3 - 1, HwKernels(hw)[f][t / 3][t % 3])
  {
    assert HwKernels(hw)[f][t / 3][t % 3] == hw[t / 3][t % 3][f];
    TapCount(x, i + t / 3 - 1, j + t % 3 - 1, hw[t / 3][t % 3][f]);
  }

  /** Per-tap scores that agree with the engine's taps sum to its window count. */
  lemma {:induction false} WindowSum(x: Grid, w: Kernel, i: int, j: int, s: seq<nat>, t: nat)
    requires IsGrid(x, 14, 8) && IsKernel(w) && t <= 9 && |s| == 9
    requires forall k :: 0 <= k < 9 ==> s[k] == TapMatches(x, 14, 8, i + k / 3 - 1, j + k % 3 - 1, w[k / 3][k % 3])
    ensures WindowMatches(x, 14, 8, w, i, j, t) == Sum(s[..t])
  {
    if t == 0 {
      assert s[..0] == [];
    } else {
      WindowSum(x, w, i, j, s, t - 1);
      assert s[..t][..t - 1] == s[..t - 1];
      assert Sum(s[..t]) == Sum(s[..t - 1]) + s[t - 1];
    }
  }

  lemma WindowPrefix(x: Grid, hw: HwWeights, f: nat, i: int, j: int, t: nat)
    requires IsGrid(x, 14, 8) && IsHw(hw) && f < 4 && t <= 9
    ensures WindowMatches(x, 14, 8, HwKernels(hw)[f], i, j, t) == Sum(TapScores(x, hw, f, i, j)[..t])
  {
    var s := TapScores(x, hw, f, i, j);
    var w := HwKernels(hw)[f];
    forall k | 0 <= k < 9
      ensures s[k] == TapMatches(x, 14, 8, i + k / 3 - 1, j + k % 3 - 1, w[k / 3][k % 3])
    {
      TapScoreIsTap(x, hw, f, i, j, k);
    }
    WindowSum(x, w, i, j, s, t);
  }

  /** The engine's window count with the hardware kernels is the layer-two
      `matches`: the per-tap channel agreements summed over the nine taps. */
  lemma LayerTwoCount(x: Grid, hw: HwWeights, f: nat, i: int, j: int)
    requires IsGrid(x, 14, 8) && IsHw(hw) && f < 4
    ensures ConvCount(x, 14, 8, HwKernels(hw)[f], i, j) == Matches(x, hw, f, i, j)
  {
    WindowPrefix(x, hw, f, i, j, 9);
    assert TapScores(x, hw, f, i, j)[..9] == TapScores(x, hw, f, i, j);
  }

  /** The count at any position lies in [0, 72]. */
  lemma MatchesBound(x: Grid, hw: HwWeights, f: nat, i: int, j: int)
    requires IsGrid(x, 14, 8) && IsHw(hw) && f < 4
    ensures Matches(x, hw, f, i, j) <= 72
  {
    LayerTwoCount(x, hw, f, i, j);
  }

  lemma {:induction false} CountZeros(n: nat, b: Bit)
    ensures Count(seq(n, _ => 0), b) == if b == 0 then n else 0
  {
    if n > 0 {
      assert seq(n, _ => 0)[1..] == seq(n - 1, _ => 0);
      CountZeros(n - 1, b);
    }
  }

  /** A tap outside the 14x14 map contributes 8 when its weight bit is 0 and 0 otherwise. */
  lemma PaddedScore(x: Grid, hw: HwWeights, f: nat, i: int, j: int, t: nat)
    requires IsGrid(x, 14, 8) && IsHw(hw) && f < 4 && t < 9
    requires !(0 <= i + t / 3 - 1 < 14 && 0 <= j + t % 3 - 1 < 14)
    ensures TapScores(x, hw, f, i, j)[t] == if hw[t / 3][t % 3][f] == 0 then 8 else 0
  {
    CountZeros(8, hw[t / 3][t % 3][f]);
  }

  lemma LayerTwoFires(x: Grid, hw: HwWeights, ts: seq<int>)
    requires IsGrid(x, 14, 8) && IsHw(hw) && |ts| >= 4
    ensures forall f, r, c :: 0 <= f < 4 && 0 <= r < 7 && 0 <= c < 7 ==>
              (Stage(x, 14, 8, HwKernels(hw), ts)[f][r][c] == 1 <==>
                 exists pr, pc :: 0 <= pr < 2 && 0 <= pc < 2 && Fires(x, hw, f, ts[f], r, c, pr, pc))
  {
    var ws := HwKernels(hw);
    forall f, r, c, pr, pc | 0 <= f < 4
      ensures SubFires(x, 14, 8, ws[f], ts[f], r, c, pr, pc) <==> Fires(x, hw, f, ts[f], r, c, pr, pc)
    {
      LayerTwoCount(x, hw, f, 2 * r + pr, 2 * c + pc);
    }
  }

  /** `run_layer_two`: output `[f][r][c]` is 1 iff one of the four windows
      under the pool cell reaches `ts[f]` channel agreements. */
  function RunLayerTwo(x: Grid, hw: HwWeights, ts: seq<int>): (out: Planes)
    requires IsGrid(x, 14, 8) && IsHw(hw) && |ts| >= 4
    ensures IsPlanes(out, 4, 7)
    ensures forall f, r, c :: 0 <= f < 4 && 0 <= r < 7 && 0 <= c < 7 ==>
              (out[f][r][c] == 1 <==> exists pr, pc :: 0 <= pr < 2 && 0 <= pc < 2 && Fires(x, hw, f, ts[f], r, c, pr, pc))
  {
    LayerTwoFires(x, hw, ts);
    Stage(x, 14, 8, HwKernels(hw), ts)
  }

  /** One image through both layers, as the layer-two generator computes
      its expected outputs: layer one, the channels-last copy, then layer
      two with the majority-vote weights.  The threshold loaders accept any
      number of lines, so a list shorter than 8 (layer one) or 4 (layer
      two) stops the script with an `IndexError` at `l1_thresh[k]` or
      `l2_thresh[f]`. */
  function Pipeline(p: LayerOne.Image, l1w: seq<Kernel>, l1t: seq<int>, tw: Trained, l2t: seq<int>): (res: Result<Planes>)
    requires LayerOne.IsImage(p) && LayerOne.IsWeights(l1w) && IsTrained(tw)
    ensures res.Ok? <==> |l1t| >= 8 && |l2t| >= 4
    ensures res.Err? ==> res.error == IndexOutOfRange
    ensures res.Ok? ==> IsPlanes(res.value, 4, 7)
    ensures res.Ok? ==>
              var x := LayerOne.ChannelsLast(LayerOne.RunLayerOne(p, l1w, l1t));
              forall f, r, c :: 0 <= f < 4 && 0 <= r < 7 && 0 <= c < 7 ==>
                (res.value[f][r][c] == 1 <==>
                   exists pr, pc :: 0 <= pr < 2 && 0 <= pc < 2 && Fires(x, DeriveHwWeights(tw), f, l2t[f], r, c, pr, pc))
  {
    if |l1t| < 8 || |l2t| < 4 then Err(IndexOutOfRange)
    else Ok(RunLayerTwo(LayerOne.ChannelsLast(LayerOne.RunLayerOne(p, l1w, l1t)), DeriveHwWeights(tw), l2t))
  }

  /** Number of set layer-two outputs, out of 196. */
  function Active(y: Planes): (n: nat)
    requires IsPlanes(y, 4, 7)
    ensures n <= 196
  {
    assert IsBox3(y, 4, 7, 7);
    Flatten3Length(y, 4, 7, 7);
    Popcount(Flatten3(y))
  }

  /** No layer-two output is set exactly when the active count is zero. */
  lemma ActiveZero(y: Planes)
    requires IsPlanes(y, 4, 7)
    ensures Active(y) == 0 <==> forall f, r, c :: 0 <= f < 4 && 0 <= r < 7 && 0 <= c < 7 ==> y[f][r][c] == 0
  {
    assert IsBox3(y, 4, 7, 7);
    PopcountZero(Flatten3(y));
    Flatten3Index(y, 4, 7, 7);
    Flatten3At(y, 4, 7, 7);
  }

  /** Every layer-two output is set exactly when the active count is 196. */
  lemma ActiveFull(y: Planes)
    requires IsPlanes(y, 4, 7)
    ensures Active(y) == 196 <==> forall f, r, c :: 0 <= f < 4 && 0 <= r < 7 && 0 <= c < 7 ==> y[f][r][c] == 1
  {
    assert IsBox3(y, 4, 7, 7);
    PopcountFull(Flatten3(y));
    Flatten3Index(y, 4, 7, 7);
    Flatten3At(y, 4, 7, 7);
  }

  /** Switching on one more layer-two output raises the active count by one;
      with `ActiveZero` this makes `Active` the number of set outputs. */
  lemma ActiveSet(y: Planes, f: nat, r: nat, c: nat)
    requires IsPlanes(y, 4, 7) && f < 4 && r < 7 && c < 7
    ensures IsPlanes(Set3(y, f, r, c, 1), 4, 7)
    ensures Active(Set3(y, f, r, c, 1)) == Active(y) + (1 - y[f][r][c])
  {
    assert IsBox3(y, 4, 7, 7);
    Flatten3Set(y, 4, 7, 7, f, r, c, 1);
    Flatten3Index(y, 4, 7, 7);
    PopcountSet(Flatten3(y), Layout.Idx3(f, r, c, 7, 7));
  }
}
